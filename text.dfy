/** The JavaScript string operations the bot relies on — `trim`, `split`,
    `join`, `replace`, `toLowerCase`/`toUpperCase`, the `\s` class and
    `Number#toString` — stated over Dafny strings (sequences of Unicode
    scalar values). */
module Text {
  import opened Wrappers

  // ---------------------------------------------------------------------------
  // Character classes
  // ---------------------------------------------------------------------------

  /** JavaScript white space and line terminators: exactly the characters that
      the regular-expression class `\s` matches and `String#trim` removes. */
  predicate IsSpace(c: char) {
    || c == '\t' || c == '\n' || c == '\U{000B}' || c == '\U{000C}' || c == '\r'
    || c == ' ' || c == '\U{00A0}' || c == '\U{1680}'
    || ('\U{2000}' <= c <= '\U{200A}')
    || c == '\U{2028}' || c == '\U{2029}' || c == '\U{202F}' || c == '\U{205F}'
    || c == '\U{3000}' || c == '\U{FEFF}'
  }

  /** The ASCII decimal digits, the class `\d`. */
  predicate IsDigit(c: char) {
    '0' <= c <= '9'
  }

  /** The class `\w`: ASCII letters, digits and the underscore. */
  predicate IsWordChar(c: char) {
    ('a' <= c <= 'z') || ('A' <= c <= 'Z') || IsDigit(c) || c == '_'
  }

  predicate AllSpace(s: string) {
    forall i :: 0 <= i < |s| ==> IsSpace(s[i])
  }

  predicate NoSpace(s: string) {
    forall i :: 0 <= i < |s| ==> !IsSpace(s[i])
  }

  // ---------------------------------------------------------------------------
  // trim
  // ---------------------------------------------------------------------------

  /** The number of white-space characters at the head of `s`. */
  function LeadingSpaces(s: string): (n: nat)
    ensures n <= |s|
    ensures forall i :: 0 <= i < n ==> IsSpace(s[i])
    ensures n < |s| ==> !IsSpace(s[n])
    ensures s != [] && IsSpace(s[0]) ==> n >= 1
  {
    if s != [] && IsSpace(s[0]) then
      var n := LeadingSpaces(s[1..]);
      assert forall i :: 1 <= i < n + 1 ==> s[i] == s[1..][i - 1];
      n + 1
    else
      0
  }

  /** The number of white-space characters at the tail of `s`. */
  function TrailingSpaces(s: string): (n: nat)
    ensures n <= |s|
    ensures forall i :: |s| - n <= i < |s| ==> IsSpace(s[i])
    ensures n < |s| ==> !IsSpace(s[|s| - n - 1])
  {
    if s != [] && IsSpace(s[|s| - 1]) then
      var n := TrailingSpaces(s[..|s| - 1]);
      assert forall i :: |s| - 1 - n <= i < |s| - 1 ==> s[i] == s[..|s| - 1][i];
      n + 1
    else
      0
  }

  /** `s` without its leading white space. */
  function TrimStart(s: string): (r: string)
    ensures r == s[LeadingSpaces(s)..]
    ensures r != [] ==> !IsSpace(r[0])
  {
    s[LeadingSpaces(s)..]
  }

  /** `s` without its trailing white space. */
  function TrimEnd(s: string): (r: string)
    ensures r == s[..|s| - TrailingSpaces(s)]
    ensures r != [] ==> !IsSpace(r[|r| - 1])
  {
    s[..|s| - TrailingSpaces(s)]
  }

  /** `String#trim`. */
  function Trim(s: string): (r: string)
    ensures |r| <= |s|
    ensures r != [] ==> !IsSpace(r[0]) && !IsSpace(r[|r| - 1])
  {
    var t := TrimStart(s);
    var r := TrimEnd(t);
    assert r != [] ==> r[0] == t[0];
    r
  }

  /** The leading white space of a concatenation. */
  lemma {:induction false} LeadingOfConcat(m: string, r: string)
    ensures LeadingSpaces(m + r)
      == if LeadingSpaces(m) < |m| then LeadingSpaces(m) else |m| + LeadingSpaces(r)
  {
    if m == [] {
      assert m + r == r;
    } else {
      assert (m + r)[0] == m[0];
      assert (m + r)[1..] == m[1..] + r;
      LeadingOfConcat(m[1..], r);
      if IsSpace(m[0]) {
        assert LeadingSpaces(m + r) == 1 + LeadingSpaces(m[1..] + r);
        assert LeadingSpaces(m) == 1 + LeadingSpaces(m[1..]);
      }
    }
  }

  /** The trailing white space of a concatenation. */
  lemma {:induction false} TrailingOfConcat(m: string, r: string)
    ensures TrailingSpaces(m + r)
      == if TrailingSpaces(r) < |r| then TrailingSpaces(r) else |r| + TrailingSpaces(m)
  {
    if r != [] {
      assert (m + r)[|m + r| - 1] == r[|r| - 1];
      assert (m + r)[..|m + r| - 1] == m + r[..|r| - 1];
      TrailingOfConcat(m, r[..|r| - 1]);
      if IsSpace(r[|r| - 1]) {
        assert TrailingSpaces(m + r) == 1 + TrailingSpaces(m + r[..|r| - 1]);
        assert TrailingSpaces(r) == 1 + TrailingSpaces(r[..|r| - 1]);
      }
    } else {
      assert m + r == m;
    }
  }

  /** Surrounding white space does not change what `trim` returns. */
  lemma TrimStartOfPadded(l: string, m: string)
    requires AllSpace(l)
    ensures TrimStart(l + m) == TrimStart(m)
  {
    assert LeadingSpaces(l) == |l|;
    LeadingOfConcat(l, m);
  }

  lemma TrimEndOfPadded(m: string, r: string)
    requires AllSpace(r)
    ensures TrimEnd(m + r) == TrimEnd(m)
  {
    assert TrailingSpaces(r) == |r|;
    TrailingOfConcat(m, r);
  }

  /** `trim` of a text followed by white space. */
  lemma TrimOfRightPadded(m: string, r: string)
    requires AllSpace(r)
    ensures Trim(m + r) == Trim(m)
  {
    LeadingOfConcat(m, r);
    if LeadingSpaces(m) < |m| {
      assert TrimStart(m + r) == TrimStart(m) + r;
      TrimEndOfPadded(TrimStart(m), r);
    } else {
      assert LeadingSpaces(r) == |r|;
      assert TrimStart(m + r) == [];
    }
  }

  /** Surrounding white space does not change what `trim` returns. */
  lemma TrimOfPadded(l: string, m: string, r: string)
    requires AllSpace(l) && AllSpace(r)
    ensures Trim(l + m + r) == Trim(m)
  {
    assert l + m + r == l + (m + r);
    TrimStartOfPadded(l, m + r);
    TrimOfRightPadded(m, r);
  }

  /** Trimming twice is trimming once. */
  lemma TrimIdempotent(s: string)
    ensures Trim(Trim(s)) == Trim(s)
  {
    var r := Trim(s);
    assert r == [] || LeadingSpaces(r) == 0;
    assert TrimStart(r) == r;
    assert r == [] || TrailingSpaces(r) == 0;
  }

  /** A text with nothing to trim is its own trim. */
  lemma TrimOfTrimmed(s: string)
    requires s == [] || (!IsSpace(s[0]) && !IsSpace(s[|s| - 1]))
    ensures Trim(s) == s
  {
    assert s == [] || LeadingSpaces(s) == 0;
    assert TrimStart(s) == s;
    assert s == [] || TrailingSpaces(s) == 0;
  }

  /** The trimmed text is a slice of the text: it holds no character the text
      does not. */
  lemma TrimMember(s: string, c: char)
    requires c in Trim(s)
    ensures c in s
  {
    var t := TrimStart(s);
    var k :| 0 <= k < |Trim(s)| && Trim(s)[k] == c;
    assert t[k] == c;
    assert s[LeadingSpaces(s) + k] == c;
  }

  // ---------------------------------------------------------------------------
  // split and join
  // ---------------------------------------------------------------------------

  /** `String#split` on a one-character separator: never empty, and no piece
      holds the separator. */
  function Split(s: string, sep: char): (parts: seq<string>)
    ensures |parts| >= 1
    ensures forall k :: 0 <= k < |parts| ==> sep !in parts[k]
  {
    if s == [] then [""]
    else
      var rest := Split(s[1..], sep);
      if s[0] == sep then [""] + rest
      else
        assert sep !in [s[0]] + rest[0];
        [[s[0]] + rest[0]] + rest[1..]
  }

  /** `Array#join`. */
  function Join(parts: seq<string>, sep: string): string {
    if parts == [] then ""
    else if |parts| == 1 then parts[0]
    else parts[0] + sep + Join(parts[1..], sep)
  }

  /** Joining the pieces of a split with the separator gives the text back. */
  lemma {:induction false} JoinSplit(s: string, sep: char)
    ensures Join(Split(s, sep), [sep]) == s
  {
    if s != [] {
      var rest := Split(s[1..], sep);
      var parts := Split(s, sep);
      JoinSplit(s[1..], sep);
      assert s == [s[0]] + s[1..];
      if s[0] == sep {
        assert parts == [""] + rest && parts[1..] == rest;
        assert Join(parts, [sep]) == "" + [sep] + Join(rest, [sep]);
      } else if |rest| == 1 {
        assert parts == [[s[0]] + rest[0]];
        assert Join(rest, [sep]) == rest[0];
      } else {
        assert parts[0] == [s[0]] + rest[0] && parts[1..] == rest[1..];
        assert Join(parts, [sep]) == parts[0] + [sep] + Join(rest[1..], [sep]);
        assert Join(rest, [sep]) == rest[0] + [sep] + Join(rest[1..], [sep]);
      }
    }
  }

  /** A text without the separator is a single piece. */
  lemma {:induction false} SplitWithoutSep(s: string, sep: char)
    requires sep !in s
    ensures Split(s, sep) == [s]
  {
    if s != [] {
      SplitWithoutSep(s[1..], sep);
      assert s[0] != sep && s == [s[0]] + s[1..];
    }
  }

  /** The first piece of a split is the text up to the first separator. */
  lemma {:induction false} SplitHead(a: string, b: string, sep: char)
    requires sep !in a
    ensures Split(a + [sep] + b, sep) == [a] + Split(b, sep)
  {
    if a == [] {
      assert a + [sep] + b == [sep] + b;
      assert ([sep] + b)[1..] == b;
    } else {
      assert (a + [sep] + b)[1..] == a[1..] + [sep] + b;
      SplitHead(a[1..], b, sep);
      assert [a[0]] + a[1..] == a;
    }
  }

  /** Splitting pieces joined by the separator gives the pieces back, when
      none of them holds the separator. */
  lemma {:induction false} SplitJoin(parts: seq<string>, sep: char)
    requires parts != []
    requires forall k :: 0 <= k < |parts| ==> sep !in parts[k]
    ensures Split(Join(parts, [sep]), sep) == parts
  {
    if |parts| == 1 {
      SplitWithoutSep(parts[0], sep);
    } else {
      SplitJoin(parts[1..], sep);
      assert Join(parts, [sep]) == parts[0] + [sep] + Join(parts[1..], [sep]);
      SplitHead(parts[0], Join(parts[1..], [sep]), sep);
      assert parts == [parts[0]] + parts[1..];
    }
  }

  /** Every piece trimmed (`parts.map(x => x.trim())`). */
  function TrimAll(parts: seq<string>): (r: seq<string>)
    ensures |r| == |parts|
    ensures forall k :: 0 <= k < |parts| ==> r[k] == Trim(parts[k])
  {
    seq(|parts|, k requires 0 <= k < |parts| => Trim(parts[k]))
  }

  // ---------------------------------------------------------------------------
  // replace
  // ---------------------------------------------------------------------------

  /** `pat` occurs in `s` at position `j`. */
  predicate OccursAt(s: string, pat: string, j: nat) {
    j + |pat| <= |s| && s[j..j + |pat|] == pat
  }

  /** The first position at which `pat` occurs in `s` (`String#indexOf`). */
  function IndexOf(s: string, pat: string): (r: Option<nat>)
    ensures r.Some? ==> OccursAt(s, pat, r.value)
    ensures r.Some? ==> forall j: nat :: j < r.value ==> !OccursAt(s, pat, j)
    ensures r.None? ==> forall j: nat :: !OccursAt(s, pat, j)
  {
    if |s| < |pat| then None
    else if s[..|pat|] == pat then Some(0)
    else
      var r := IndexOf(s[1..], pat);
      assert forall j: nat :: 1 <= j ==> (OccursAt(s, pat, j) <==> OccursAt(s[1..], pat, j - 1));
      match r
      case None => None
      case Some(k) => Some(k + 1)
  }

  /** `s.replace(pat, repl)` with a string pattern: only the first occurrence
      is replaced, and a text without it is returned unchanged. */
  function ReplaceFirst(s: string, pat: string, repl: string): (r: string)
    ensures IndexOf(s, pat).None? ==> r == s
    ensures IndexOf(s, pat).Some? ==>
      var k := IndexOf(s, pat).value; k + |pat| <= |s| && r == s[..k] + repl + s[k + |pat|..]
  {
    match IndexOf(s, pat)
    case None => s
    case Some(k) => s[..k] + repl + s[k + |pat|..]
  }

  /** A command at the head of a message is the occurrence `replace` removes. */
  lemma ReplaceLeadingCommand(cmd: string, rest: string)
    ensures ReplaceFirst(cmd + rest, cmd, "") == rest
  {
    assert (cmd + rest)[..|cmd|] == cmd;
    assert (cmd + rest)[|cmd|..] == rest;
  }

  // ---------------------------------------------------------------------------
  // white-space runs: s.replace(/\s+/g, repl)
  // ---------------------------------------------------------------------------

  /** Every maximal run of white space replaced by `repl`. */
  function CollapseSpaces(s: string, repl: string): string
    decreases |s|
  {
    if s == [] then []
    else if IsSpace(s[0]) then repl + CollapseSpaces(TrimStart(s), repl)
    else [s[0]] + CollapseSpaces(s[1..], repl)
  }

  /** With a replacement free of white space, no white space is left. */
  lemma {:induction false} CollapseNoSpace(s: string, repl: string)
    requires NoSpace(repl)
    ensures NoSpace(CollapseSpaces(s, repl))
    decreases |s|
  {
    if s != [] {
      if IsSpace(s[0]) {
        CollapseNoSpace(TrimStart(s), repl);
      } else {
        CollapseNoSpace(s[1..], repl);
      }
    }
  }

  /** Text without white space passes through unchanged. */
  lemma {:induction false} CollapseOfNoSpace(s: string, repl: string)
    requires NoSpace(s)
    ensures CollapseSpaces(s, repl) == s
  {
    if s != [] {
      CollapseOfNoSpace(s[1..], repl);
    }
  }

  /** Collapsing distributes over a run boundary: a word, a run, the rest. */
  lemma {:induction false} CollapseAppendWord(w: string, rest: string, repl: string)
    requires NoSpace(w)
    ensures CollapseSpaces(w + rest, repl) == w + CollapseSpaces(rest, repl)
  {
    if w == [] {
      assert w + rest == rest;
    } else {
      assert (w + rest)[0] == w[0] && !IsSpace(w[0]);
      assert (w + rest)[1..] == w[1..] + rest;
      CollapseAppendWord(w[1..], rest, repl);
      assert CollapseSpaces(w + rest, repl) == [w[0]] + CollapseSpaces(w[1..] + rest, repl);
      assert [w[0]] + w[1..] == w;
    }
  }

  /** A non-empty run of white space between two texts becomes one `repl`. */
  lemma {:induction false} CollapseRun(sp: string, rest: string, repl: string)
    requires sp != [] && AllSpace(sp)
    requires rest == [] || !IsSpace(rest[0])
    ensures CollapseSpaces(sp + rest, repl) == repl + CollapseSpaces(rest, repl)
  {
    assert (sp + rest)[0] == sp[0];
    assert LeadingSpaces(sp) == |sp|;
    LeadingOfConcat(sp, rest);
    assert TrimStart(sp + rest) == rest;
  }

  /** Two words separated by one run of white space: the run becomes `repl`. */
  lemma CollapseWords(a: string, sp: string, b: string, repl: string)
    requires NoSpace(a) && NoSpace(b) && sp != [] && AllSpace(sp)
    ensures CollapseSpaces(a + sp + b, repl) == a + repl + b
  {
    assert a + sp + b == a + (sp + b);
    CollapseAppendWord(a, sp + b, repl);
    CollapseRun(sp, b, repl);
    CollapseOfNoSpace(b, repl);
  }

  /** Every character of the result is a non-space character of the input or
      a character of the replacement. */
  lemma {:induction false} CollapseChars(s: string, repl: string, c: char)
    requires c in CollapseSpaces(s, repl)
    ensures (c in s && !IsSpace(c)) || c in repl
    decreases |s|
  {
    if IsSpace(s[0]) {
      var t := TrimStart(s);
      if c !in repl {
        assert c in CollapseSpaces(t, repl);
        CollapseChars(t, repl, c);
        if c in t {
          var k :| 0 <= k < |t| && t[k] == c;
          assert s[LeadingSpaces(s) + k] == c;
        }
      }
    } else if c != s[0] {
      assert c in CollapseSpaces(s[1..], repl);
      CollapseChars(s[1..], repl, c);
      if c in s[1..] {
        var k :| 0 <= k < |s[1..]| && s[1..][k] == c;
        assert s[k + 1] == c;
      }
    }
  }

  /** In the result every white-space character is a plain space that is
      followed by a non-space character. */
  predicate SingleSpaced(r: string) {
    forall i :: 0 <= i < |r| && IsSpace(r[i]) ==> r[i] == ' ' && i + 1 < |r| && !IsSpace(r[i + 1])
  }

  /** Collapsing the runs of a text that does not end in white space into
      single spaces leaves no doubled, trailing or non-plain white space, and
      keeps the text's first character when that is not white space. */
  lemma {:induction false} CollapseSingleSpaced(t: string)
    requires t == [] || !IsSpace(t[|t| - 1])
    ensures SingleSpaced(CollapseSpaces(t, " "))
    ensures t != [] && !IsSpace(t[0]) ==> CollapseSpaces(t, " ") != [] && CollapseSpaces(t, " ")[0] == t[0]
    ensures t != [] ==> CollapseSpaces(t, " ") != []
    decreases |t|
  {
    if t != [] {
      var r := CollapseSpaces(t, " ");
      if IsSpace(t[0]) {
        var u := TrimStart(t);
        assert u != [] && !IsSpace(u[0]);
        assert u[|u| - 1] == t[|t| - 1];
        CollapseSingleSpaced(u);
        var ru := CollapseSpaces(u, " ");
        assert r == " " + ru;
        forall i | 0 <= i < |r| && IsSpace(r[i])
          ensures r[i] == ' ' && i + 1 < |r| && !IsSpace(r[i + 1])
        {
          if i > 0 {
            assert r[i] == ru[i - 1];
          }
        }
      } else {
        var u := t[1..];
        CollapseSingleSpaced(u);
        var ru := CollapseSpaces(u, " ");
        assert r == [t[0]] + ru;
        forall i | 0 <= i < |r| && IsSpace(r[i])
          ensures r[i] == ' ' && i + 1 < |r| && !IsSpace(r[i + 1])
        {
          assert i > 0;
          assert r[i] == ru[i - 1];
        }
      }
    }
  }

  // ---------------------------------------------------------------------------
  // case mapping (ASCII, Latin-1, U+0100..U+012F and basic Cyrillic)
  // ---------------------------------------------------------------------------

  /** `toLowerCase` on one character, for the upper-case letters of ASCII, of
      Latin-1 (U+00C0..U+00DE but U+00D7), of the pairs U+0100..U+012F and of
      basic Cyrillic (U+0400..U+042F); every other character is left as it is. */
  function LowerChar(c: char): char {
    if 'A' <= c <= 'Z' then (c as int + 32) as char
    else if '\U{00C0}' <= c <= '\U{00DE}' && c != '\U{00D7}' then (c as int + 32) as char
    else if '\U{0100}' <= c <= '\U{012F}' && c as int % 2 == 0 then (c as int + 1) as char
    else if '\U{0410}' <= c <= '\U{042F}' then (c as int + 32) as char
    else if '\U{0400}' <= c <= '\U{040F}' then (c as int + 80) as char
    else c
  }

  /** `toUpperCase` on one character, the inverse mapping of `LowerChar`. */
  function UpperChar(c: char): char {
    if 'a' <= c <= 'z' then (c as int - 32) as char
    else if '\U{00E0}' <= c <= '\U{00FE}' && c != '\U{00F7}' then (c as int - 32) as char
    else if '\U{0100}' <= c <= '\U{012F}' && c as int % 2 == 1 then (c as int - 1) as char
    else if '\U{0430}' <= c <= '\U{044F}' then (c as int - 32) as char
    else if '\U{0450}' <= c <= '\U{045F}' then (c as int - 80) as char
    else c
  }

  /** Lower-casing is idempotent, and lower-casing undoes upper-casing a
      lower-cased character. */
  lemma CaseRoundTrip(c: char)
    ensures LowerChar(LowerChar(c)) == LowerChar(c)
    ensures LowerChar(UpperChar(LowerChar(c))) == LowerChar(c)
  {
  }

  function Lower(s: string): (r: string)
    ensures |r| == |s| && forall i :: 0 <= i < |s| ==> r[i] == LowerChar(s[i])
  {
    seq(|s|, i requires 0 <= i < |s| => LowerChar(s[i]))
  }

  function Upper(s: string): (r: string)
    ensures |r| == |s| && forall i :: 0 <= i < |s| ==> r[i] == UpperChar(s[i])
  {
    seq(|s|, i requires 0 <= i < |s| => UpperChar(s[i]))
  }

  // ---------------------------------------------------------------------------
  // numbers as text
  // ---------------------------------------------------------------------------

  function DigitChar(d: nat): (c: char)
    requires d < 10
    ensures IsDigit(c)
  {
    ('0' as int + d) as char
  }

  function DigitValue(c: char): (d: nat)
    requires IsDigit(c)
    ensures d < 10 && DigitChar(d) == c
  {
    c as int - '0' as int
  }

  /** `String(n)` for a non-negative integer: decimal digits, no leading zero. */
  function NatToString(n: nat): (r: string)
    ensures |r| >= 1 && forall i :: 0 <= i < |r| ==> IsDigit(r[i])
    ensures n > 0 ==> r[0] != '0'
    ensures n < 10 <==> |r| == 1
  {
    if n < 10 then [DigitChar(n)] else NatToString(n / 10) + [DigitChar(n % 10)]
  }

  /** The value of a string of decimal digits (`Number` on a `\d+` match). */
  function DecimalValue(s: string): nat
    requires forall i :: 0 <= i < |s| ==> IsDigit(s[i])
  {
    if s == [] then 0 else DecimalValue(s[..|s| - 1]) * 10 + DigitValue(s[|s| - 1])
  }

  /** Reading back the decimal text of `n` gives `n`. */
  lemma {:induction false} DecimalOfNatToString(n: nat)
    ensures DecimalValue(NatToString(n)) == n
  {
    var r := NatToString(n);
    if n >= 10 {
      assert r[..|r| - 1] == NatToString(n / 10);
      DecimalOfNatToString(n / 10);
    }
  }

  /** Different numbers have different decimal texts. */
  lemma NatToStringInjective(a: nat, b: nat)
    requires NatToString(a) == NatToString(b)
    ensures a == b
  {
    DecimalOfNatToString(a);
    DecimalOfNatToString(b);
  }

  /** `String(i)` for an integer: a leading `-` for negatives. */
  function IntToString(i: int): (r: string)
    ensures ':' !in r
  {
    if i < 0 then "-" + NatToString(-i) else NatToString(i)
  }

  lemma IntToStringInjective(a: int, b: int)
    requires IntToString(a) == IntToString(b)
    ensures a == b
  {
    if a < 0 && b < 0 {
      assert IntToString(a)[1..] == NatToString(-a);
      assert IntToString(b)[1..] == NatToString(-b);
      NatToStringInjective(-a, -b);
    } else if a >= 0 && b >= 0 {
      NatToStringInjective(a, b);
    } else {
      assert false;
    }
  }
}
