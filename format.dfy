/** Text formatting helpers: capitalisation, the upper-case identifier code
    derived from a title, price text normalisation and product-group labels.
    The price placeholder and the product labels of the formatting file are
    stored garbled (their UTF-8 bytes read as Windows-1254 text); the members
    suffixed `AsWritten` keep those literals, the others carry the intended
    text. */
module Format {
  import opened Wrappers
  import Text
  import Seqs

  // ---------------------------------------------------------------------------
  // toCapitalize
  // ---------------------------------------------------------------------------

  /** `toCapitalize(s)`: empty for empty input, otherwise the first character
      upper-cased after lower-casing and the rest lower-cased. */
  function ToCapitalize(s: string): (r: string)
    ensures s == "" ==> r == ""
    ensures |r| == |s|
    ensures s != "" ==> r[0] == Text.UpperChar(Text.LowerChar(s[0])) && r[1..] == Text.Lower(s[1..])
  {
    if s == "" then ""
    else
      var low := Text.Lower(s);
      assert low[1..] == Text.Lower(s[1..]);
      [Text.UpperChar(low[0])] + low[1..]
  }

  /** Lower-casing twice is lower-casing once. */
  lemma LowerIdempotent(s: string)
    ensures Text.Lower(Text.Lower(s)) == Text.Lower(s)
  {
    forall i | 0 <= i < |s| ensures Text.LowerChar(Text.LowerChar(s[i])) == Text.LowerChar(s[i]) {
      Text.CaseRoundTrip(s[i]);
    }
  }

  /** Capitalising a capitalised text changes nothing. */
  lemma ToCapitalizeIdempotent(s: string)
    ensures ToCapitalize(ToCapitalize(s)) == ToCapitalize(s)
  {
    if s != "" {
      var r := ToCapitalize(s);
      Text.CaseRoundTrip(s[0]);
      LowerIdempotent(s[1..]);
      assert r[1..] == Text.Lower(s[1..]);
      assert ToCapitalize(r)[1..] == Text.Lower(r[1..]);
    }
  }

  // ---------------------------------------------------------------------------
  // toCode
  // ---------------------------------------------------------------------------

  /** The characters `[\w\s-]` that survive the first replacement. */
  predicate IsCodeChar(c: char) {
    Text.IsWordChar(c) || Text.IsSpace(c) || c == '-'
  }

  /** The characters a code consists of: upper-case ASCII letters, digits,
      `_` and `-`. */
  predicate IsCodeOutChar(c: char) {
    ('A' <= c <= 'Z') || Text.IsDigit(c) || c == '_' || c == '-'
  }

  /** `replace(/[^\w\s-]+/g, '')`: every character outside the class dropped. */
  function StripNonCode(s: string): string {
    Seqs.Filter(s, (c: char) => IsCodeChar(c))
  }

  /** `toCode(s)`: stripped, trimmed, white-space runs turned into `_`,
      upper-cased. The `NFKD` normalisation step is not modelled. */
  function ToCode(s: string): (r: string)
    ensures forall i :: 0 <= i < |r| ==> IsCodeOutChar(r[i])
    ensures Text.NoSpace(r)
  {
    var collapsed := Text.CollapseSpaces(Text.Trim(StripNonCode(s)), "_");
    CollapsedCodeChars(s, collapsed);
    Text.Upper(collapsed)
  }

  /** Every character left once the text is stripped, trimmed and collapsed
      is a code character or a white-space-free `_`. */
  lemma CollapsedCodeChars(s: string, collapsed: string)
    requires collapsed == Text.CollapseSpaces(Text.Trim(StripNonCode(s)), "_")
    ensures forall i :: 0 <= i < |Text.Upper(collapsed)| ==> IsCodeOutChar(Text.Upper(collapsed)[i])
    ensures Text.NoSpace(Text.Upper(collapsed))
  {
    var stripped := StripNonCode(s);
    forall i | 0 <= i < |collapsed| ensures IsCodeOutChar(Text.Upper(collapsed)[i]) {
      var c := collapsed[i];
      assert c in collapsed;
      Text.CollapseChars(Text.Trim(stripped), "_", c);
      if c != '_' {
        Text.TrimMember(stripped, c);
        Seqs.FilterMember(s, (c: char) => IsCodeChar(c), c);
      }
    }
  }

  /** Nothing is stripped from text made of `[\w\s-]` characters. */
  lemma StripKeepsCodeText(s: string)
    requires forall i :: 0 <= i < |s| ==> IsCodeChar(s[i])
    ensures StripNonCode(s) == s
  {
    var keep := (c: char) => IsCodeChar(c);
    assert forall k :: 0 <= k < |s| ==> keep(s[k]);
    Seqs.FilterKeepsAll(s, keep);
  }

  /** Code characters are kept by the first step and are not white space. */
  lemma CodeOutChars(s: string)
    requires forall i :: 0 <= i < |s| ==> IsCodeOutChar(s[i])
    ensures forall i :: 0 <= i < |s| ==> IsCodeChar(s[i]) && !Text.IsSpace(s[i])
    ensures Text.Upper(s) == s
  {
  }

  /** Code characters pass through every step unchanged. */
  lemma ToCodeOfCode(s: string)
    requires forall i :: 0 <= i < |s| ==> IsCodeOutChar(s[i])
    ensures ToCode(s) == s
  {
    CodeOutChars(s);
    StripKeepsCodeText(s);
    Text.TrimOfTrimmed(s);
    Text.CollapseOfNoSpace(s, "_");
  }

  /** `toCode` is idempotent. */
  lemma ToCodeIdempotent(s: string)
    ensures ToCode(ToCode(s)) == ToCode(s)
  {
    ToCodeOfCode(ToCode(s));
  }

  /** White space around the input does not reach the code: no leading or
      trailing `_` comes from it. */
  lemma ToCodeTrimInvariant(l: string, m: string, r: string)
    requires Text.AllSpace(l) && Text.AllSpace(r)
    ensures ToCode(l + m + r) == ToCode(m)
  {
    var keep := (c: char) => IsCodeChar(c);
    Seqs.FilterConcat(l + m, r, keep);
    Seqs.FilterConcat(l, m, keep);
    StripKeepsCodeText(l);
    StripKeepsCodeText(r);
    assert StripNonCode(l + m + r) == l + StripNonCode(m) + r;
    Text.TrimOfPadded(l, StripNonCode(m), r);
  }

  /** A run of white space between two words becomes exactly one `_`. */
  lemma ToCodeJoinsWords(a: string, sp: string, b: string)
    requires a != [] && b != []
    requires forall i :: 0 <= i < |a| ==> IsCodeOutChar(a[i])
    requires forall i :: 0 <= i < |b| ==> IsCodeOutChar(b[i])
    requires sp != [] && Text.AllSpace(sp)
    ensures ToCode(a + sp + b) == a + "_" + b
  {
    CodeOutChars(a);
    CodeOutChars(b);
    var t := a + sp + b;
    assert forall i :: 0 <= i < |t| ==> IsCodeChar(t[i]) by {
      forall i | 0 <= i < |t| ensures IsCodeChar(t[i]) {
        if i < |a| { assert t[i] == a[i]; }
        else if i < |a| + |sp| { assert t[i] == sp[i - |a|]; }
        else { assert t[i] == b[i - |a| - |sp|]; }
      }
    }
    assert t[0] == a[0] && t[|t| - 1] == b[|b| - 1];
    ToCodeOfTrimmedCodeText(t);
    Text.CollapseWords(a, sp, b, "_");
    CodeOutChars(a + "_" + b);
  }

  /** Code text with no white space at either end is only collapsed and
      upper-cased. */
  lemma ToCodeOfTrimmedCodeText(t: string)
    requires forall i :: 0 <= i < |t| ==> IsCodeChar(t[i])
    requires t == [] || (!Text.IsSpace(t[0]) && !Text.IsSpace(t[|t| - 1]))
    ensures ToCode(t) == Text.Upper(Text.CollapseSpaces(t, "_"))
  {
    StripKeepsCodeText(t);
    Text.TrimOfTrimmed(t);
  }

  // ---------------------------------------------------------------------------
  // formatPrice
  // ---------------------------------------------------------------------------

  /** The placeholder for an unknown price ("to be clarified"). */
  const PricePlaceholder: string := "уточняйте"

  /** The placeholder literal as stored in the formatting file. */
  const PricePlaceholderAsWritten: string :=
    "\U{00D1}\U{0192}\U{00D1}\U{201A}\U{011E}\U{00BE}\U{00D1}\U{2021}\U{011E}\U{00BD}\U{00D1}\U{011E}\U{00B9}\U{00D1}\U{201A}\U{011E}\U{00B5}"

  /** `String(v).trim()` with white-space runs collapsed to one space. */
  function NormalisePrice(s: string): string {
    Text.CollapseSpaces(Text.Trim(s), " ")
  }

  /** `formatPrice(v)` as written: the garbled placeholder for a falsy value. */
  function FormatPriceAsWritten(v: Option<string>): (r: string)
    ensures v.None? || v.value == "" ==> r == PricePlaceholderAsWritten
    ensures v.Some? && v.value != "" ==> r == NormalisePrice(v.value)
  {
    if v.None? || v.value == "" then PricePlaceholderAsWritten else NormalisePrice(v.value)
  }

  /** `formatPrice(v)` with the intended placeholder: the placeholder for a
      falsy value; otherwise the text trimmed, with every white-space run a
      single plain space. */
  function FormatPrice(v: Option<string>): (r: string)
    ensures v.None? || v.value == "" ==> r == PricePlaceholder
    ensures v.Some? && v.value != "" ==>
      && Text.SingleSpaced(r)
      && (r != [] ==> !Text.IsSpace(r[0]))
      && (r == [] <==> Text.AllSpace(v.value))
  {
    if v.None? || v.value == "" then PricePlaceholder
    else
      var t := Text.Trim(v.value);
      Text.CollapseSingleSpaced(t);
      assert t == [] <==> Text.AllSpace(v.value) by {
        if t == [] {
          assert Text.LeadingSpaces(v.value) + Text.TrailingSpaces(Text.TrimStart(v.value)) >= |v.value|;
        }
      }
      NormalisePrice(v.value)
  }

  /** The two versions differ only in the placeholder: the written one shows
      no Cyrillic letter at all, although the intended word is Cyrillic. */
  lemma FormatPricePlaceholderGarbled(v: Option<string>)
    ensures v.Some? && v.value != "" ==> FormatPriceAsWritten(v) == FormatPrice(v)
    ensures FormatPriceAsWritten(None) != FormatPrice(None)
    ensures forall i :: 0 <= i < |FormatPriceAsWritten(None)| ==> !('\U{0400}' <= FormatPriceAsWritten(None)[i] <= '\U{04FF}')
    ensures forall i :: 0 <= i < |FormatPrice(None)| ==> '\U{0400}' <= FormatPrice(None)[i] <= '\U{04FF}'
  {
  }

  /** A single-spaced trimmed text is its own normal form. */
  lemma {:induction false} CollapseOfSingleSpaced(s: string)
    requires Text.SingleSpaced(s)
    ensures Text.CollapseSpaces(s, " ") == s
    decreases |s|
  {
    if s != [] {
      if Text.IsSpace(s[0]) {
        assert s[0] == ' ' && |s| > 1 && !Text.IsSpace(s[1]);
        assert Text.LeadingSpaces(s) == 1;
        assert Text.TrimStart(s) == s[1..];
        CollapseOfSingleSpaced(s[1..]);
      } else {
        CollapseOfSingleSpaced(s[1..]);
      }
      assert [s[0]] + s[1..] == s;
    }
  }

  /** Formatting a formatted (non-empty) price changes nothing. */
  lemma FormatPriceIdempotent(v: string)
    requires v != "" && FormatPrice(Some(v)) != ""
    ensures FormatPrice(Some(FormatPrice(Some(v)))) == FormatPrice(Some(v))
  {
    var r := FormatPrice(Some(v));
    assert !Text.IsSpace(r[|r| - 1]);
    Text.TrimOfTrimmed(r);
    CollapseOfSingleSpaced(r);
  }

  // ---------------------------------------------------------------------------
  // prettyProductLabel
  // ---------------------------------------------------------------------------

  /** The fallback category name ("Category"). */
  const CategoryWord: string := "Категория"

  /** `prettyProductLabel(key)` with the intended labels: five known keys get
      an emoji label, anything else its capitalised form, the empty key the
      capitalised category word. */
  function PrettyProductLabel(key: string): (r: string)
    ensures key == "IPHONES" ==> r == "\U{1F4F1} iPhones"
    ensures key == "AIRPODS" ==> r == "\U{1F3A7} AirPods"
    ensures key == "MACBOOKS" ==> r == "\U{1F4BB} MacBooks"
    ensures key == "IPADS" ==> r == "\U{1F4F2} iPads"
    ensures key == "APPLE_WATCHES" ==> r == "\U{231A}\U{FE0F} Apple Watches"
    ensures key !in {"IPHONES", "AIRPODS", "MACBOOKS", "IPADS", "APPLE_WATCHES"} ==>
      r == ToCapitalize(if key == "" then CategoryWord else key)
  {
    match key
    case "IPHONES" => "\U{1F4F1} iPhones"
    case "AIRPODS" => "\U{1F3A7} AirPods"
    case "MACBOOKS" => "\U{1F4BB} MacBooks"
    case "IPADS" => "\U{1F4F2} iPads"
    case "APPLE_WATCHES" => "\U{231A}\U{FE0F} Apple Watches"
    case _ => ToCapitalize(if key == "" then CategoryWord else key)
  }

  /** `prettyProductLabel(key)` with the literals as stored. */
  function PrettyProductLabelAsWritten(key: string): (r: string)
    ensures key !in {"IPHONES", "AIRPODS", "MACBOOKS", "IPADS", "APPLE_WATCHES", ""} ==> r == PrettyProductLabel(key)
  {
    match key
    case "IPHONES" => "\U{011F}\U{0178}\U{201C}\U{00B1} iPhones"
    case "AIRPODS" => "\U{011F}\U{0178}\U{00A7} AirPods"
    case "MACBOOKS" => "\U{011F}\U{0178}\U{2019}\U{00BB} MacBooks"
    case "IPADS" => "\U{011F}\U{0178}\U{201C}\U{00B2} iPads"
    case "APPLE_WATCHES" => "\U{00E2}\U{0152}\U{0161}\U{00EF}\U{00B8} Apple Watches"
    case _ => ToCapitalize(if key == "" then CategoryWordAsWritten else key)
  }

  const CategoryWordAsWritten: string :=
    "\U{011E}\U{0161}\U{011E}\U{00B0}\U{00D1}\U{201A}\U{011E}\U{00B5}\U{011E}\U{00B3}\U{011E}\U{00BE}\U{00D1}\U{20AC}\U{011E}\U{00B8}\U{00D1}"

  /** The stored labels show no emoji: the iPhone label starts with Latin
      letters instead of the phone symbol, and the empty key yields a garbled
      word instead of the category word. */
  lemma PrettyProductLabelGarbled()
    ensures PrettyProductLabelAsWritten("IPHONES")[0] == '\U{011F}'
    ensures PrettyProductLabel("IPHONES")[0] == '\U{1F4F1}'
    ensures PrettyProductLabelAsWritten("") != PrettyProductLabel("")
    ensures PrettyProductLabel("") == CategoryWord
  {
    assert ToCapitalize(CategoryWord) == CategoryWord;
    assert |ToCapitalize(CategoryWordAsWritten)| == 17 != |CategoryWord|;
  }
}
