/** Importing one sheet of the price workbook as a product group: a group
    button in the `PRODUCT_GROUP` chapter, one category button per distinct
    product inside the group, and one item button per named product row
    inside its category, each inserted or replaced by id. The importer keeps
    the `parents` parent links and counts what it added and replaced. */
module SheetGroup {
  import opened Wrappers
  import opened Types
  import Text
  import Format
  import Buttons
  import Sheets
  import Store

  /** The chapter that lists the product groups. */
  const ProductGroup: string := "PRODUCT_GROUP"

  /** The word used for a category without a product name. */
  const DefaultCategory: string := "Категория"

  // ---------------------------------------------------------------------------
  // labels and titles
  // ---------------------------------------------------------------------------

  /** The fixed labels of the known products, by upper-case key. */
  const KnownLabels: map<string, string> := map[
    "IPHONES" := "\U{1F4F1} iPhones",
    "AIRPODS" := "\U{1F3A7} AirPods",
    "MACBOOKS" := "\U{1F4BB} MacBooks",
    "IMACS" := "\U{1F5A5} iMacs",
    "IPADS" := "\U{1F4FA} iPads",
    "APPLE_WATCHES" := "\U{231A}\U{FE0F} Apple Watches",
    "APPLE_ACCESSORIES" := "\U{1F5B1} Apple Accessories"]

  /** `productLabel`: a known product, recognised after trimming and
      upper-casing, gets its fixed label; anything else is capitalised as
      written, the empty product as the category word. The table and the
      fallback are stated for all inputs by `ProductLabelCases` below. */
  function ProductLabel(product: string): string {
    var key := Text.Upper(Text.Trim(product));
    if key in KnownLabels then KnownLabels[key]
    else Format.ToCapitalize(if product == "" then DefaultCategory else product)
  }

  /** The label table: exactly the seven known keys get their fixed labels,
      any other non-empty product is capitalised as written, the empty one
      is the category word capitalised, and no label is empty. */
  lemma ProductLabelCases(product: string)
    ensures var key := Text.Upper(Text.Trim(product));
      var shown := ProductLabel(product);
      && (key in KnownLabels ==> shown == KnownLabels[key])
      && (key !in KnownLabels && product != "" ==> shown == Format.ToCapitalize(product))
      && (product == "" ==> shown == Format.ToCapitalize(DefaultCategory))
      && shown != ""
  {
    if product == "" {
      assert Text.Trim(product) == "";
    }
  }

  /** White space around a known product does not change its label. */
  lemma ProductLabelOfPadded(l: string, m: string, r: string)
    requires Text.AllSpace(l) && Text.AllSpace(r)
    requires Text.Upper(Text.Trim(m)) in KnownLabels
    ensures ProductLabel(l + m + r) == ProductLabel(m)
  {
    Text.TrimOfPadded(l, m, r);
  }

  /** The product column of an item, trimmed. */
  function ProductOf(it: Sheets.SheetItem): string {
    Text.Trim(it.product)
  }

  /** The trimmed product of every item, in order. */
  function Products(items: seq<Sheets.SheetItem>): seq<string> {
    seq(|items|, i requires 0 <= i < |items| => ProductOf(items[i]))
  }

  /** The product of every item is among the products. */
  lemma ProductsMember(items: seq<Sheets.SheetItem>, it: Sheets.SheetItem)
    requires it in items
    ensures ProductOf(it) in Products(items)
  {
    var i :| 0 <= i < |items| && items[i] == it;
    assert Products(items)[i] == ProductOf(it);
  }

  /** `Array.from(new Set(ps.filter(Boolean)))`: the distinct non-empty
      strings of `ps`, in the order they first occur. */
  function Distinct(ps: seq<string>): seq<string> {
    if ps == [] then []
    else
      var prev := Distinct(ps[..|ps| - 1]);
      var p := ps[|ps| - 1];
      if p == "" || p in prev then prev else prev + [p]
  }

  /** No string occurs twice. */
  predicate NoDuplicates(ps: seq<string>) {
    forall i, j :: 0 <= i < j < |ps| ==> ps[i] != ps[j]
  }

  /** Each string is listed once, and exactly the non-empty ones are. */
  lemma {:induction false} DistinctMembers(ps: seq<string>)
    ensures NoDuplicates(Distinct(ps))
    ensures forall p :: p in Distinct(ps) <==> p != "" && p in ps
  {
    if ps != [] {
      var init := ps[..|ps| - 1];
      var prev := Distinct(init);
      var p := ps[|ps| - 1];
      DistinctMembers(init);
      assert ps == init + [p];
      assert forall q :: q in ps <==> q in init || q == p;
      if p != "" && p !in prev {
        var ds := prev + [p];
        forall i, j | 0 <= i < j < |ds| ensures ds[i] != ds[j] {
          assert ds[i] == prev[i];
          if j == |prev| {
            assert ds[i] in prev;
          } else {
            assert ds[j] == prev[j];
          }
        }
      }
    }
  }

  /** A non-empty first string is listed first. */
  lemma {:induction false} DistinctFirst(ps: seq<string>)
    requires ps != [] && ps[0] != ""
    ensures Distinct(ps) != [] && Distinct(ps)[0] == ps[0]
  {
    if |ps| > 1 {
      var init := ps[..|ps| - 1];
      assert init[0] == ps[0];
      DistinctFirst(init);
    }
  }

  /** The distinct non-empty products of a sheet. */
  function DistinctProducts(items: seq<Sheets.SheetItem>): seq<string> {
    Distinct(Products(items))
  }

  /** Each product is listed once. */
  lemma DistinctProductsUnique(items: seq<Sheets.SheetItem>)
    ensures NoDuplicates(DistinctProducts(items))
  {
    var all := Products(items);
    DistinctMembers(all);
    assert DistinctProducts(items) == Distinct(all);
  }

  /** Exactly the non-empty products of the items are listed. */
  lemma DistinctProductsMembers(items: seq<Sheets.SheetItem>)
    ensures forall p :: p in DistinctProducts(items) <==> p != "" && exists it :: it in items && ProductOf(it) == p
  {
    var all := Products(items);
    DistinctMembers(all);
    forall p ensures p in all <==> exists it :: it in items && ProductOf(it) == p {
      if p in all {
        var i :| 0 <= i < |all| && all[i] == p;
        assert items[i] in items;
      }
      if exists it :: it in items && ProductOf(it) == p {
        var it :| it in items && ProductOf(it) == p;
        var i :| 0 <= i < |items| && items[i] == it;
        assert all[i] == p;
      }
    }
  }

  /** The first item's product, when it has one, is the first product. */
  lemma DistinctProductsFirst(items: seq<Sheets.SheetItem>)
    requires items != [] && ProductOf(items[0]) != ""
    ensures DistinctProducts(items) != [] && DistinctProducts(items)[0] == ProductOf(items[0])
  {
    DistinctFirst(Products(items));
  }

  /** `guessGroupTitle`: the product when the sheet holds exactly one. */
  function GuessGroupTitle(items: seq<Sheets.SheetItem>): (g: Option<string>)
    ensures g.Some? ==> g.value != "" && exists it :: it in items && ProductOf(it) == g.value
    ensures (exists it :: it in items && ProductOf(it) != "") && g.None? ==> |DistinctProducts(items)| >= 2
  {
    var ps := DistinctProducts(items);
    DistinctProductsMembers(items);
    assert |ps| == 1 ==> ps[0] in ps;
    assert (exists it :: it in items && ProductOf(it) != "") ==> ps != [] by {
      if exists it :: it in items && ProductOf(it) != "" {
        var it :| it in items && ProductOf(it) != "";
        assert ProductOf(it) in ps;
      }
    }
    if |ps| == 1 then Some(ps[0]) else None
  }

  /** A guess is the one non-empty product of the sheet: some item names it
      and every item names it or nothing. */
  lemma GuessIsOnlyProduct(items: seq<Sheets.SheetItem>)
    requires GuessGroupTitle(items).Some?
    ensures var p := GuessGroupTitle(items).value;
      && p != ""
      && (exists it :: it in items && ProductOf(it) == p)
      && (forall it :: it in items ==> ProductOf(it) == "" || ProductOf(it) == p)
  {
    var ps := DistinctProducts(items);
    assert |ps| == 1 && GuessGroupTitle(items).value == ps[0];
    DistinctProductsMembers(items);
    assert ps[0] in ps;
    forall it | it in items ensures ProductOf(it) == "" || ProductOf(it) == ps[0] {
      var q := ProductOf(it);
      if q != "" {
        assert q in ps;
        assert ps == [ps[0]];
      }
    }
  }

  /** No guess is made when no item names a product, or when two items
      name different ones. */
  lemma NoGuessMeansNoneOrMany(items: seq<Sheets.SheetItem>)
    requires GuessGroupTitle(items).None?
    ensures || (forall it :: it in items ==> ProductOf(it) == "")
            || (exists a, b :: a in items && b in items && ProductOf(a) != "" && ProductOf(b) != "" && ProductOf(a) != ProductOf(b))
  {
    var ps := DistinctProducts(items);
    DistinctProductsMembers(items);
    if |ps| == 0 {
      forall it | it in items ensures ProductOf(it) == "" {
        var q := ProductOf(it);
        assert exists x :: x in items && ProductOf(x) == q;
        assert q !in ps;
      }
    } else {
      DistinctProductsUnique(items);
      assert ps[0] in ps && ps[1] in ps && ps[0] != ps[1];
    }
  }

  /** The group title: the explicit title when it is non-empty, otherwise the
      guessed product, otherwise `SHEET_<gid>`; trimmed in every case. */
  function GroupTitle(explicit: Option<string>, items: seq<Sheets.SheetItem>, gid: string): (t: string)
    ensures t != "" ==> !Text.IsSpace(t[0]) && !Text.IsSpace(t[|t| - 1])
    ensures explicit.Some? && explicit.value != "" ==> t == Text.Trim(explicit.value)
    ensures (explicit.None? || explicit.value == "") && GuessGroupTitle(items).None? ==> t == Text.Trim("SHEET_" + gid)
  {
    var chosen :=
      if explicit.Some? && explicit.value != "" then explicit.value
      else match GuessGroupTitle(items)
        case Some(p) => p
        case None => "SHEET_" + gid;
    Text.Trim(chosen)
  }

  /** Without an explicit title, a sheet of one product is titled with that
      product, and any other sheet with `SHEET_<gid>`. */
  lemma GroupTitleFallback(items: seq<Sheets.SheetItem>, gid: string, p: string)
    requires p != ""
    ensures (exists it :: it in items && ProductOf(it) == p) && (forall it :: it in items ==> ProductOf(it) == "" || ProductOf(it) == p) ==>
      GroupTitle(None, items, gid) == p
    ensures (forall it :: it in items ==> ProductOf(it) == "") ==> GroupTitle(None, items, gid) == Text.Trim("SHEET_" + gid)
  {
    if (exists it :: it in items && ProductOf(it) == p) && (forall it :: it in items ==> ProductOf(it) == "" || ProductOf(it) == p) {
      GroupTitleOfOneProduct(items, gid, p);
    }
    if forall it :: it in items ==> ProductOf(it) == "" {
      GroupTitleOfNoProduct(items, gid);
    }
  }

  /** A sheet whose items name one product, and nothing else, is titled with
      it. */
  lemma GroupTitleOfOneProduct(items: seq<Sheets.SheetItem>, gid: string, p: string)
    requires p != ""
    requires exists it :: it in items && ProductOf(it) == p
    requires forall it :: it in items ==> ProductOf(it) == "" || ProductOf(it) == p
    ensures GroupTitle(None, items, gid) == p
  {
    var g := GuessGroupTitle(items);
    var it :| it in items && ProductOf(it) == p;
    if g.None? {
      NoGuessMeansNoneOrMany(items);
      assert false;
    }
    GuessIsOnlyProduct(items);
    assert g.value == p;
    Text.TrimIdempotent(it.product);
  }

  /** A sheet whose items name no product is titled `SHEET_<gid>`. */
  lemma GroupTitleOfNoProduct(items: seq<Sheets.SheetItem>, gid: string)
    requires forall it :: it in items ==> ProductOf(it) == ""
    ensures GroupTitle(None, items, gid) == Text.Trim("SHEET_" + gid)
  {
    if GuessGroupTitle(items).Some? {
      GuessIsOnlyProduct(items);
      assert false;
    }
  }

  /** An explicit non-empty title always wins, trimmed. */
  lemma ExplicitTitleWins(title: string, items: seq<Sheets.SheetItem>, gid: string)
    requires title != ""
    ensures GroupTitle(Some(title), items, gid) == Text.Trim(title)
  {
  }

  // ---------------------------------------------------------------------------
  // the buttons the importer writes
  // ---------------------------------------------------------------------------

  /** The group button: it opens the group's chapter. */
  function GroupButton(groupId: string, title: string): Button
  {
    CallbackButton("GROUP_" + groupId, "\U{1F5C2} " + Format.ToCapitalize(title), ProductGroup, groupId, NoItemInfo)
  }

  /** The category button of a product: listed in the group, opening the
      product's chapter. */
  function CategoryButton(groupId: string, product: string): Button
  {
    CallbackButton("CAT_" + groupId + "_" + Format.ToCode(product), ProductLabel(product), groupId, Format.ToCode(product), NoItemInfo)
  }

  /** The memory text of an item: the number as decimal text. */
  function MemoryText(memory: Option<nat>): (r: Option<string>)
    ensures memory.None? <==> r.None?
    ensures r.Some? ==> r.value != "" && Text.Trim(r.value) == r.value
  {
    match memory
    case None => None
    case Some(n) =>
      var s := Text.NatToString(n);
      assert !Text.IsSpace(s[0]) && !Text.IsSpace(s[|s| - 1]);
      Text.TrimOfTrimmed(s);
      Some(s)
  }

  /** The price text of an item, nothing when blank. */
  function PriceText(price: string): (r: Option<string>)
    ensures r.None? <==> Text.Trim(price) == ""
    ensures r.Some? ==> r.value == Text.Trim(price)
  {
    var t := Text.Trim(price);
    if t == "" then None else Some(t)
  }

  /** The id of an item button: product code, name code, and the memory code
      when there is a memory. */
  function ItemId(product: string, name: string, mem: Option<string>): string {
    Format.ToCode(product) + "_" + Format.ToCode(name) + (if mem.Some? then "_" + Format.ToCode(mem.value) else "")
  }

  /** The item button for a sheet item, nothing for an item without a product
      or without a name: a callback button captioned with the trimmed name,
      in the product's chapter, whose payload is `ITEM:` and its id. */
  function ItemButton(it: Sheets.SheetItem): (r: Option<Button>)
    ensures r.None? <==> ProductOf(it) == "" || Text.Trim(it.name) == ""
    ensures r.Some? ==>
      var name := Text.Trim(it.name);
      var mem := MemoryText(it.memory);
      && r.value.CallbackButton?
      && r.value.id == ItemId(ProductOf(it), name, mem)
      && r.value.caption == name
      && r.value.chapter == Format.ToCode(ProductOf(it))
      && r.value.payload == "ITEM:" + r.value.id
      && r.value.item == ItemInfo(mem, PriceText(it.price), false)
  {
    var product := ProductOf(it);
    if product == "" then None
    else
      var name := Text.Trim(it.name);
      if name == "" then None
      else
        var mem := MemoryText(it.memory);
        var id := ItemId(product, name, mem);
        Some(CallbackButton(id, name, Format.ToCode(product), "ITEM:" + id, ItemInfo(mem, PriceText(it.price), false)))
  }

  /** A memory size is its own code. */
  lemma MemoryIsCode(n: nat)
    ensures Format.ToCode(Text.NatToString(n)) == Text.NatToString(n)
  {
    var t := Text.NatToString(n);
    forall i | 0 <= i < |t| ensures Format.IsCodeOutChar(t[i]) {
      assert Text.IsDigit(t[i]);
    }
    Format.ToCodeOfCode(t);
  }

  /** The id of an item with a memory size ends in `_` and the size. */
  lemma ItemIdWithMemory(product: string, name: string, n: nat)
    ensures ItemId(product, name, MemoryText(Some(n))) ==
            Format.ToCode(product) + "_" + Format.ToCode(name) + "_" + Text.NatToString(n)
  {
    MemoryIsCode(n);
  }

  /** Two sizes of the same model get distinct ids, and a model with a size
      never shares its id with the model without one. */
  lemma ItemIdsSeparateMemory(product: string, name: string, a: nat, b: nat)
    ensures a != b ==> ItemId(product, name, MemoryText(Some(a))) != ItemId(product, name, MemoryText(Some(b)))
    ensures ItemId(product, name, MemoryText(Some(a))) != ItemId(product, name, None)
  {
    var prefix := Format.ToCode(product) + "_" + Format.ToCode(name);
    var sa, sb := Text.NatToString(a), Text.NatToString(b);
    ItemIdWithMemory(product, name, a);
    ItemIdWithMemory(product, name, b);
    assert ItemId(product, name, None) == prefix;
    var ia, ib := prefix + "_" + sa, prefix + "_" + sb;
    assert |ia| > |prefix|;
    if a != b && ia == ib {
      assert sa == ia[|prefix| + 1..];
      assert sb == ib[|prefix| + 1..];
      Text.NatToStringInjective(a, b);
    }
  }

  // ---------------------------------------------------------------------------
  // the upsert pipeline, as a specification
  // ---------------------------------------------------------------------------

  /** What an import reports. */
  datatype Counts = Counts(added: nat, updated: nat, groupsAdded: nat, chaptersAdded: nat)

  const NoCounts: Counts := Counts(0, 0, 0, 0)

  /** The importer's working state: the button list, the parent links and
      the counters. */
  datatype Progress = Progress(buttons: seq<Button>, parents: map<string, string>, counts: Counts)

  /** The group step. */
  function GroupStep(s: Progress, groupId: string, title: string): Progress {
    var b := GroupButton(groupId, title);
    var isNew := b.id !in Buttons.Ids(s.buttons);
    Progress(
      Buttons.Upsert(s.buttons, b),
      s.parents[groupId := ProductGroup],
      s.counts.(groupsAdded := s.counts.groupsAdded + if isNew then 1 else 0))
  }

  /** One category step. */
  function CategoryStep(s: Progress, groupId: string, product: string): Progress {
    var b := CategoryButton(groupId, product);
    var isNew := b.id !in Buttons.Ids(s.buttons);
    Progress(
      Buttons.Upsert(s.buttons, b),
      s.parents[Format.ToCode(product) := groupId],
      s.counts.(chaptersAdded := s.counts.chaptersAdded + if isNew then 1 else 0))
  }

  /** One item step: a skipped item changes nothing. */
  function ItemStep(s: Progress, it: Sheets.SheetItem): Progress {
    match ItemButton(it)
    case None => s
    case Some(b) =>
      if b.id !in Buttons.Ids(s.buttons) then
        Progress(Buttons.Upsert(s.buttons, b), s.parents, s.counts.(added := s.counts.added + 1))
      else
        Progress(Buttons.Upsert(s.buttons, b), s.parents, s.counts.(updated := s.counts.updated + 1))
  }

  /** The category steps for `ps`, in order. */
  function Categories(s: Progress, groupId: string, ps: seq<string>): Progress {
    if ps == [] then s
    else CategoryStep(Categories(s, groupId, ps[..|ps| - 1]), groupId, ps[|ps| - 1])
  }

  /** The item steps for `its`, in order. */
  function Items(s: Progress, its: seq<Sheets.SheetItem>): Progress {
    if its == [] then s
    else ItemStep(Items(s, its[..|its| - 1]), its[|its| - 1])
  }

  /** The number of items that name both a product and a model. */
  function ValidCount(its: seq<Sheets.SheetItem>): (n: nat)
    ensures n <= |its|
  {
    if its == [] then 0
    else ValidCount(its[..|its| - 1]) + if ItemButton(its[|its| - 1]).Some? then 1 else 0
  }

  /** The group id of an import. */
  function GroupIdOf(explicit: Option<string>, items: seq<Sheets.SheetItem>, gid: string): string {
    Format.ToCode(GroupTitle(explicit, items, gid))
  }

  /** The state after all three phases of a non-empty import. */
  function Pipeline(d: ConfigData, items: seq<Sheets.SheetItem>, explicit: Option<string>, gid: string): Progress {
    Run(Progress(d.buttons, d.parents, NoCounts), GroupIdOf(explicit, items, gid), GroupTitle(explicit, items, gid),
        DistinctProducts(items), items)
  }

  /** The three phases from `s0`, for a group id, a title and the products. */
  function Run(s0: Progress, groupId: string, title: string, ps: seq<string>, items: seq<Sheets.SheetItem>): Progress {
    Items(Categories(GroupStep(s0, groupId, title), groupId, ps), items)
  }

  /** `importSheetAsGroup` on loaded items: the new document and the counts.
      No items: nothing changes and every count is zero. */
  function Import(d: ConfigData, items: seq<Sheets.SheetItem>, explicit: Option<string>, gid: string): (r: (ConfigData, Counts))
    ensures items == [] ==> r == (d, NoCounts)
    ensures r.0 == d.(buttons := r.0.buttons, parents := r.0.parents)
  {
    if items == [] then (d, NoCounts)
    else
      var p := Pipeline(d, items, explicit, gid);
      (d.(buttons := p.buttons, parents := p.parents), p.counts)
  }

  // ---------------------------------------------------------------------------
  // what the pipeline guarantees
  // ---------------------------------------------------------------------------

  /** Upserting never loses an id, and the upserted id is present after. */
  lemma UpsertKeepsIds(bs: seq<Button>, b: Button)
    ensures forall x :: x in Buttons.Ids(bs) ==> x in Buttons.Ids(Buttons.Upsert(bs, b))
    ensures b.id in Buttons.Ids(Buttons.Upsert(bs, b))
  {
    var r := Buttons.Upsert(bs, b);
    Buttons.UpsertThenFind(bs, b);
    forall x | x in Buttons.Ids(bs) ensures x in Buttons.Ids(r) {
      var k :| 0 <= k < |bs| && bs[k].id == x;
      var i := Buttons.IndexOfId(bs, b.id);
      if b.id in Buttons.Ids(bs) && k == i {
        assert r[i].id == x;
      } else {
        assert r[k].id == x;
      }
    }
  }

  /** Every item step counts each valid item once, as added or as updated,
      and touches neither the parent links nor the other counters. */
  lemma {:induction false} ItemsCounted(s: Progress, its: seq<Sheets.SheetItem>)
    ensures var t := Items(s, its);
      && t.counts.added + t.counts.updated == s.counts.added + s.counts.updated + ValidCount(its)
      && t.counts.groupsAdded == s.counts.groupsAdded
      && t.counts.chaptersAdded == s.counts.chaptersAdded
      && t.parents == s.parents
  {
    if its != [] {
      ItemsCounted(s, its[..|its| - 1]);
    }
  }

  /** The category steps add at most one chapter per product and leave the
      other counters alone. */
  lemma {:induction false} CategoriesCounted(s: Progress, groupId: string, ps: seq<string>)
    ensures var t := Categories(s, groupId, ps);
      && t.counts.chaptersAdded <= s.counts.chaptersAdded + |ps|
      && t.counts.added == s.counts.added && t.counts.updated == s.counts.updated
      && t.counts.groupsAdded == s.counts.groupsAdded
  {
    if ps != [] {
      CategoriesCounted(s, groupId, ps[..|ps| - 1]);
    }
  }

  /** The chapters of the products, by code. */
  function Chapters(ps: seq<string>): set<string> {
    set p | p in ps :: Format.ToCode(p)
  }

  /** The parent links the category steps write: each product's chapter
      points at the group, later products overwriting earlier ones. */
  function PointChapters(parents: map<string, string>, groupId: string, ps: seq<string>): map<string, string> {
    if ps == [] then parents
    else PointChapters(parents, groupId, ps[..|ps| - 1])[Format.ToCode(ps[|ps| - 1]) := groupId]
  }

  /** The category steps write exactly those parent links. */
  lemma {:induction false} CategoriesPointChapters(s: Progress, groupId: string, ps: seq<string>)
    ensures Categories(s, groupId, ps).parents == PointChapters(s.parents, groupId, ps)
  {
    if ps != [] {
      CategoriesPointChapters(s, groupId, ps[..|ps| - 1]);
    }
  }

  /** Every product's chapter points at the group and every other
      parent link is left alone. */
  lemma {:induction false} PointChaptersEffect(parents: map<string, string>, groupId: string, ps: seq<string>)
    ensures var t := PointChapters(parents, groupId, ps);
      && (forall p :: p in ps ==> Format.ToCode(p) in t && t[Format.ToCode(p)] == groupId)
      && (forall k :: k !in Chapters(ps) ==> (k in t <==> k in parents) && (k in parents ==> t[k] == parents[k]))
  {
    if ps != [] {
      var init := ps[..|ps| - 1];
      var c := Format.ToCode(ps[|ps| - 1]);
      PointChaptersEffect(parents, groupId, init);
      assert forall p :: p in ps <==> p in init || p == ps[|ps| - 1];
      assert Chapters(ps) == Chapters(init) + {c};
    }
  }

  /** The category steps point every product's chapter at the group and
      leave every other parent link alone. */
  lemma CategoriesParents(s: Progress, groupId: string, ps: seq<string>)
    ensures var t := Categories(s, groupId, ps);
      && (forall p :: p in ps ==> Format.ToCode(p) in t.parents && t.parents[Format.ToCode(p)] == groupId)
      && (forall k :: k !in Chapters(ps) ==>
            (k in t.parents <==> k in s.parents) && (k in s.parents ==> t.parents[k] == s.parents[k]))
  {
    CategoriesPointChapters(s, groupId, ps);
    PointChaptersEffect(s.parents, groupId, ps);
  }

  /** Upserts keep ids unique at every step. */
  lemma {:induction false} CategoriesKeepUnique(s: Progress, groupId: string, ps: seq<string>)
    requires Buttons.UniqueIds(s.buttons)
    ensures Buttons.UniqueIds(Categories(s, groupId, ps).buttons)
  {
    if ps != [] {
      CategoriesKeepUnique(s, groupId, ps[..|ps| - 1]);
      var prev := Categories(s, groupId, ps[..|ps| - 1]);
      Buttons.UpsertKeepsUnique(prev.buttons, CategoryButton(groupId, ps[|ps| - 1]));
    }
  }

  lemma {:induction false} ItemsKeepUnique(s: Progress, its: seq<Sheets.SheetItem>)
    requires Buttons.UniqueIds(s.buttons)
    ensures Buttons.UniqueIds(Items(s, its).buttons)
  {
    if its != [] {
      ItemsKeepUnique(s, its[..|its| - 1]);
      var prev := Items(s, its[..|its| - 1]);
      var b := ItemButton(its[|its| - 1]);
      if b.Some? {
        Buttons.UpsertKeepsUnique(prev.buttons, b.value);
      }
    }
  }

  /** After the item steps every earlier id is still there, and so is the id
      of every valid item. */
  lemma {:induction false} ItemsKeepIds(s: Progress, its: seq<Sheets.SheetItem>)
    ensures forall x :: x in Buttons.Ids(s.buttons) ==> x in Buttons.Ids(Items(s, its).buttons)
    ensures forall it :: it in its && ItemButton(it).Some? ==> ItemButton(it).value.id in Buttons.Ids(Items(s, its).buttons)
  {
    if its != [] {
      var init := its[..|its| - 1];
      var last := its[|its| - 1];
      ItemsKeepIds(s, init);
      var prev := Items(s, init);
      var b := ItemButton(last);
      if b.Some? {
        UpsertKeepsIds(prev.buttons, b.value);
      }
      assert forall it :: it in its <==> it in init || it == last;
    }
  }

  /** An import adds at most one group, at most one chapter per product, and
      counts every valid item exactly once. */
  lemma ImportCounts(d: ConfigData, items: seq<Sheets.SheetItem>, explicit: Option<string>, gid: string)
    ensures var c := Import(d, items, explicit, gid).1;
      && c.groupsAdded <= 1
      && c.chaptersAdded <= |DistinctProducts(items)|
      && c.added + c.updated == ValidCount(items)
  {
    if items != [] {
      var title := GroupTitle(explicit, items, gid);
      var groupId := Format.ToCode(title);
      var s1 := GroupStep(Progress(d.buttons, d.parents, NoCounts), groupId, title);
      var s2 := Categories(s1, groupId, DistinctProducts(items));
      CategoriesCounted(s1, groupId, DistinctProducts(items));
      ItemsCounted(s2, items);
    }
  }

  /** An import keeps button ids unique. */
  lemma ImportKeepsUniqueIds(d: ConfigData, items: seq<Sheets.SheetItem>, explicit: Option<string>, gid: string)
    requires Buttons.UniqueIds(d.buttons)
    ensures Buttons.UniqueIds(Import(d, items, explicit, gid).0.buttons)
  {
    if items != [] {
      var title := GroupTitle(explicit, items, gid);
      var groupId := Format.ToCode(title);
      var s0 := Progress(d.buttons, d.parents, NoCounts);
      Buttons.UpsertKeepsUnique(d.buttons, GroupButton(groupId, title));
      var s1 := GroupStep(s0, groupId, title);
      CategoriesKeepUnique(s1, groupId, DistinctProducts(items));
      ItemsKeepUnique(Categories(s1, groupId, DistinctProducts(items)), items);
    }
  }

  /** After the item steps, the button found under the id of the last item
      that has that id is that item's button. */
  lemma {:induction false} ItemsFindLast(s: Progress, its: seq<Sheets.SheetItem>, k: int)
    requires 0 <= k < |its| && ItemButton(its[k]).Some?
    requires forall j :: k < j < |its| ==> ItemButton(its[j]).None? || ItemButton(its[j]).value.id != ItemButton(its[k]).value.id
    ensures var bs := Items(s, its).buttons;
      var b := ItemButton(its[k]).value;
      Buttons.IndexOfId(bs, b.id) != -1 && bs[Buttons.IndexOfId(bs, b.id)] == b
  {
    var init := its[..|its| - 1];
    var prev := Items(s, init);
    var b := ItemButton(its[k]).value;
    if k == |its| - 1 {
      Buttons.UpsertThenFind(prev.buttons, b);
    } else {
      assert init[k] == its[k];
      assert forall j :: k < j < |init| ==> init[j] == its[j];
      ItemsFindLast(s, init, k);
      var c := ItemButton(its[|its| - 1]);
      if c.Some? {
        Buttons.UpsertKeepsOtherLookups(prev.buttons, c.value, b.id);
      }
    }
  }

  /** Every valid item of a sheet has its id in the document afterwards, and
      the button under that id is the one written for the last item with
      that id. */
  lemma ImportWritesItems(d: ConfigData, items: seq<Sheets.SheetItem>, explicit: Option<string>, gid: string, k: int)
    requires 0 <= k < |items| && ItemButton(items[k]).Some?
    ensures ItemButton(items[k]).value.id in Buttons.Ids(Import(d, items, explicit, gid).0.buttons)
    ensures var bs := Import(d, items, explicit, gid).0.buttons;
      var b := ItemButton(items[k]).value;
      (forall j :: k < j < |items| ==> ItemButton(items[j]).None? || ItemButton(items[j]).value.id != b.id) ==>
        bs[Buttons.IndexOfId(bs, b.id)] == b
  {
    var title := GroupTitle(explicit, items, gid);
    var groupId := Format.ToCode(title);
    var s1 := GroupStep(Progress(d.buttons, d.parents, NoCounts), groupId, title);
    var s2 := Categories(s1, groupId, DistinctProducts(items));
    ItemsKeepIds(s2, items);
    var b := ItemButton(items[k]).value;
    if forall j :: k < j < |items| ==> ItemButton(items[j]).None? || ItemButton(items[j]).value.id != b.id {
      ItemsFindLast(s2, items, k);
    }
  }

  /** The parent links after an import: each product's chapter points at the
      group, the group points at `PRODUCT_GROUP` unless a product has the
      group's code, and every other entry is as before. */
  lemma ImportParents(d: ConfigData, items: seq<Sheets.SheetItem>, explicit: Option<string>, gid: string)
    requires items != []
    ensures var parents := Import(d, items, explicit, gid).0.parents;
      var groupId := GroupIdOf(explicit, items, gid);
      var ps := DistinctProducts(items);
      && (forall p :: p in ps ==> Format.ToCode(p) in parents && parents[Format.ToCode(p)] == groupId)
      && (groupId !in Chapters(ps) ==> groupId in parents && parents[groupId] == ProductGroup)
      && (forall k :: k != groupId && k !in Chapters(ps) ==>
            (k in parents <==> k in d.parents) && (k in d.parents ==> parents[k] == d.parents[k]))
  {
    var s0 := Progress(d.buttons, d.parents, NoCounts);
    var groupId, title, ps := GroupIdOf(explicit, items, gid), GroupTitle(explicit, items, gid), DistinctProducts(items);
    RunChapterParents(s0, groupId, title, ps, items);
    RunOtherParents(s0, groupId, title, ps, items);
  }

  /** The parent links after the three phases are those after the
      category phase: item steps never touch them. */
  lemma RunParentsOfCategories(s0: Progress, groupId: string, title: string, ps: seq<string>, items: seq<Sheets.SheetItem>)
    ensures Run(s0, groupId, title, ps, items).parents ==
            Categories(GroupStep(s0, groupId, title), groupId, ps).parents
    ensures GroupStep(s0, groupId, title).parents == s0.parents[groupId := ProductGroup]
  {
    ItemsCounted(Categories(GroupStep(s0, groupId, title), groupId, ps), items);
  }

  /** After the three phases every product's chapter points at the group. */
  lemma RunChapterParents(s0: Progress, groupId: string, title: string, ps: seq<string>, items: seq<Sheets.SheetItem>)
    ensures var parents := Run(s0, groupId, title, ps, items).parents;
      forall p :: p in ps ==> Format.ToCode(p) in parents && parents[Format.ToCode(p)] == groupId
  {
    RunParentsOfCategories(s0, groupId, title, ps, items);
    CategoriesParents(GroupStep(s0, groupId, title), groupId, ps);
  }

  /** After the three phases the group points at `PRODUCT_GROUP`, unless a
      product's chapter has the group's code, and every other parent link
      is as before. */
  lemma RunOtherParents(s0: Progress, groupId: string, title: string, ps: seq<string>, items: seq<Sheets.SheetItem>)
    ensures var parents := Run(s0, groupId, title, ps, items).parents;
      groupId !in Chapters(ps) ==> groupId in parents && parents[groupId] == ProductGroup
    ensures var parents := Run(s0, groupId, title, ps, items).parents;
      forall k :: k != groupId && k !in Chapters(ps) ==>
        (k in parents <==> k in s0.parents) && (k in s0.parents ==> parents[k] == s0.parents[k])
  {
    RunParentsOfCategories(s0, groupId, title, ps, items);
    CategoriesParents(GroupStep(s0, groupId, title), groupId, ps);
  }

  /** A sheet whose title is guessed from its only product makes the group
      its own parent: the category step overwrites the group's parent link
      with the group itself. */
  lemma GuessedTitleSelfParent(d: ConfigData, items: seq<Sheets.SheetItem>, gid: string)
    requires GuessGroupTitle(items).Some?
    ensures var groupId := GroupIdOf(None, items, gid);
      var parents := Import(d, items, None, gid).0.parents;
      groupId in parents && parents[groupId] == groupId
  {
    var ps := DistinctProducts(items);
    var p := ps[0];
    DistinctProductsMembers(items);
    assert p in ps;
    var it :| it in items && ProductOf(it) == p;
    Text.TrimIdempotent(it.product);
    assert GroupTitle(None, items, gid) == p;
    ImportParents(d, items, None, gid);
  }

  // ---------------------------------------------------------------------------
  // the importer
  // ---------------------------------------------------------------------------

  /** `upsert`: replace in place at the existing index, or append. */
  datatype UpsertOutcome = Added | Updated

  method Upsert(buttons: seq<Button>, btn: Button) returns (bs: seq<Button>, outcome: UpsertOutcome)
    ensures bs == Buttons.Upsert(buttons, btn)
    ensures outcome == Added <==> btn.id !in Buttons.Ids(buttons)
    ensures outcome == Added ==> bs == buttons + [btn]
    ensures outcome == Updated ==> |bs| == |buttons| && bs[Buttons.IndexOfId(buttons, btn.id)] == btn
  {
    var i := Buttons.IndexOfId(buttons, btn.id);
    if i == -1 {
      return buttons + [btn], Added;
    }
    return buttons[i := btn], Updated;
  }

  /** The group phase: upsert the group button, count it when new, and
      point the group at `PRODUCT_GROUP`. */
  method AddGroup(s: Progress, groupId: string, title: string) returns (t: Progress)
    ensures t == GroupStep(s, groupId, title)
  {
    var buttons, outcome := Upsert(s.buttons, GroupButton(groupId, title));
    var groupsAdded := s.counts.groupsAdded;
    if outcome == Added {
      groupsAdded := groupsAdded + 1;
    }
    t := Progress(buttons, s.parents[groupId := ProductGroup], s.counts.(groupsAdded := groupsAdded));
  }

  /** One category step: upsert the product's category button, count it
      when new, and point the product's chapter at the group. */
  method AddCategory(s: Progress, groupId: string, product: string) returns (t: Progress)
    ensures t == CategoryStep(s, groupId, product)
  {
    var b := CategoryButton(groupId, product);
    var buttons, outcome := Upsert(s.buttons, b);
    var chaptersAdded := s.counts.chaptersAdded;
    if outcome == Added {
      chaptersAdded := chaptersAdded + 1;
    }
    var chapter := Format.ToCode(product);
    t := Progress(buttons, s.parents[chapter := groupId], s.counts.(chaptersAdded := chaptersAdded));
  }

  /** The category steps for one more product extend those for the prefix. */
  lemma CategoriesPrefix(s: Progress, groupId: string, ps: seq<string>, k: nat)
    requires k < |ps|
    ensures Categories(s, groupId, ps[..k + 1]) == CategoryStep(Categories(s, groupId, ps[..k]), groupId, ps[k])
  {
    assert ps[..k + 1][..k] == ps[..k];
  }

  /** The category phase: one category step per product, in order. */
  method AddCategories(s: Progress, groupId: string, products: seq<string>) returns (t: Progress)
    ensures t == Categories(s, groupId, products)
  {
    t := s;
    var k := 0;
    while k < |products|
      invariant 0 <= k <= |products|
      invariant t == Categories(s, groupId, products[..k])
    {
      CategoriesPrefix(s, groupId, products, k);
      t := AddCategory(t, groupId, products[k]);
      k := k + 1;
    }
    assert products[..k] == products;
  }

  /** The item phase: one item button per named item, counted as added or
      as updated; other items are skipped. */
  method AddItems(s: Progress, items: seq<Sheets.SheetItem>) returns (t: Progress)
    ensures t == Items(s, items)
  {
    var buttons, added, updated := s.buttons, s.counts.added, s.counts.updated;
    var i := 0;
    while i < |items|
      invariant 0 <= i <= |items|
      invariant Progress(buttons, s.parents, s.counts.(added := added, updated := updated)) == Items(s, items[..i])
    {
      assert items[..i + 1][..i] == items[..i] && items[..i + 1][i] == items[i];
      assert Items(s, items[..i + 1]) == ItemStep(Items(s, items[..i]), items[i]);
      var btn := ItemButton(items[i]);
      if btn.Some? {
        var outcome;
        buttons, outcome := Upsert(buttons, btn.value);
        if outcome == Added {
          added := added + 1;
        } else {
          updated := updated + 1;
        }
      }
      i := i + 1;
    }
    assert items[..i] == items;
    t := Progress(buttons, s.parents, s.counts.(added := added, updated := updated));
  }

  /** `importSheetAsGroup` once the sheet's items are loaded: the three
      phases run over the document's buttons and parent links, which are
      written back at the end (the source mutates the store's own arrays in
      place). */
  method ImportItemsAsGroup(config: Store.ConfigStore, items: seq<Sheets.SheetItem>, gid: string, groupTitle: Option<string>)
    returns (r: Counts)
    modifies config
    ensures (config.data, r) == Import(old(config.data), items, groupTitle, gid)
  {
    if |items| == 0 {
      return NoCounts;
    }
    var title := GroupTitle(groupTitle, items, gid);
    var groupId := Format.ToCode(title);
    var data := config.Get();
    var s := Progress(data.buttons, data.parents, NoCounts);
    s := AddGroup(s, groupId, title);
    s := AddCategories(s, groupId, DistinctProducts(items));
    s := AddItems(s, items);
    config.SetAll(data.(buttons := s.buttons, parents := s.parents));
    r := s.counts;
  }

  /** `importSheetAsGroup`: load the sheet (the three downloads are given),
      then import its items. `items` names what was loaded. */
  method ImportSheetAsGroup(config: Store.ConfigStore, fetched: seq<Sheets.Fetched>, priceText: Option<string> -> string,
                            gid: string, groupTitle: Option<string>)
    returns (r: Counts, items: seq<Sheets.SheetItem>)
    requires |fetched| == |Sheets.Attempts|
    modifies config
    ensures items == Sheets.LoadedItems(fetched, priceText)
    ensures (config.data, r) == Import(old(config.data), items, groupTitle, gid)
  {
    items := Sheets.LoadIphonesFromSheet(fetched, priceText);
    r := ImportItemsAsGroup(config, items, gid, groupTitle);
  }

  /** One sheet of a workbook: its gid and optional title. */
  datatype SheetSpec = SheetSpec(gid: string, title: Option<string>)

  /** The component-wise sum of counts. */
  function Plus(a: Counts, b: Counts): Counts {
    Counts(a.added + b.added, a.updated + b.updated, a.groupsAdded + b.groupsAdded, a.chaptersAdded + b.chaptersAdded)
  }

  function Total(cs: seq<Counts>): Counts {
    if cs == [] then NoCounts else Plus(Total(cs[..|cs| - 1]), cs[|cs| - 1])
  }

  /** The totals over several sheets add at most one group per sheet. */
  lemma {:induction false} TotalGroupsBounded(cs: seq<Counts>)
    requires forall k :: 0 <= k < |cs| ==> cs[k].groupsAdded <= 1
    ensures Total(cs).groupsAdded <= |cs|
  {
    if cs != [] {
      TotalGroupsBounded(cs[..|cs| - 1]);
    }
  }

  /** Sheet `k` of a workbook imported into `d`: its own downloads, title
      and gid. */
  function SheetImport(d: ConfigData, s: SheetSpec, fetched: seq<Sheets.Fetched>, priceText: Option<string> -> string): (ConfigData, Counts)
    requires |fetched| == |Sheets.Attempts|
  {
    Import(d, Sheets.LoadedItems(fetched, priceText), s.title, s.gid)
  }

  /** One sheet of the workbook loop, with the counts it reports. */
  method ImportNextSheet(config: Store.ConfigStore, s: SheetSpec, fetched: seq<Sheets.Fetched>, priceText: Option<string> -> string)
    returns (r: Counts)
    requires |fetched| == |Sheets.Attempts|
    modifies config
    ensures (config.data, r) == SheetImport(old(config.data), s, fetched, priceText)
    ensures r.groupsAdded <= 1 && r.added + r.updated == ValidCount(Sheets.LoadedItems(fetched, priceText))
  {
    var items;
    r, items := ImportSheetAsGroup(config, fetched, priceText, s.gid, s.title);
    ImportCounts(old(config.data), items, s.title, s.gid);
  }

  /** The sheets of a workbook imported in order into `d`: the document
      before each sheet and after the last one (`docs`, starting with `d`),
      and the counts of each sheet. */
  function Workbook(d: ConfigData, sheets: seq<SheetSpec>, fetched: seq<seq<Sheets.Fetched>>,
                    priceText: Option<string> -> string): (r: (seq<ConfigData>, seq<Counts>))
    requires |fetched| == |sheets|
    requires forall k :: 0 <= k < |fetched| ==> |fetched[k]| == |Sheets.Attempts|
    ensures |r.0| == |sheets| + 1 && |r.1| == |sheets| && r.0[0] == d
    decreases |sheets|
  {
    if sheets == [] then ([d], [])
    else
      var n := |sheets| - 1;
      var prev := Workbook(d, sheets[..n], fetched[..n], priceText);
      var next := SheetImport(prev.0[n], sheets[n], fetched[n], priceText);
      (prev.0 + [next.0], prev.1 + [next.1])
  }

  /** One more sheet extends the documents and the counts by its own
      import. */
  lemma WorkbookStep(d: ConfigData, sheets: seq<SheetSpec>, fetched: seq<seq<Sheets.Fetched>>,
                     priceText: Option<string> -> string, k: nat)
    requires |fetched| == |sheets| && k < |sheets|
    requires forall j :: 0 <= j < |fetched| ==> |fetched[j]| == |Sheets.Attempts|
    ensures var prev := Workbook(d, sheets[..k], fetched[..k], priceText);
      var next := SheetImport(prev.0[k], sheets[k], fetched[k], priceText);
      Workbook(d, sheets[..k + 1], fetched[..k + 1], priceText) == (prev.0 + [next.0], prev.1 + [next.1])
  {
    assert sheets[..k + 1][..k] == sheets[..k];
    assert fetched[..k + 1][..k] == fetched[..k];
  }

  /** Sheet `k` is imported into the document the sheets before it left. */
  lemma {:induction false} WorkbookAt(d: ConfigData, sheets: seq<SheetSpec>, fetched: seq<seq<Sheets.Fetched>>,
                                      priceText: Option<string> -> string, k: nat)
    requires |fetched| == |sheets| && k < |sheets|
    requires forall j :: 0 <= j < |fetched| ==> |fetched[j]| == |Sheets.Attempts|
    ensures var r := Workbook(d, sheets, fetched, priceText);
      (r.0[k + 1], r.1[k]) == SheetImport(r.0[k], sheets[k], fetched[k], priceText)
  {
    var n := |sheets| - 1;
    var r := Workbook(d, sheets, fetched, priceText);
    var prev := Workbook(d, sheets[..n], fetched[..n], priceText);
    var next := SheetImport(prev.0[n], sheets[n], fetched[n], priceText);
    assert r == (prev.0 + [next.0], prev.1 + [next.1]);
    if k == n {
      assert r.0[k] == prev.0[n] && r.0[k + 1] == next.0 && r.1[k] == next.1;
    } else {
      WorkbookAt(d, sheets[..n], fetched[..n], priceText, k);
      assert sheets[..n][k] == sheets[k] && fetched[..n][k] == fetched[k];
      assert r.0[k] == prev.0[k] && r.0[k + 1] == prev.0[k + 1] && r.1[k] == prev.1[k];
    }
  }

  /** Every sheet is imported into the document the sheets before it left. */
  lemma WorkbookInOrder(d: ConfigData, sheets: seq<SheetSpec>, fetched: seq<seq<Sheets.Fetched>>,
                        priceText: Option<string> -> string)
    requires |fetched| == |sheets|
    requires forall k :: 0 <= k < |fetched| ==> |fetched[k]| == |Sheets.Attempts|
    ensures var r := Workbook(d, sheets, fetched, priceText);
      forall k :: 0 <= k < |sheets| ==> (r.0[k + 1], r.1[k]) == SheetImport(r.0[k], sheets[k], fetched[k], priceText)
  {
    forall k | 0 <= k < |sheets| ensures
      var r := Workbook(d, sheets, fetched, priceText);
      (r.0[k + 1], r.1[k]) == SheetImport(r.0[k], sheets[k], fetched[k], priceText)
    {
      WorkbookAt(d, sheets, fetched, priceText, k);
    }
  }

  /** Every sheet adds at most one group, and counts each of its valid items
      once as added or as updated. */
  lemma WorkbookCounts(d: ConfigData, sheets: seq<SheetSpec>, fetched: seq<seq<Sheets.Fetched>>,
                       priceText: Option<string> -> string)
    requires |fetched| == |sheets|
    requires forall k :: 0 <= k < |fetched| ==> |fetched[k]| == |Sheets.Attempts|
    ensures var cs := Workbook(d, sheets, fetched, priceText).1;
      forall k :: 0 <= k < |sheets| ==>
        cs[k].groupsAdded <= 1 && cs[k].added + cs[k].updated == ValidCount(Sheets.LoadedItems(fetched[k], priceText))
  {
    var r := Workbook(d, sheets, fetched, priceText);
    forall k | 0 <= k < |sheets| ensures
      r.1[k].groupsAdded <= 1 && r.1[k].added + r.1[k].updated == ValidCount(Sheets.LoadedItems(fetched[k], priceText))
    {
      WorkbookAt(d, sheets, fetched, priceText, k);
      ImportCounts(r.0[k], Sheets.LoadedItems(fetched[k], priceText), sheets[k].title, sheets[k].gid);
    }
  }

  /** A workbook import adds at most one group per sheet. */
  lemma WorkbookGroupsBounded(d: ConfigData, sheets: seq<SheetSpec>, fetched: seq<seq<Sheets.Fetched>>,
                              priceText: Option<string> -> string)
    requires |fetched| == |sheets|
    requires forall k :: 0 <= k < |fetched| ==> |fetched[k]| == |Sheets.Attempts|
    ensures Total(Workbook(d, sheets, fetched, priceText).1).groupsAdded <= |sheets|
  {
    WorkbookCounts(d, sheets, fetched, priceText);
    TotalGroupsBounded(Workbook(d, sheets, fetched, priceText).1);
  }

  /** `importWorkbookGroups`: the sheets are imported in order, each with its
      own downloads and title, and the totals are the sums of the per-sheet
      counts. `docs[k]` is the document before sheet `k`. */
  method ImportWorkbookGroups(config: Store.ConfigStore, sheets: seq<SheetSpec>, fetched: seq<seq<Sheets.Fetched>>,
                              priceText: Option<string> -> string)
    returns (total: Counts, ghost perSheet: seq<Counts>, ghost docs: seq<ConfigData>)
    requires |fetched| == |sheets|
    requires forall k :: 0 <= k < |fetched| ==> |fetched[k]| == |Sheets.Attempts|
    modifies config
    ensures (docs, perSheet) == Workbook(old(config.data), sheets, fetched, priceText)
    ensures config.data == docs[|sheets|]
    ensures total == Total(perSheet)
    ensures total.groupsAdded <= |sheets|
  {
    total := NoCounts;
    perSheet := [];
    docs := [config.data];
    var k := 0;
    while k < |sheets|
      invariant 0 <= k <= |sheets|
      invariant (docs, perSheet) == Workbook(old(config.data), sheets[..k], fetched[..k], priceText)
      invariant config.data == docs[k]
      invariant total == Total(perSheet)
    {
      WorkbookStep(old(config.data), sheets, fetched, priceText, k);
      var r := ImportNextSheet(config, sheets[k], fetched[k], priceText);
      total := Plus(total, r);
      assert (perSheet + [r])[..k] == perSheet;
      perSheet := perSheet + [r];
      docs := docs + [config.data];
      k := k + 1;
    }
    assert sheets[..k] == sheets && fetched[..k] == fetched;
    WorkbookGroupsBounded(old(config.data), sheets, fetched, priceText);
  }
}
