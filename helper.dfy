/** The product-card helpers: the label shown for an imported item button
    (`<name> <memory> GB — <price>`) and the column precedence used to read a
    price from a sheet row. */
module Helper {
  import opened Wrappers
  import opened Types
  import Text
  import Format

  /** The price word shown when no price is known ("to be clarified"). */
  const AskForPrice: string := "уточняйте"

  /** The separator between the left part and the price text. */
  const Dash: string := " — "

  /** The memory part: `<memory> GB` when the memory is present, not blank and
      not exactly `"0"`; empty otherwise. */
  function MemoryPart(memory: Option<string>): (r: string)
    ensures r != "" <==> memory.Some? && Text.Trim(memory.value) != "" && memory.value != "0"
    ensures r != "" ==> r == memory.value + " GB"
  {
    if memory.Some? && memory.value != "" && Text.Trim(memory.value) != "" && memory.value != "0"
    then memory.value + " GB" else ""
  }

  /** The price text: the price word without a price, `от ` and the formatted
      price for a "from" price, the formatted price otherwise. */
  function PriceText(price: Option<string>, priceFrom: bool): (r: string)
    ensures price.None? || price.value == "" ==> r == AskForPrice
    ensures price.Some? && price.value != "" && priceFrom ==> r == "от " + Format.FormatPrice(price)
    ensures price.Some? && price.value != "" && !priceFrom ==> r == Format.FormatPrice(price)
  {
    if price.None? || price.value == "" then AskForPrice
    else if priceFrom then "от " + Format.FormatPrice(price)
    else Format.FormatPrice(price)
  }

  /** `[name, mem].filter(Boolean).join(' ')`. */
  function LeftPart(name: string, mem: string): (r: string)
    ensures name == "" ==> r == mem
    ensures mem == "" ==> r == name
    ensures name != "" && mem != "" ==> r == name + " " + mem
  {
    if name == "" then mem else if mem == "" then name else name + " " + mem
  }

  /** `renderItemLabel(btn)`, over the button's label (possibly missing) and its
      item fields. The label always reads `<left> — <price text>`, the left
      part being the name (`ITEM` when missing) and the memory part, with
      empty parts dropped. */
  function RenderItemLabel(name: Option<string>, item: ItemInfo): (r: string)
    ensures var left := LeftPart(name.GetOr("ITEM"), MemoryPart(item.memory));
      && |r| >= |left| + 3
      && r[..|left|] == left
      && r[|left|..|left| + 3] == Dash
      && r[|left| + 3..] == PriceText(item.price, item.priceFrom)
  {
    LeftPart(name.GetOr("ITEM"), MemoryPart(item.memory)) + Dash + PriceText(item.price, item.priceFrom)
  }

  /** The label of a configured button. */
  function RenderButtonLabel(b: Button): string {
    RenderItemLabel(Some(b.caption), b.item)
  }

  /** Every card begins with its name, `ITEM` when the label is missing,
      unless the label is empty. */
  lemma LabelStartsWithName(name: Option<string>, item: ItemInfo)
    requires name.GetOr("ITEM") != ""
    ensures var r := RenderItemLabel(name, item);
      var n := name.GetOr("ITEM");
      |r| >= |n| && r[..|n|] == n
  {
    var n := name.GetOr("ITEM");
    var left := LeftPart(n, MemoryPart(item.memory));
    assert |left| >= |n| && left[..|n|] == n;
  }

  /** Every card ends with ` — ` and its price text. */
  lemma LabelEndsWithPrice(name: Option<string>, item: ItemInfo)
    ensures var r := RenderItemLabel(name, item);
      var tail := Dash + PriceText(item.price, item.priceFrom);
      |r| >= |tail| && r[|r| - |tail|..] == tail
  {
    var left := LeftPart(name.GetOr("ITEM"), MemoryPart(item.memory));
    var tail := Dash + PriceText(item.price, item.priceFrom);
    assert RenderItemLabel(name, item) == left + tail;
  }

  /** A missing label is shown as `ITEM`, and no price gives the price word. */
  lemma MissingLabelAndPrice()
    ensures RenderItemLabel(None, NoItemInfo) == "ITEM — уточняйте"
  {
    assert MemoryPart(None) == "";
    assert LeftPart("ITEM", "") == "ITEM";
  }

  /** An empty label is dropped from the left part. */
  lemma EmptyLabelDropped(memory: string)
    requires memory != "" && Text.Trim(memory) == memory && memory != "0"
    ensures RenderItemLabel(Some(""), ItemInfo(Some(memory), None, false)) == memory + " GB" + Dash + AskForPrice
  {
    assert MemoryPart(Some(memory)) == memory + " GB";
  }

  /** Memory `"0"` never shows. */
  lemma ZeroMemoryHidden(name: string, price: Option<string>, priceFrom: bool)
    requires name != ""
    ensures RenderItemLabel(Some(name), ItemInfo(Some("0"), price, priceFrom)) == name + Dash + PriceText(price, priceFrom)
  {
    assert MemoryPart(Some("0")) == "";
  }

  /** The price word the card shows without a price is the intended
      placeholder of the price formatter. */
  lemma AskForPriceIsPlaceholder()
    ensures AskForPrice == Format.FormatPrice(None)
  {
  }

  /** A sheet row as key/value pairs; `None` is a null cell. */
  type Row = map<string, Option<string>>

  /** The price columns, in the order they are consulted. */
  const PriceKeys: seq<string> := ["price", "стоимость", "цена"]

  /** A usable value: the key is present and its value is not null. */
  predicate Usable(r: Row, k: string) {
    k in r && r[k].Some?
  }

  /** The `??` chain of `priceOf`: the value of the first price column that
      is present and not null. */
  function PriceSource(r: Row): (v: Option<string>)
    ensures Usable(r, "price") ==> v == r["price"]
    ensures !Usable(r, "price") && Usable(r, "стоимость") ==> v == r["стоимость"]
    ensures !Usable(r, "price") && !Usable(r, "стоимость") && Usable(r, "цена") ==> v == r["цена"]
    ensures v.Some? <==> exists k :: k in PriceKeys && Usable(r, k)
  {
    if Usable(r, "price") then r["price"]
    else if Usable(r, "стоимость") then r["стоимость"]
    else if Usable(r, "цена") then r["цена"]
    else None
  }
}
