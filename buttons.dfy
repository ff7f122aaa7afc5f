/** Operations on the ordered button list keyed by `id`: the lookup
    (`findIndex`), the insert-or-replace that both the store and the importer
    perform, and removal by id. */
module Buttons {
  import opened Types
  import Seqs

  /** The ids of the buttons, in order. */
  function Ids(bs: seq<Button>): (r: seq<string>)
    ensures |r| == |bs| && forall k :: 0 <= k < |bs| ==> r[k] == bs[k].id
  {
    seq(|bs|, k requires 0 <= k < |bs| => bs[k].id)
  }

  /** The design invariant: no two buttons share an id. */
  predicate UniqueIds(bs: seq<Button>) {
    forall i, j :: 0 <= i < j < |bs| ==> bs[i].id != bs[j].id
  }

  /** `bs.findIndex(b => b.id === id)`: the first position holding `id`,
      or -1 when there is none. */
  function IndexOfId(bs: seq<Button>, id: string): (i: int)
    ensures -1 <= i < |bs|
    ensures i == -1 <==> id !in Ids(bs)
    ensures i != -1 ==> bs[i].id == id && forall k :: 0 <= k < i ==> bs[k].id != id
  {
    if bs == [] then -1
    else if bs[0].id == id then 0
    else
      var j := IndexOfId(bs[1..], id);
      IdsOfTail(bs, id);
      if j == -1 then -1 else j + 1
  }

  /** An id is in a non-empty list when it is the first button's or in the
      rest. */
  lemma IdsOfTail(bs: seq<Button>, id: string)
    requires bs != []
    ensures id in Ids(bs) <==> bs[0].id == id || id in Ids(bs[1..])
    ensures forall k :: 1 <= k < |bs| ==> bs[k] == bs[1..][k - 1]
  {
    assert Ids(bs) == [bs[0].id] + Ids(bs[1..]);
  }

  /** Insert-or-replace by id: a button whose id is already present replaces
      the first button with that id in place; a new id is appended. */
  function Upsert(bs: seq<Button>, b: Button): (r: seq<Button>)
    ensures b.id in Ids(bs) ==> |r| == |bs|
    ensures b.id !in Ids(bs) ==> r == bs + [b]
    ensures b.id in Ids(bs) ==>
      var i := IndexOfId(bs, b.id);
      r[i] == b && forall k :: 0 <= k < |bs| && k != i ==> r[k] == bs[k]
  {
    var i := IndexOfId(bs, b.id);
    if i != -1 then bs[i := b] else bs + [b]
  }

  /** The upserted button is afterwards the one found under its id, and the
      other buttons keep their places. */
  lemma UpsertThenFind(bs: seq<Button>, b: Button)
    ensures var r := Upsert(bs, b);
      IndexOfId(r, b.id) != -1 && r[IndexOfId(r, b.id)] == b
    ensures var r := Upsert(bs, b);
      forall k :: 0 <= k < |bs| && k != IndexOfId(bs, b.id) ==> r[k] == bs[k]
  {
    var r := Upsert(bs, b);
    var i := IndexOfId(bs, b.id);
    UpsertFinds(bs, b);
    assert forall k :: 0 <= k < |bs| && k != i ==> r[k] == bs[k];
  }

  /** The lookup half of `UpsertThenFind`. */
  lemma UpsertFinds(bs: seq<Button>, b: Button)
    ensures var r := Upsert(bs, b);
      IndexOfId(r, b.id) != -1 && r[IndexOfId(r, b.id)] == b
  {
    var r := Upsert(bs, b);
    var i := IndexOfId(bs, b.id);
    if i == -1 {
      assert r[|bs|] == b;
      assert b.id in Ids(r);
    } else {
      assert r[i] == b;
      assert b.id in Ids(r);
      assert forall k :: 0 <= k < i ==> r[k].id != b.id;
    }
  }

  /** Upserting a button leaves the lookup of every other id alone: the
      same position, holding the same button. */
  lemma UpsertKeepsOtherLookups(bs: seq<Button>, c: Button, id: string)
    requires c.id != id
    ensures IndexOfId(Upsert(bs, c), id) == IndexOfId(bs, id)
    ensures IndexOfId(bs, id) != -1 ==> Upsert(bs, c)[IndexOfId(bs, id)] == bs[IndexOfId(bs, id)]
  {
    var r := Upsert(bs, c);
    var i := IndexOfId(bs, id);
    assert forall k :: 0 <= k < |r| ==> (r[k].id == id <==> k < |bs| && bs[k].id == id);
    if i == -1 {
      assert id !in Ids(r);
    } else {
      assert r[i].id == id && id in Ids(r);
    }
  }

  /** Upserting keeps ids unique. */
  lemma UpsertKeepsUnique(bs: seq<Button>, b: Button)
    requires UniqueIds(bs)
    ensures UniqueIds(Upsert(bs, b))
  {
    var r := Upsert(bs, b);
    var i := IndexOfId(bs, b.id);
    if i == -1 {
      forall p, q | 0 <= p < q < |r| ensures r[p].id != r[q].id {
        if q == |bs| {
          assert bs[p].id in Ids(bs);
        }
      }
    } else {
      forall p, q | 0 <= p < q < |r| ensures r[p].id != r[q].id {
        if p == i {
          assert bs[q].id != bs[i].id;
        } else if q == i {
          assert bs[p].id != bs[i].id;
        }
      }
    }
  }

  /** `bs.filter(b => b.id !== id)`. */
  function RemoveById(bs: seq<Button>, id: string): seq<Button> {
    Seqs.Filter(bs, (b: Button) => b.id != id)
  }

  /** After removal no button has the id, and every other button is kept. */
  lemma RemoveByIdMembers(bs: seq<Button>, id: string, x: Button)
    ensures x in RemoveById(bs, id) <==> x in bs && x.id != id
  {
    Seqs.FilterMember(bs, (b: Button) => b.id != id, x);
  }

  /** Removal works piecewise: the surviving buttons keep their relative order. */
  lemma RemoveByIdConcat(a: seq<Button>, b: seq<Button>, id: string)
    ensures RemoveById(a + b, id) == RemoveById(a, id) + RemoveById(b, id)
  {
    Seqs.FilterConcat(a, b, (x: Button) => x.id != id);
  }

  /** Removing an id that is not there changes nothing. */
  lemma RemoveAbsentId(bs: seq<Button>, id: string)
    requires id !in Ids(bs)
    ensures RemoveById(bs, id) == bs
  {
    Seqs.FilterKeepsAll(bs, (b: Button) => b.id != id);
  }
}
