/** Grouping catalog rows into providers for the on_search callback
    (src/gateway/outbound-bpp.ts). */
module Catalog {
  import opened Common

  datatype Row = Row(provider: string, descriptor: Option<string>, items: Option<seq<string>>)

  /** A provider under construction, in the insertion-ordered map of the source. */
  datatype Entry = Entry(id: string, descriptor: Option<string>, items: seq<string>)

  /** A provider of the envelope; an empty item list is left out. */
  datatype Provider = Provider(id: string, descriptor: Option<string>, items: Option<seq<string>>)

  function ItemsIn(r: Row): seq<string> {
    if r.items.Some? then r.items.value else []
  }

  // ----- what grouping means -----

  /** The provider ids in the order of their first rows. */
  function Ids(rows: seq<Row>): seq<string> {
    if |rows| == 0 then []
    else
      var ids, id := Ids(rows[..|rows| - 1]), rows[|rows| - 1].provider;
      if id in ids then ids else ids + [id]
  }

  /** The items of all rows of a provider, in row order. */
  function ItemsOf(rows: seq<Row>, id: string): seq<string> {
    if |rows| == 0 then []
    else
      var last := rows[|rows| - 1];
      ItemsOf(rows[..|rows| - 1], id) + if last.provider == id then ItemsIn(last) else []
  }

  /** Items come row by row: those of the rows before, then those of the rows after. */
  lemma {:induction false} ItemsInRowOrder(a: seq<Row>, b: seq<Row>, id: string)
    ensures ItemsOf(a + b, id) == ItemsOf(a, id) + ItemsOf(b, id)
    decreases |b|
  {
    if |b| == 0 {
      assert a + b == a;
    } else {
      var last := b[|b| - 1];
      ItemsInRowOrder(a, b[..|b| - 1], id);
      assert (a + b)[..|a + b| - 1] == a + b[..|b| - 1];
    }
  }

  lemma ItemsOfOne(r: Row, id: string)
    ensures ItemsOf([], id) == []
    ensures ItemsOf([r], id) == if r.provider == id && r.items.Some? then r.items.value else []
  {
    assert [r][..0] == [];
  }

  /** The descriptor of the first row of a provider. */
  function DescriptorOf(rows: seq<Row>, id: string): Option<string> {
    if |rows| == 0 then None
    else if rows[0].provider == id then rows[0].descriptor
    else DescriptorOf(rows[1..], id)
  }

  ghost function EntryFor(rows: seq<Row>, id: string): Entry {
    Entry(id, DescriptorOf(rows, id), ItemsOf(rows, id))
  }

  /** One entry per provider id, in order of first appearance. */
  ghost function Grouped(rows: seq<Row>): (es: seq<Entry>)
    ensures |es| == |Ids(rows)| && forall i :: 0 <= i < |es| ==> es[i] == EntryFor(rows, Ids(rows)[i])
  {
    var ids := Ids(rows);
    seq(|ids|, i requires 0 <= i < |ids| => EntryFor(rows, ids[i]))
  }

  function Publish(e: Entry): Provider {
    Provider(e.id, e.descriptor, if |e.items| > 0 then Some(e.items) else None)
  }

  // ----- the ids -----

  ghost predicate HasRow(rows: seq<Row>, id: string) {
    exists k :: 0 <= k < |rows| && rows[k].provider == id
  }

  lemma {:induction false} IdsFacts(rows: seq<Row>)
    ensures forall i, j :: 0 <= i < j < |Ids(rows)| ==> Ids(rows)[i] != Ids(rows)[j]
    ensures forall id :: id in Ids(rows) <==> HasRow(rows, id)
  {
    if |rows| > 0 {
      var init := rows[..|rows| - 1];
      IdsFacts(init);
      forall id ensures id in Ids(rows) <==> HasRow(rows, id) {
        if HasRow(rows, id) {
          var k :| 0 <= k < |rows| && rows[k].provider == id;
          if k < |rows| - 1 { assert init[k].provider == id; }
        }
        if id in Ids(rows) && id in Ids(init) {
          var k :| 0 <= k < |init| && init[k].provider == id;
          assert rows[k].provider == id;
        }
      }
    }
  }

  /** The first row of a provider. */
  ghost function FirstRow(rows: seq<Row>, id: string): (k: nat)
    requires HasRow(rows, id)
    ensures k < |rows| && rows[k].provider == id && forall j :: 0 <= j < k ==> rows[j].provider != id
  {
    if rows[0].provider == id then 0
    else
      var k :| 0 <= k < |rows| && rows[k].provider == id;
      assert rows[1..][k - 1].provider == id;
      1 + FirstRow(rows[1..], id)
  }

  /** Providers come in the order of their first rows. */
  lemma {:induction false} FirstAppearanceOrder(rows: seq<Row>, i: nat, j: nat)
    requires i < j < |Ids(rows)|
    ensures HasRow(rows, Ids(rows)[i])
    ensures HasRow(rows, Ids(rows)[j])
    ensures FirstRow(rows, Ids(rows)[i]) < FirstRow(rows, Ids(rows)[j])
  {
    IdsFacts(rows);
    var init := rows[..|rows| - 1];
    var a, b := Ids(rows)[i], Ids(rows)[j];
    assert a in Ids(rows) && b in Ids(rows);
    var k :| 0 <= k < |rows| && rows[k].provider == a;
    var l :| 0 <= l < |rows| && rows[l].provider == b;
    IdsFacts(init);
    assert Ids(init)[i] == a;
    assert a in Ids(init);
    if j < |Ids(init)| {
      FirstAppearanceOrder(init, i, j);
      FirstRowStable(rows, a);
      FirstRowStable(rows, b);
    } else {
      FirstRowStable(rows, a);
      assert b !in Ids(init);
      FirstRowNew(rows, b);
    }
  }

  lemma FirstRowNew(rows: seq<Row>, id: string)
    requires |rows| > 0 && rows[|rows| - 1].provider == id && id !in Ids(rows[..|rows| - 1])
    ensures FirstRow(rows, id) == |rows| - 1
  {
    var init := rows[..|rows| - 1];
    IdsFacts(init);
    assert forall j :: 0 <= j < |init| ==> rows[j].provider == init[j].provider;
    assert rows[|rows| - 1].provider == id;
    assert FirstRow(rows, id) >= |init|;
  }

  lemma FirstRowStable(rows: seq<Row>, id: string)
    requires |rows| > 0 && HasRow(rows[..|rows| - 1], id)
    ensures HasRow(rows, id)
    ensures FirstRow(rows, id) == FirstRow(rows[..|rows| - 1], id)
  {
    var init := rows[..|rows| - 1];
    var k := FirstRow(init, id);
    assert rows[k].provider == id;
    var l := FirstRow(rows, id);
    assert l < |init| ==> init[l].provider == id;
    assert forall j :: 0 <= j < k ==> rows[j].provider == init[j].provider;
  }

  // ----- the loop -----

  lemma DescriptorStable(rows: seq<Row>, id: string)
    requires |rows| > 0
    ensures id in Ids(rows[..|rows| - 1]) ==> DescriptorOf(rows, id) == DescriptorOf(rows[..|rows| - 1], id)
    ensures id !in Ids(rows[..|rows| - 1]) && rows[|rows| - 1].provider == id ==>
              DescriptorOf(rows, id) == rows[|rows| - 1].descriptor
  {
    var init := rows[..|rows| - 1];
    IdsFacts(init);
    if id in Ids(init) {
      DescriptorIsFirst(init, id);
      DescriptorIsFirst(rows, id);
      FirstRowStable(rows, id);
    } else if rows[|rows| - 1].provider == id {
      DescriptorIsFirst(rows, id);
      FirstRowNew(rows, id);
    }
  }

  lemma {:induction false} DescriptorIsFirst(rows: seq<Row>, id: string)
    requires HasRow(rows, id)
    ensures DescriptorOf(rows, id) == rows[FirstRow(rows, id)].descriptor
  {
    if rows[0].provider != id {
      var k :| 0 <= k < |rows| && rows[k].provider == id;
      assert rows[1..][k - 1].provider == id;
      DescriptorIsFirst(rows[1..], id);
    }
  }

  /** Handling one more row. */
  function AddRow(es: seq<Entry>, row: Row, at: Option<nat>): seq<Entry>
    requires at.Some? ==> at.value < |es|
  {
    if at.Some? then es[at.value := es[at.value].(items := es[at.value].items + ItemsIn(row))]
    else es + [Entry(row.provider, row.descriptor, ItemsIn(row))]
  }

  ghost predicate Locates(es: seq<Entry>, id: string, at: Option<nat>) {
    match at
    case Some(k) => k < |es| && es[k].id == id
    case None => forall i :: 0 <= i < |es| ==> es[i].id != id
  }

  lemma ItemsOfNew(rows: seq<Row>, id: string)
    requires id !in Ids(rows)
    ensures ItemsOf(rows, id) == []
  {
    if |rows| > 0 {
      ItemsOfNew(rows[..|rows| - 1], id);
      IdsFacts(rows);
      assert rows[|rows| - 1].provider != id;
    }
  }

  /** What one more row does to an entry that is already there. */
  lemma OldEntry(rows: seq<Row>, i: nat)
    requires |rows| > 0 && i < |Ids(rows[..|rows| - 1])|
    ensures var init, last := rows[..|rows| - 1], rows[|rows| - 1];
            var e := EntryFor(init, Ids(init)[i]);
            EntryFor(rows, Ids(init)[i]) == if last.provider == e.id then e.(items := e.items + ItemsIn(last)) else e
  {
    var init, last := rows[..|rows| - 1], rows[|rows| - 1];
    var id := Ids(init)[i];
    DescriptorStable(rows, id);
    assert ItemsOf(init, id) + [] == ItemsOf(init, id);
  }

  lemma NewEntry(rows: seq<Row>)
    requires |rows| > 0 && rows[|rows| - 1].provider !in Ids(rows[..|rows| - 1])
    ensures var last := rows[|rows| - 1];
            EntryFor(rows, last.provider) == Entry(last.provider, last.descriptor, ItemsIn(last))
  {
    var init, last := rows[..|rows| - 1], rows[|rows| - 1];
    DescriptorStable(rows, last.provider);
    ItemsOfNew(init, last.provider);
    assert [] + ItemsIn(last) == ItemsIn(last);
  }

  lemma GroupedStep(rows: seq<Row>, at: Option<nat>)
    requires |rows| > 0 && Locates(Grouped(rows[..|rows| - 1]), rows[|rows| - 1].provider, at)
    ensures Grouped(rows) == AddRow(Grouped(rows[..|rows| - 1]), rows[|rows| - 1], at)
  {
    var init, last := rows[..|rows| - 1], rows[|rows| - 1];
    var es, ids := Grouped(init), Ids(init);
    var before, after := AddRow(es, last, at), Grouped(rows);
    IdsFacts(init);
    LocatesId(init, last.provider, at);
    if at.None? { NewEntry(rows); }
    assert Ids(rows) == if at.Some? then ids else ids + [last.provider];
    forall i | 0 <= i < |after| ensures after[i] == before[i] {
      if i < |ids| { OldEntry(rows, i); }
    }
  }

  lemma LocatesId(rows: seq<Row>, id: string, at: Option<nat>)
    requires Locates(Grouped(rows), id, at)
    ensures at.Some? ==> at.value < |Ids(rows)| && Ids(rows)[at.value] == id
    ensures at.None? ==> id !in Ids(rows)
  {
    var es := Grouped(rows);
    assert forall i :: 0 <= i < |es| ==> es[i].id == Ids(rows)[i];
  }

  method Find(es: seq<Entry>, id: string) returns (at: Option<nat>)
    ensures Locates(es, id, at)
  {
    for i := 0 to |es|
      invariant forall k :: 0 <= k < i ==> es[k].id != id
    {
      if es[i].id == id {
        return Some(i);
      }
    }
    return None;
  }

  /** One row into the entry of its provider, or into a new one. */
  method Merge(entries: seq<Entry>, row: Row, at: Option<nat>) returns (merged: seq<Entry>)
    requires at.Some? ==> at.value < |entries|
    ensures merged == AddRow(entries, row, at)
  {
    if at.Some? {
      var existing := entries[at.value];
      merged := entries;
      if |ItemsIn(row)| > 0 {
        merged := merged[at.value := existing.(items := existing.items + ItemsIn(row))];
      } else {
        assert existing.items + [] == existing.items;
      }
    } else {
      merged := entries + [Entry(row.provider, row.descriptor, ItemsIn(row))];
    }
  }

  /** The grouping loop followed by the shaping of each provider. */
  method BuildProviders(rows: seq<Row>) returns (providers: seq<Provider>)
    ensures |providers| == |Ids(rows)|
    ensures forall i :: 0 <= i < |providers| ==>
              var id := Ids(rows)[i];
              && providers[i].id == id && providers[i].descriptor == DescriptorOf(rows, id)
              && providers[i].items == if ItemsOf(rows, id) == [] then None else Some(ItemsOf(rows, id))
  {
    var entries: seq<Entry> := [];
    for n := 0 to |rows|
      invariant entries == Grouped(rows[..n])
    {
      var at := Find(entries, rows[n].provider);
      assert rows[..n + 1][..n] == rows[..n];
      GroupedStep(rows[..n + 1], at);
      entries := Merge(entries, rows[n], at);
    }
    assert rows[..|rows|] == rows;
    providers := seq(|entries|, i requires 0 <= i < |entries| => Publish(entries[i]));
  }

  // ----- conservation -----

  /** All items of all rows. */
  function AllIn(rows: seq<Row>): multiset<string> {
    if |rows| == 0 then multiset{} else AllIn(rows[..|rows| - 1]) + multiset(ItemsIn(rows[|rows| - 1]))
  }

  /** All items of the listed providers. */
  function AllOver(rows: seq<Row>, ids: seq<string>): multiset<string> {
    if |ids| == 0 then multiset{} else AllOver(rows, ids[..|ids| - 1]) + multiset(ItemsOf(rows, ids[|ids| - 1]))
  }

  /** What one more row adds to the listed providers. */
  function Extra(last: Row, ids: seq<string>): multiset<string> {
    if last.provider in ids then multiset(ItemsIn(last)) else multiset{}
  }

  lemma {:induction false} AllStep(rows: seq<Row>, ids: seq<string>)
    requires |rows| > 0 && forall i, j :: 0 <= i < j < |ids| ==> ids[i] != ids[j]
    ensures AllOver(rows, ids) == AllOver(rows[..|rows| - 1], ids) + Extra(rows[|rows| - 1], ids)
    decreases |ids|
  {
    if |ids| > 0 {
      var init, last := rows[..|rows| - 1], rows[|rows| - 1];
      var rest, id := ids[..|ids| - 1], ids[|ids| - 1];
      AllStep(rows, rest);
      ItemsStep(rows, id);
      ExtraSplit(last, ids);
      Interchange(AllOver(init, rest), Extra(last, rest), multiset(ItemsOf(init, id)), Extra(last, [id]));
    }
  }

  lemma ExtraSplit(last: Row, ids: seq<string>)
    requires |ids| > 0 && forall i, j :: 0 <= i < j < |ids| ==> ids[i] != ids[j]
    ensures Extra(last, ids) == Extra(last, ids[..|ids| - 1]) + Extra(last, [ids[|ids| - 1]])
  {
    assert ids == ids[..|ids| - 1] + [ids[|ids| - 1]];
  }

  lemma Interchange(a: multiset<string>, b: multiset<string>, c: multiset<string>, d: multiset<string>)
    ensures (a + b) + (c + d) == (a + c) + (b + d)
  {
  }

  lemma ItemsStep(rows: seq<Row>, id: string)
    requires |rows| > 0
    ensures multiset(ItemsOf(rows, id))
         == multiset(ItemsOf(rows[..|rows| - 1], id)) + Extra(rows[|rows| - 1], [id])
  {
    var items := ItemsOf(rows[..|rows| - 1], id);
    assert items + [] == items;
  }

  /** No item is lost, added or duplicated: the providers together hold the items of the rows,
      each as often. */
  lemma {:induction false} ItemsConserved(rows: seq<Row>)
    ensures AllOver(rows, Ids(rows)) == AllIn(rows)
  {
    if |rows| > 0 {
      var init, id := rows[..|rows| - 1], rows[|rows| - 1].provider;
      ItemsConserved(init);
      IdsFacts(init);
      IdsFacts(rows);
      AllStep(rows, Ids(rows));
      if id !in Ids(init) {
        ItemsOfNew(init, id);
        assert Ids(rows)[..|Ids(rows)| - 1] == Ids(init);
      }
    }
  }

  /** The dispatched count: zero rows give zero, otherwise one per distinct provider id. */
  method DispatchCount(rows: seq<Row>) returns (n: nat)
    ensures n == |set r | r in rows :: r.provider|
  {
    if |rows| == 0 {
      assert (set r | r in rows :: r.provider) == {};
      return 0;
    }
    var providers := BuildProviders(rows);
    IdsAreTheSet(rows);
    return |providers|;
  }

  lemma IdsAreTheSet(rows: seq<Row>)
    ensures |set r | r in rows :: r.provider| == |Ids(rows)|
  {
    IdsFacts(rows);
    var s := set r | r in rows :: r.provider;
    forall id ensures id in s <==> id in Ids(rows) {
      if id in Ids(rows) {
        var k :| 0 <= k < |rows| && rows[k].provider == id;
        assert rows[k] in rows;
      }
    }
    DistinctSize(Ids(rows));
    assert s == set id | id in Ids(rows);
  }

  lemma {:induction false} DistinctSize(ids: seq<string>)
    requires forall i, j :: 0 <= i < j < |ids| ==> ids[i] != ids[j]
    ensures |set id | id in ids| == |ids|
  {
    if |ids| == 0 {
      assert (set id | id in ids) == {};
    } else {
      var rest := ids[..|ids| - 1];
      DistinctSize(rest);
      assert ids == rest + [ids[|ids| - 1]];
      assert (set id | id in ids) == (set id | id in rest) + {ids[|ids| - 1]};
    }
  }
}
