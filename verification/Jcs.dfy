/** The JSON canonicalization scheme (section 3.2.3 of RFC 8785) as src/issuers/bank-mock.ts
    prints it: two values have the same text exactly when they are equal up to member order. */
module Jcs {
  import opened JsonText

  /** JSON values; members are in insertion order. */
  datatype Json =
    | Null
    | Bool(b: bool)
    | Num(n: int)
    | Str(s: Text)
    | Arr(items: seq<Json>)
    | Obj(members: seq<Member>)

  datatype Member = Member(key: Text, value: Json)

  /** A key with the canonical text of its value. */
  datatype Entry = Entry(key: Text, text: Text)

  predicate DistinctKeys(ms: seq<Member>) {
    forall i, j :: 0 <= i < j < |ms| ==> ms[i].key != ms[j].key
  }

  /** Objects have distinct keys, as JavaScript objects do. */
  predicate WellFormed(v: Json) {
    match v
    case Arr(items) => forall i :: 0 <= i < |items| ==> WellFormed(items[i])
    case Obj(ms) => DistinctKeys(ms) && forall i :: 0 <= i < |ms| ==> WellFormed(ms[i].value)
    case _ => true
  }

  /** Equal up to the order of object members, at every depth. */
  ghost predicate Same(v: Json, w: Json) {
    match (v, w)
    case (Arr(xs), Arr(ys)) => |xs| == |ys| && forall i :: 0 <= i < |xs| ==> Same(xs[i], ys[i])
    case (Obj(ms), Obj(ns)) =>
      && |ms| == |ns|
      && forall i :: 0 <= i < |ms| ==>
           exists j :: 0 <= j < |ns| && ns[j].key == ms[i].key && Same(ms[i].value, ns[j].value)
    case _ => v == w
  }

  // ----- printing -----

  /** The canonical text. Sorting the printed entries by key is printing the values in the
      order of the sorted keys. */
  function Canonical(v: Json): Text
    decreases v, 0
  {
    match v
    case Null => [0x6E, 0x75, 0x6C, 0x6C]
    case Bool(b) => if b then [0x74, 0x72, 0x75, 0x65] else [0x66, 0x61, 0x6C, 0x73, 0x65]
    case Num(n) => Decimal(n)
    case Str(s) => Quote(s)
    case Arr(items) => [0x5B] + JoinItems(items) + [0x5D]
    case Obj(ms) => [0x7B] + JoinEntries(Sort(Entries(ms))) + [0x7D]
  }

  function JoinItems(items: seq<Json>): Text
    decreases items, 1
  {
    if |items| == 0 then []
    else if |items| == 1 then Canonical(items[0])
    else Canonical(items[0]) + ([0x2C] + JoinItems(items[1..]))
  }

  function Entries(ms: seq<Member>): (es: seq<Entry>)
    decreases ms, 1
  {
    if |ms| == 0 then [] else [Entry(ms[0].key, Canonical(ms[0].value))] + Entries(ms[1..])
  }

  function PrintEntry(e: Entry): Text {
    Quote(e.key) + ([0x3A] + e.text)
  }

  function JoinEntries(es: seq<Entry>): Text {
    if |es| == 0 then []
    else if |es| == 1 then PrintEntry(es[0])
    else PrintEntry(es[0]) + ([0x2C] + JoinEntries(es[1..]))
  }

  // ----- sorting -----

  function Insert(e: Entry, es: seq<Entry>): seq<Entry> {
    if |es| == 0 || Less(e.key, es[0].key) then [e] + es else [es[0]] + Insert(e, es[1..])
  }

  function Sort(es: seq<Entry>): seq<Entry> {
    if |es| == 0 then [] else Insert(es[0], Sort(es[1..]))
  }

  /** Keys strictly increase. */
  ghost predicate Sorted(es: seq<Entry>) {
    forall i, j :: 0 <= i < j < |es| ==> Less(es[i].key, es[j].key)
  }

  ghost predicate DistinctEntryKeys(es: seq<Entry>) {
    forall i, j :: 0 <= i < j < |es| ==> es[i].key != es[j].key
  }

  lemma {:induction false} InsertFacts(e: Entry, es: seq<Entry>)
    requires Sorted(es) && forall i :: 0 <= i < |es| ==> es[i].key != e.key
    ensures Sorted(Insert(e, es)) && |Insert(e, es)| == |es| + 1
    ensures forall x :: x in Insert(e, es) <==> x == e || x in es
  {
    if |es| == 0 {
    } else if Less(e.key, es[0].key) {
      forall j | 0 < j < |es| ensures Less(e.key, es[j].key) {
        LessTransitive(e.key, es[0].key, es[j].key);
      }
    } else {
      LessTotal(e.key, es[0].key);
      InsertFacts(e, es[1..]);
      var rest := Insert(e, es[1..]);
      forall j | 0 <= j < |rest| ensures Less(es[0].key, rest[j].key) {
        assert rest[j] in rest;
      }
      assert es == [es[0]] + es[1..];
    }
  }

  lemma {:induction false} SortFacts(es: seq<Entry>)
    requires DistinctEntryKeys(es)
    ensures Sorted(Sort(es)) && |Sort(es)| == |es|
    ensures forall x :: x in Sort(es) <==> x in es
    ensures forall i, j :: 0 <= i < j < |es| ==> Precedes(Sort(es)[i].key, Sort(es)[j].key)
  {
    SortKeeps(es);
    var sorted := Sort(es);
    forall i, j | 0 <= i < j < |es| ensures Precedes(sorted[i].key, sorted[j].key) {
      LessIsPrecedes(sorted[i].key, sorted[j].key);
    }
  }

  lemma {:induction false} SortKeeps(es: seq<Entry>)
    requires DistinctEntryKeys(es)
    ensures Sorted(Sort(es)) && |Sort(es)| == |es|
    ensures forall x :: x in Sort(es) <==> x in es
  {
    if |es| > 0 {
      SortKeeps(es[1..]);
      var rest := Sort(es[1..]);
      forall i | 0 <= i < |rest| ensures rest[i].key != es[0].key {
        assert rest[i] in es[1..];
      }
      InsertFacts(es[0], rest);
      assert es == [es[0]] + es[1..];
    }
  }

  /** There is only one strictly sorted arrangement of given entries: any correct sort of the
      keys yields this one. */
  lemma {:induction false} SortedUnique(a: seq<Entry>, b: seq<Entry>)
    requires Sorted(a) && Sorted(b) && forall x :: x in a <==> x in b
    ensures a == b
  {
    if |a| == 0 {
      HeadIn(b);
    } else {
      assert a[0] in a && a[0] in b;
      assert b[0] in b && b[0] in a;
      HeadIsLeast(a, b[0]);
      HeadIsLeast(b, a[0]);
      if a[0] != b[0] { LessAsymmetric(a[0].key, b[0].key); }
      SortedTail(a);
      SortedTail(b);
      SortedUnique(a[1..], b[1..]);
      assert a == [a[0]] + a[1..] && b == [b[0]] + b[1..];
    }
  }

  lemma HeadIn(b: seq<Entry>)
    ensures |b| > 0 ==> b[0] in b
  {
  }

  lemma HeadIsLeast(a: seq<Entry>, x: Entry)
    requires Sorted(a) && x in a
    ensures x == a[0] || Less(a[0].key, x.key)
  {
  }

  lemma SortedTail(a: seq<Entry>)
    requires Sorted(a) && |a| > 0
    ensures Sorted(a[1..]) && forall x :: x in a[1..] <==> x in a && x != a[0]
  {
    forall x | x in a[1..] ensures x in a && x != a[0] {
      var i :| 0 <= i < |a| - 1 && x == a[1..][i];
      assert x == a[i + 1];
      LessAsymmetric(a[0].key, a[i + 1].key);
    }
    assert a == [a[0]] + a[1..];
  }

  lemma {:induction false} EntriesFacts(ms: seq<Member>)
    ensures |Entries(ms)| == |ms|
    ensures forall i :: 0 <= i < |ms| ==> Entries(ms)[i] == Entry(ms[i].key, Canonical(ms[i].value))
  {
    if |ms| > 0 { EntriesFacts(ms[1..]); }
  }

  /** The sorted entries of an object, one for each member. */
  lemma SortedEntries(ms: seq<Member>)
    requires DistinctKeys(ms)
    ensures Sorted(Sort(Entries(ms))) && |Sort(Entries(ms))| == |ms|
    ensures forall i :: 0 <= i < |ms| ==> Entry(ms[i].key, Canonical(ms[i].value)) in Sort(Entries(ms))
    ensures forall x :: x in Sort(Entries(ms)) ==>
              exists i :: 0 <= i < |ms| && x.key == ms[i].key && x.text == Canonical(ms[i].value)
  {
    EntriesFacts(ms);
    var es := Entries(ms);
    SortFacts(es);
    forall i | 0 <= i < |ms| ensures Entry(ms[i].key, Canonical(ms[i].value)) in Sort(es) {
      assert es[i] in es;
    }
    forall x | x in Sort(es)
      ensures exists i :: 0 <= i < |ms| && x.key == ms[i].key && x.text == Canonical(ms[i].value)
    {
      var i :| 0 <= i < |es| && es[i] == x;
    }
  }

  // ----- equal up to member order implies equal text -----

  lemma {:induction false} SameText(v: Json, w: Json)
    requires WellFormed(v) && WellFormed(w) && Same(v, w)
    ensures Canonical(v) == Canonical(w)
    decreases v, 2
  {
    match (v, w)
    case (Arr(xs), Arr(ys)) =>
      forall i | 0 <= i < |xs| ensures Canonical(xs[i]) == Canonical(ys[i]) {
        SameText(xs[i], ys[i]);
      }
      JoinItemsEqual(xs, ys);
    case (Obj(ms), Obj(ns)) => SameObjectText(v, w);
    case _ =>
  }

  lemma {:induction false} SameObjectText(v: Json, w: Json)
    requires WellFormed(v) && WellFormed(w) && Same(v, w) && v.Obj? && w.Obj?
    ensures Sort(Entries(v.members)) == Sort(Entries(w.members))
    decreases v, 1
  {
    var ms, ns := v.members, w.members;
    SortedEntries(ms);
    SortedEntries(ns);
    var a, b := Sort(Entries(ms)), Sort(Entries(ns));
    forall x | x in a ensures x in b {
      var i :| 0 <= i < |ms| && x.key == ms[i].key && x.text == Canonical(ms[i].value);
      SameEntry(v, w, i);
      assert x == Entry(ms[i].key, Canonical(ms[i].value));
    }
    SortedSubset(a, b);
  }

  lemma {:induction false} SameEntry(v: Json, w: Json, i: nat)
    requires WellFormed(v) && WellFormed(w) && Same(v, w) && v.Obj? && w.Obj? && i < |v.members|
    ensures Entry(v.members[i].key, Canonical(v.members[i].value)) in Sort(Entries(w.members))
    decreases v, 0
  {
    var m, ns := v.members[i], w.members;
    var j :| 0 <= j < |ns| && ns[j].key == m.key && Same(m.value, ns[j].value);
    SameText(m.value, ns[j].value);
    SortedEntries(ns);
    assert Entry(ns[j].key, Canonical(ns[j].value)) in Sort(Entries(ns));
  }

  lemma {:induction false} JoinItemsEqual(xs: seq<Json>, ys: seq<Json>)
    requires |xs| == |ys| && forall i :: 0 <= i < |xs| ==> Canonical(xs[i]) == Canonical(ys[i])
    ensures JoinItems(xs) == JoinItems(ys)
  {
    if |xs| > 1 { JoinItemsEqual(xs[1..], ys[1..]); }
  }

  /** A sorted sequence contained in another of the same length is that one. */
  lemma {:induction false} SortedSubset(a: seq<Entry>, b: seq<Entry>)
    requires Sorted(a) && Sorted(b) && |a| == |b| && forall x :: x in a ==> x in b
    ensures a == b
  {
    var sa, sb := set x | x in a, set x | x in b;
    SortedSize(a);
    SortedSize(b);
    assert sa <= sb;
    assert sb == sa + (sb - sa);
    assert |sb| == |sa| + |sb - sa|;
    forall x | x in b ensures x in a {
      assert x in sb;
      assert x in sa;
    }
    SortedUnique(a, b);
  }

  lemma {:induction false} SortedSize(a: seq<Entry>)
    requires Sorted(a)
    ensures |set x | x in a| == |a|
  {
    var s := set x | x in a;
    if |a| == 0 {
      assert s == {};
    } else {
      SortedTail(a);
      SortedSize(a[1..]);
      assert s == (set x | x in a[1..]) + {a[0]};
    }
  }

  // ----- equal text implies equal up to member order -----

  /** What can follow a value: the end, a comma or a closing bracket. */
  predicate Ends(r: Text) {
    |r| == 0 || r[0] == 0x2C || r[0] == 0x5D || r[0] == 0x7D
  }

  /** The first character tells which kind of value follows. */
  function Kind(c: CodeUnit): int {
    if c == 0x6E then 0 else if c == 0x74 then 1 else if c == 0x66 then 2
    else if c == 0x2D || IsDigit(c) then 3 else if c == 0x22 then 4 else if c == 0x5B then 5
    else if c == 0x7B then 6 else 7
  }

  function KindOf(v: Json): int {
    match v
    case Null => 0
    case Bool(b) => if b then 1 else 2
    case Num(_) => 3
    case Str(_) => 4
    case Arr(_) => 5
    case Obj(_) => 6
  }

  lemma FirstCharacter(v: Json, r: Text)
    ensures |Canonical(v)| > 0 && (Canonical(v) + r)[0] == Canonical(v)[0]
    ensures Kind(Canonical(v)[0]) == KindOf(v)
  {
  }

  /** No ambiguous continuation: a canonical text followed by an end can be split from what
      follows in one way only. */
  lemma {:induction false} Unambiguous(v: Json, r: Text, w: Json, t: Text)
    requires WellFormed(v) && WellFormed(w) && Canonical(v) + r == Canonical(w) + t && Ends(r) && Ends(t)
    ensures Canonical(v) == Canonical(w) && r == t
    decreases v, 3
  {
    FirstCharacter(v, r);
    FirstCharacter(w, t);
    assert KindOf(v) == KindOf(w);
    match v
    case Null => SameLength(Canonical(v), r, Canonical(w), t);
    case Bool(b) => SameLength(Canonical(v), r, Canonical(w), t);
    case Num(n) => DecimalUnambiguous(n, r, w.n, t);
    case Str(s) => QuoteUnambiguous(s, r, w.s, t);
    case Arr(xs) =>
      Unwrap(0x5B, JoinItems(xs), 0x5D, r);
      Unwrap(0x5B, JoinItems(w.items), 0x5D, t);
      ItemsUnambiguous(v, xs, r, w.items, t);
      JoinItemsEqual(xs, w.items);
    case Obj(ms) =>
      Unwrap(0x7B, JoinEntries(Sort(Entries(ms))), 0x7D, r);
      Unwrap(0x7B, JoinEntries(Sort(Entries(w.members))), 0x7D, t);
      SortedEntries(ms);
      SortedEntries(w.members);
      EntriesUnambiguous(v, Sort(Entries(ms)), r, w, Sort(Entries(w.members)), t);
  }

  lemma SameLength(a: Text, r: Text, b: Text, t: Text)
    requires a + r == b + t && |a| == |b|
    ensures a == b && r == t
  {
    assert a == (a + r)[..|a|] && b == (b + t)[..|b|];
    assert r == (a + r)[|a|..] && t == (b + t)[|b|..];
  }

  lemma Unwrap(open: CodeUnit, body: Text, close: CodeUnit, r: Text)
    ensures ([open] + body + [close] + r)[1..] == body + ([close] + r)
  {
  }

  /** The texts of array items, one by one. */
  lemma {:induction false} ItemsUnambiguous(v: Json, xs: seq<Json>, r: Text, ys: seq<Json>, t: Text)
    requires forall i :: 0 <= i < |xs| ==> xs[i] < v && WellFormed(xs[i])
    requires forall i :: 0 <= i < |ys| ==> WellFormed(ys[i])
    requires JoinItems(xs) + ([0x5D] + r) == JoinItems(ys) + ([0x5D] + t)
    ensures r == t
    ensures |xs| == |ys| && forall i :: 0 <= i < |xs| ==> Canonical(xs[i]) == Canonical(ys[i])
    decreases v, 2, |xs|
  {
    if |xs| == 0 || |ys| == 0 {
      ItemsEmpty(xs, r);
      ItemsEmpty(ys, t);
      assert ([0x5D] + r)[1..] == r && ([0x5D] + t)[1..] == t;
    } else {
      var x', y' := ItemsRest(xs, r), ItemsRest(ys, t);
      Unambiguous(xs[0], x', ys[0], y');
      if |xs| > 1 {
        ItemsUnambiguous(v, xs[1..], r, ys[1..], t);
        assert forall i :: 0 < i < |xs| ==> xs[i] == xs[1..][i - 1] && ys[i] == ys[1..][i - 1];
      }
    }
  }

  /** What follows the first item. */
  ghost function ItemsRest(xs: seq<Json>, r: Text): (rest: Text)
    requires |xs| > 0
    ensures JoinItems(xs) + ([0x5D] + r) == Canonical(xs[0]) + rest && |rest| > 0 && Ends(rest)
    ensures rest[0] == if |xs| == 1 then 0x5D else 0x2C
    ensures rest[1..] == if |xs| == 1 then r else JoinItems(xs[1..]) + ([0x5D] + r)
  {
    if |xs| == 1 then [0x5D] + r
    else
      var rest := [0x2C] + (JoinItems(xs[1..]) + ([0x5D] + r));
      assert Canonical(xs[0]) + ([0x2C] + JoinItems(xs[1..])) + ([0x5D] + r) == Canonical(xs[0]) + rest;
      rest
  }

  lemma NotClosing(v: Json, r: Text)
    ensures |Canonical(v) + r| > 0 && (Canonical(v) + r)[0] != 0x5D
  {
    FirstCharacter(v, r);
  }

  lemma ItemsEmpty(xs: seq<Json>, r: Text)
    ensures |xs| == 0 <==> (JoinItems(xs) + ([0x5D] + r))[0] == 0x5D
    ensures |xs| == 0 ==> JoinItems(xs) + ([0x5D] + r) == [0x5D] + r
  {
    var all := JoinItems(xs) + ([0x5D] + r);
    if |xs| == 0 {
      assert all == [0x5D] + r;
    } else {
      var rest := ItemsRest(xs, r);
      NotClosing(xs[0], rest);
      assert all == Canonical(xs[0]) + rest;
    }
  }

  /** The entries come from members of v, and so does what they print. */
  ghost predicate From(es: seq<Entry>, v: Json)
    requires v.Obj?
  {
    forall x :: x in es ==> exists i :: 0 <= i < |v.members| && x.text == Canonical(v.members[i].value)
  }

  ghost function EntriesRest(es: seq<Entry>, r: Text): (rest: Text)
    requires |es| > 0
    ensures JoinEntries(es) + ([0x7D] + r) == Quote(es[0].key) + ([0x3A] + (es[0].text + rest))
    ensures |rest| > 0 && Ends(rest) && rest[0] == if |es| == 1 then 0x7D else 0x2C
    ensures rest[1..] == if |es| == 1 then r else JoinEntries(es[1..]) + ([0x7D] + r)
  {
    var q, x := Quote(es[0].key), es[0].text;
    if |es| == 1 then
      var rest := [0x7D] + r;
      Regroup(q, [0x3A], x, rest);
      rest
    else
      var rest := [0x2C] + (JoinEntries(es[1..]) + ([0x7D] + r));
      Regroup(q, [0x3A], x, rest);
      Regroup(q + ([0x3A] + x), [0x2C], JoinEntries(es[1..]), [0x7D] + r);
      rest
  }

  lemma Regroup(a: Text, b: Text, c: Text, d: Text)
    ensures (a + (b + c)) + d == a + (b + (c + d))
  {
  }

  lemma EntriesEmpty(es: seq<Entry>, r: Text)
    ensures |es| == 0 <==> (JoinEntries(es) + ([0x7D] + r))[0] == 0x7D
    ensures |es| == 0 ==> JoinEntries(es) + ([0x7D] + r) == [0x7D] + r
  {
    if |es| > 0 {
      var first := Quote(es[0].key) + ([0x3A] + (es[0].text + EntriesRest(es, r)));
      assert (JoinEntries(es) + ([0x7D] + r))[0] == first[0] == 0x22;
    }
  }

  /** The sorted entries of objects, one by one. */
  lemma {:induction false} EntriesUnambiguous(v: Json, a: seq<Entry>, r: Text, w: Json, b: seq<Entry>, t: Text)
    requires v.Obj? && w.Obj? && WellFormed(v) && WellFormed(w) && From(a, v) && From(b, w)
    requires JoinEntries(a) + ([0x7D] + r) == JoinEntries(b) + ([0x7D] + t)
    ensures a == b && r == t
    decreases v, 2, |a|
  {
    if |a| == 0 || |b| == 0 {
      NoEntries(a, r, b, t);
    } else {
      EntriesHead(v, a, r, w, b, t);
      if |a| > 1 {
        FromTail(a, v);
        FromTail(b, w);
        EntriesUnambiguous(v, a[1..], r, w, b[1..], t);
      }
      SameCons(a, b);
    }
  }

  lemma SameCons(a: seq<Entry>, b: seq<Entry>)
    requires |a| > 0 && |b| > 0
    ensures a[0] == b[0] && a[1..] == b[1..] ==> a == b
  {
    assert a == [a[0]] + a[1..] && b == [b[0]] + b[1..];
  }

  lemma NoEntries(a: seq<Entry>, r: Text, b: seq<Entry>, t: Text)
    requires (|a| == 0 || |b| == 0) && JoinEntries(a) + ([0x7D] + r) == JoinEntries(b) + ([0x7D] + t)
    ensures a == b && r == t
  {
    EntriesEmpty(a, r);
    EntriesEmpty(b, t);
    assert ([0x7D] + r)[1..] == r && ([0x7D] + t)[1..] == t;
  }

  /** The first entries agree, and so do the texts after them. */
  lemma {:induction false} EntriesHead(v: Json, a: seq<Entry>, r: Text, w: Json, b: seq<Entry>, t: Text)
    requires v.Obj? && w.Obj? && WellFormed(v) && WellFormed(w) && From(a, v) && From(b, w) && |a| > 0 && |b| > 0
    requires JoinEntries(a) + ([0x7D] + r) == JoinEntries(b) + ([0x7D] + t)
    ensures a[0] == b[0] && (|a| == 1 <==> |b| == 1) && (|a| == 1 ==> r == t)
    ensures |a| > 1 ==> JoinEntries(a[1..]) + ([0x7D] + r) == JoinEntries(b[1..]) + ([0x7D] + t)
    decreases v, 1
  {
    var a', b' := EntriesRest(a, r), EntriesRest(b, t);
    HeadUnambiguous(a[0], a', b[0], b');
    HeadIn(a);
    HeadIn(b);
    ValuesUnambiguous(v, a[0], a', w, b[0], b');
  }

  lemma FromTail(a: seq<Entry>, v: Json)
    requires v.Obj? && From(a, v) && |a| > 0
    ensures From(a[1..], v)
  {
    assert forall x :: x in a[1..] ==> x in a;
  }

  lemma HeadUnambiguous(a: Entry, r: Text, b: Entry, t: Text)
    requires Quote(a.key) + ([0x3A] + (a.text + r)) == Quote(b.key) + ([0x3A] + (b.text + t))
    ensures a.key == b.key && a.text + r == b.text + t
  {
    QuoteUnambiguous(a.key, [0x3A] + (a.text + r), b.key, [0x3A] + (b.text + t));
    assert ([0x3A] + (a.text + r))[1..] == a.text + r && ([0x3A] + (b.text + t))[1..] == b.text + t;
  }

  lemma {:induction false} ValuesUnambiguous(v: Json, a: Entry, r: Text, w: Json, b: Entry, t: Text)
    requires v.Obj? && w.Obj? && WellFormed(v) && WellFormed(w)
    requires exists i :: 0 <= i < |v.members| && a.text == Canonical(v.members[i].value)
    requires exists j :: 0 <= j < |w.members| && b.text == Canonical(w.members[j].value)
    requires a.text + r == b.text + t && Ends(r) && Ends(t)
    ensures a.text == b.text && r == t
    decreases v, 0
  {
    var i :| 0 <= i < |v.members| && a.text == Canonical(v.members[i].value);
    var j :| 0 <= j < |w.members| && b.text == Canonical(w.members[j].value);
    Unambiguous(v.members[i].value, r, w.members[j].value, t);
  }

  /** Equal canonical text implies equal up to member order. */
  lemma {:induction false} TextSame(v: Json, w: Json)
    requires WellFormed(v) && WellFormed(w) && Canonical(v) == Canonical(w)
    ensures Same(v, w)
    decreases v, 1
  {
    FirstCharacter(v, []);
    FirstCharacter(w, []);
    match v
    case Num(n) => DecimalUnambiguous(n, [], w.n, []);
    case Str(s) => QuoteUnambiguous(s, [], w.s, []);
    case Arr(xs) => ArraySame(v, w);
    case Obj(ms) => ObjectSame(v, w);
    case _ =>
  }

  lemma {:induction false} ArraySame(v: Json, w: Json)
    requires WellFormed(v) && WellFormed(w) && v.Arr? && w.Arr? && Canonical(v) == Canonical(w)
    ensures Same(v, w)
    decreases v, 0
  {
    var xs, ys := v.items, w.items;
    Unwrap(0x5B, JoinItems(xs), 0x5D, []);
    Unwrap(0x5B, JoinItems(ys), 0x5D, []);
    assert Canonical(v) + [] == Canonical(w) + [];
    ItemsUnambiguous(v, xs, [], ys, []);
    forall i | 0 <= i < |xs| ensures Same(xs[i], ys[i]) {
      TextSame(xs[i], ys[i]);
    }
  }

  lemma ObjectEntriesSame(v: Json, w: Json)
    requires WellFormed(v) && WellFormed(w) && v.Obj? && w.Obj? && Canonical(v) == Canonical(w)
    ensures Sort(Entries(v.members)) == Sort(Entries(w.members))
  {
    var a, b := Sort(Entries(v.members)), Sort(Entries(w.members));
    Unwrap(0x7B, JoinEntries(a), 0x7D, []);
    Unwrap(0x7B, JoinEntries(b), 0x7D, []);
    SortedEntries(v.members);
    SortedEntries(w.members);
    assert Canonical(v) + [] == Canonical(w) + [];
    EntriesUnambiguous(v, a, [], w, b, []);
  }

  /** The member of w with the key of member i of v has a value with the same text. */
  lemma Partner(v: Json, w: Json, i: nat) returns (j: nat)
    requires WellFormed(v) && WellFormed(w) && v.Obj? && w.Obj? && Canonical(v) == Canonical(w) && i < |v.members|
    ensures j < |w.members| && w.members[j].key == v.members[i].key
    ensures Canonical(v.members[i].value) == Canonical(w.members[j].value)
  {
    ObjectEntriesSame(v, w);
    SortedEntries(v.members);
    SortedEntries(w.members);
    var x := Entry(v.members[i].key, Canonical(v.members[i].value));
    assert x in Sort(Entries(w.members));
    j :| 0 <= j < |w.members| && x.key == w.members[j].key && x.text == Canonical(w.members[j].value);
  }

  lemma SameMembers(v: Json, w: Json)
    requires WellFormed(v) && WellFormed(w) && v.Obj? && w.Obj? && Canonical(v) == Canonical(w)
    ensures |v.members| == |w.members|
  {
    ObjectEntriesSame(v, w);
    SortedEntries(v.members);
    SortedEntries(w.members);
  }

  ghost predicate HasPartner(m: Member, ns: seq<Member>) {
    exists j :: 0 <= j < |ns| && ns[j].key == m.key && Same(m.value, ns[j].value)
  }

  lemma {:induction false} ObjectSame(v: Json, w: Json)
    requires WellFormed(v) && WellFormed(w) && v.Obj? && w.Obj? && Canonical(v) == Canonical(w)
    ensures Same(v, w)
    decreases v, 0
  {
    var ms, ns := v.members, w.members;
    SameMembers(v, w);
    forall i | 0 <= i < |ms| ensures HasPartner(ms[i], ns) {
      var j := Partner(v, w, i);
      TextSame(ms[i].value, ns[j].value);
    }
  }

  /** Two values have the same canonical text, and so the same claim hash preimage, exactly
      when they are equal up to the order of object members. */
  lemma CanonicalText(v: Json, w: Json)
    requires WellFormed(v) && WellFormed(w)
    ensures Canonical(v) == Canonical(w) <==> Same(v, w)
  {
    if Canonical(v) == Canonical(w) { TextSame(v, w); }
    if Same(v, w) { SameText(v, w); }
  }

  // ----- the text by the grammar -----

  /** The text consists of the characters of the string. */
  predicate Reads(t: Text, s: string) {
    |t| == |s| && forall i :: 0 <= i < |s| ==> t[i] == s[i] as int
  }

  function Joined(ts: seq<Text>): Text {
    if |ts| == 0 then [] else if |ts| == 1 then ts[0] else ts[0] + ([',' as int] + Joined(ts[1..]))
  }

  ghost function Texts(items: seq<Json>): (ts: seq<Text>)
    ensures |ts| == |items| && forall i :: 0 <= i < |ts| ==> ts[i] == Canonical(items[i])
  {
    seq(|items|, i requires 0 <= i < |items| => Canonical(items[i]))
  }

  /** A quoted key, a colon and the text of the value. */
  ghost function Pairs(ms: seq<Member>): (ts: seq<Text>)
    ensures |ts| == |ms|
    ensures forall i :: 0 <= i < |ts| ==> ts[i] == Quote(ms[i].key) + ([':' as int] + Canonical(ms[i].value))
  {
    seq(|ms|, i requires 0 <= i < |ms| => Quote(ms[i].key) + ([':' as int] + Canonical(ms[i].value)))
  }

  lemma LiteralText()
    ensures Reads(Canonical(Null), "null") && Reads(Canonical(Bool(true)), "true")
    ensures Reads(Canonical(Bool(false)), "false")
  {
  }

  /** A number is its digits, after a minus sign if it is negative; a string is its escaped text
      between quotes. */
  lemma LeafText(n: int, s: Text)
    ensures n >= 0 ==> Canonical(Num(n)) == Spelled(n)
    ensures n < 0 ==> Canonical(Num(n)) == ['-' as int] + Spelled(-n)
    ensures Canonical(Str(s)) == ['"' as int] + Escaped(s) + ['"' as int]
  {
  }

  lemma {:induction false} ItemsJoined(items: seq<Json>)
    ensures JoinItems(items) == Joined(Texts(items))
    decreases |items|
  {
    if |items| > 1 {
      ItemsJoined(items[1..]);
      assert Texts(items)[1..] == Texts(items[1..]);
    }
  }

  /** An array is the texts of its items in their order, between brackets and commas. */
  lemma ArrayText(items: seq<Json>)
    ensures Canonical(Arr(items)) == ['[' as int] + Joined(Texts(items)) + [']' as int]
  {
    ItemsJoined(items);
  }

  /** An object is the pairs of its members, keys in the order of section 3.2.3 of RFC 8785,
      between braces and commas. */
  lemma ObjectText(ms: seq<Member>) returns (order: seq<Member>)
    requires DistinctKeys(ms)
    ensures |order| == |ms| && forall m :: m in order <==> m in ms
    ensures forall i, j :: 0 <= i < j < |order| ==> Precedes(order[i].key, order[j].key)
    ensures Canonical(Obj(ms)) == ['{' as int] + Joined(Pairs(order)) + ['}' as int]
  {
    var sorted := Sort(Entries(ms));
    SortedEntries(ms);
    order := MembersOf(ms, sorted);
    PairsJoined(sorted, order);
    forall m | m in ms ensures m in order {
      MemberListed(ms, sorted, order, m);
    }
    forall i, j | 0 <= i < j < |order| ensures Precedes(order[i].key, order[j].key) {
      LessIsPrecedes(sorted[i].key, sorted[j].key);
    }
  }

  ghost predicate Prints(e: Entry, m: Member) {
    e == Entry(m.key, Canonical(m.value))
  }

  lemma {:induction false} MembersOf(ms: seq<Member>, es: seq<Entry>) returns (order: seq<Member>)
    requires forall x :: x in es ==> exists i :: 0 <= i < |ms| && x.key == ms[i].key && x.text == Canonical(ms[i].value)
    ensures |order| == |es| && forall i :: 0 <= i < |es| ==> order[i] in ms && Prints(es[i], order[i])
    decreases |es|
  {
    if |es| == 0 {
      order := [];
    } else {
      assert es[0] in es;
      var i :| 0 <= i < |ms| && es[0].key == ms[i].key && es[0].text == Canonical(ms[i].value);
      var rest := MembersOf(ms, es[1..]);
      order := [ms[i]] + rest;
      assert forall k :: 0 < k < |es| ==> es[k] == es[1..][k - 1] && order[k] == rest[k - 1];
    }
  }

  lemma MemberListed(ms: seq<Member>, es: seq<Entry>, order: seq<Member>, m: Member)
    requires DistinctKeys(ms) && m in ms && Entry(m.key, Canonical(m.value)) in es
    requires |order| == |es| && forall i :: 0 <= i < |es| ==> order[i] in ms && Prints(es[i], order[i])
    ensures m in order
  {
    var i :| 0 <= i < |es| && es[i] == Entry(m.key, Canonical(m.value));
    var j :| 0 <= j < |ms| && ms[j] == m;
    var k :| 0 <= k < |ms| && ms[k] == order[i];
    assert Prints(es[i], order[i]);
    assert ms[j].key == ms[k].key;
    assert j == k;
  }

  lemma {:induction false} PairsJoined(es: seq<Entry>, order: seq<Member>)
    requires |order| == |es| && forall i :: 0 <= i < |es| ==> Prints(es[i], order[i])
    ensures JoinEntries(es) == Joined(Pairs(order))
    decreases |es|
  {
    if |es| > 0 { assert Prints(es[0], order[0]); }
    if |es| > 1 {
      PairsJoined(es[1..], order[1..]);
      assert Pairs(order)[1..] == Pairs(order[1..]);
    }
  }
}
