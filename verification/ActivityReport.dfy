/**
 Reports on the wire (internal/auditwire/report.go) and the canonical order of
 their items (internal/activity/delivery.go). Go iterates a map in random order;
 the sort makes the frozen report independent of it.
 */
module ActivityReport {
  import opened ActivityLog

  datatype Item = Item(user: int, inbound: int, path: int, source: string, bits: set<nat>, up: nat, down: nat)

  datatype ClockState = ClockUnknown | Aligned | Unaligned

  datatype Report = Report(
    boot: string, startedAt: int, stream: string, sequence: nat, minute: nat, clock: ClockState,
    complete: bool, dropped: uint64, unknown: uint64, items: seq<Item>)

  /** Go's `<` on strings. */
  predicate TextLess(a: string, b: string) {
    if b == [] then false
    else if a == [] then true
    else a[0] < b[0] || (a[0] == b[0] && TextLess(a[1..], b[1..]))
  }

  /** The comparison given to sort.Slice. */
  predicate Less(a: Item, b: Item) {
    if a.user != b.user then a.user < b.user
    else if a.inbound != b.inbound then a.inbound < b.inbound
    else if a.path != b.path then a.path < b.path
    else TextLess(a.source, b.source)
  }

  predicate SameKey(a: Item, b: Item) {
    a.user == b.user && a.inbound == b.inbound && a.path == b.path && a.source == b.source
  }

  ghost predicate StrictlySorted(items: seq<Item>) {
    forall i, j :: 0 <= i < j < |items| ==> Less(items[i], items[j])
  }

  ghost predicate DistinctKeys(items: seq<Item>) {
    forall i, j :: 0 <= i < j < |items| ==> !SameKey(items[i], items[j])
  }

  /** The texts agree up to `p`, where `a` ends or has the smaller character. */
  predicate FirstDifference(a: string, b: string, p: nat) {
    p <= |a| && p < |b| && a[..p] == b[..p] && (p == |a| || a[p] < b[p])
  }

  lemma {:induction false} LessHasDifference(a: string, b: string) returns (p: nat)
    requires TextLess(a, b)
    ensures FirstDifference(a, b, p)
  {
    if a == [] || a[0] < b[0] {
      p := 0;
    } else {
      var q := LessHasDifference(a[1..], b[1..]);
      p := q + 1;
      assert a[..p] == [a[0]] + a[1..][..q] && b[..p] == [b[0]] + b[1..][..q];
    }
  }

  lemma {:induction false} DifferenceMeansLess(a: string, b: string, p: nat)
    requires FirstDifference(a, b, p)
    ensures TextLess(a, b)
  {
    if p > 0 {
      assert a[..p][0] == b[..p][0];
      assert a[1..][..p - 1] == a[..p][1..] && b[1..][..p - 1] == b[..p][1..];
      DifferenceMeansLess(a[1..], b[1..], p - 1);
    }
  }

  /** Items stand by user, then inbound, then path, then source. */
  lemma SortedByKey(items: seq<Item>, i: nat, j: nat)
    requires StrictlySorted(items) && i < j < |items|
    ensures var a, b := items[i], items[j];
            && a.user <= b.user
            && (a.user == b.user ==> a.inbound <= b.inbound)
            && (a.user == b.user && a.inbound == b.inbound ==> a.path <= b.path)
            && (a.user == b.user && a.inbound == b.inbound && a.path == b.path ==>
                  exists p: nat :: FirstDifference(a.source, b.source, p))
  {
    var a, b := items[i], items[j];
    assert Less(a, b);
    if a.user == b.user && a.inbound == b.inbound && a.path == b.path {
      var p := LessHasDifference(a.source, b.source);
    }
  }

  lemma {:induction false} TextTotal(a: string, b: string)
    ensures a == b || TextLess(a, b) || TextLess(b, a)
    ensures !(TextLess(a, b) && TextLess(b, a))
  {
    if a != [] && b != [] && a[0] == b[0] {
      TextTotal(a[1..], b[1..]);
      assert a == [a[0]] + a[1..] && b == [b[0]] + b[1..];
    }
  }

  lemma {:induction false} TextLessTrans(a: string, b: string, c: string)
    requires TextLess(a, b) && TextLess(b, c)
    ensures TextLess(a, c)
  {
    if a != [] && a[0] == b[0] == c[0] {
      TextLessTrans(a[1..], b[1..], c[1..]);
    }
  }

  lemma LessTrans(a: Item, b: Item, c: Item)
    requires Less(a, b) && Less(b, c)
    ensures Less(a, c)
  {
    if a.user == b.user == c.user && a.inbound == b.inbound == c.inbound && a.path == b.path == c.path {
      TextLessTrans(a.source, b.source, c.source);
    }
  }

  lemma LessTotal(a: Item, b: Item)
    ensures SameKey(a, b) || Less(a, b) || Less(b, a)
    ensures !(Less(a, b) && Less(b, a))
  {
    TextTotal(a.source, b.source);
  }

  function Insert(x: Item, items: seq<Item>): seq<Item> {
    if items == [] then [x]
    else if Less(items[0], x) then [items[0]] + Insert(x, items[1..])
    else [x] + items
  }

  /** What sort.Slice leaves. */
  function SortItems(items: seq<Item>): seq<Item> {
    if items == [] then [] else Insert(items[0], SortItems(items[1..]))
  }

  lemma {:induction false} InsertSorts(x: Item, items: seq<Item>)
    requires StrictlySorted(items) && (forall y :: y in items ==> !SameKey(x, y))
    ensures StrictlySorted(Insert(x, items))
    ensures forall y :: y in Insert(x, items) <==> y == x || y in items
  {
    if items != [] {
      var h, t := items[0], items[1..];
      LessTotal(h, x);
      assert forall y :: y in items <==> y == h || y in t;
      if Less(h, x) {
        InsertSorts(x, t);
        forall y | y in Insert(x, t) ensures Less(h, y) {}
      } else {
        assert Less(x, h) by { assert h in items; }
        forall i | 0 < i < |items| ensures Less(x, items[i]) {
          LessTrans(x, h, items[i]);
        }
      }
    }
  }

  /** Sorting orders distinctly keyed items and keeps exactly the same ones. */
  lemma {:induction false} SortItemsSorts(items: seq<Item>)
    requires DistinctKeys(items)
    ensures StrictlySorted(SortItems(items))
    ensures forall y :: y in SortItems(items) <==> y in items
  {
    if items != [] {
      SortItemsSorts(items[1..]);
      assert forall y :: y in items <==> y == items[0] || y in items[1..];
      InsertSorts(items[0], SortItems(items[1..]));
    }
  }

  lemma {:induction false} SortedFormIsUnique(a: seq<Item>, b: seq<Item>)
    requires StrictlySorted(a) && StrictlySorted(b) && (forall y :: y in a <==> y in b)
    ensures a == b
  {
    HasMember(a);
    HasMember(b);
    if a != [] && b != [] {
      LeastItem(a, b);
      LeastItem(b, a);
      LessTotal(a[0], b[0]);
      assert a[0] == b[0];
      forall y ensures y in a[1..] <==> y in b[1..] {
        TailOmitsHead(a, y);
        TailOmitsHead(b, y);
      }
      SortedFormIsUnique(a[1..], b[1..]);
      assert a == [a[0]] + a[1..] && b == [b[0]] + b[1..];
    }
  }

  lemma HasMember(a: seq<Item>)
    ensures a != [] ==> exists y :: y in a
  {
    if a != [] { assert a[0] in a; }
  }

  lemma LeastItem(a: seq<Item>, b: seq<Item>)
    requires a != [] && b != [] && StrictlySorted(a) && b[0] in a
    ensures a[0] == b[0] || Less(a[0], b[0])
  {
  }

  lemma TailOmitsHead(a: seq<Item>, y: Item)
    requires a != [] && StrictlySorted(a)
    ensures y in a[1..] <==> y in a && y != a[0]
  {
    LessTotal(a[0], a[0]);
  }

  /** The frozen report does not depend on the order in which the map was walked. */
  lemma ItemOrderIsCanonical(walk1: seq<Item>, walk2: seq<Item>)
    requires DistinctKeys(walk1) && DistinctKeys(walk2) && (forall y :: y in walk1 <==> y in walk2)
    ensures SortItems(walk1) == SortItems(walk2)
  {
    SortItemsSorts(walk1);
    SortItemsSorts(walk2);
    SortedFormIsUnique(SortItems(walk1), SortItems(walk2));
  }
}
