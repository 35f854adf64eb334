/** The quadtree of src/ngx_http_lookaround_handler.c as a value.  A leaf's list is kept
    as `L`: a sequence of data nodes here, the head of a linked list in GeoIndex. */
module QuadTree {
  import opened GeoMap

  type Ref = nat      // the address of a data node

  /** nla_data_item */
  datatype Item = Item(id: string, loc: Loc, status: int, kind: int)

  /** nla_map_node: `kids` is empty until the node is split. */
  datatype Quad<L> = Quad(rc: Rect, count: nat, list: L, kids: seq<Quad<L>>)

  type Tree = Quad<seq<Ref>>
  type Items = map<Ref, Item>

  /** The data nodes in the order a lookup meets them: children LT, RT, LB, RB, then list
      order. */
  function Scan(t: Tree): seq<Ref>
    decreases t, 5
  {
    if |t.kids| == 4 then ScanFrom(t, 0) else t.list
  }

  /** The same, from child i on. */
  function ScanFrom(t: Tree, i: nat): seq<Ref>
    decreases t, 4 - i
  {
    if i >= 4 || i >= |t.kids| then [] else Scan(t.kids[i]) + ScanFrom(t, i + 1)
  }

  ghost predicate Located(rc: Rect, q: seq<Ref>, items: Items) {
    forall x <- q :: x in items && InRect(rc, items[x].loc)
  }

  /** A well formed subtree with d more levels below: counts are right, only the deepest
      level has lists, every item lies in the rectangle of its leaf, and the children's
      rectangles are the parts of their parent's. */
  ghost predicate Wf(t: Tree, d: nat, items: Items)
    decreases d
  {
    && t.count == |Scan(t)| && Proper(t.rc)
    && (if d == 0 then t.kids == [] && Located(t.rc, t.list, items)
        else t.list == [] && (t.kids == [] || (|t.kids| == 4 && forall i :: 0 <= i < 4 ==> Child(t, i, d, items))))
  }

  ghost predicate Child(t: Tree, i: nat, d: nat, items: Items)
    requires i < |t.kids| && d > 0
    decreases d, 0
  {
    t.kids[i].rc == ChildRect(t.rc, i) && Wf(t.kids[i], d - 1, items)
  }

  /** What is below a node is below one of its children. */
  lemma {:induction false} InKids(t: Tree, i: nat, x: Ref)
    requires |t.kids| == 4 && i <= 4
    ensures x in ScanFrom(t, i) <==> exists k :: i <= k < 4 && x in Scan(t.kids[k])
    decreases 4 - i
  {
    if i < 4 { InKids(t, i + 1, x); }
  }

  /** Every item below a node lies in the node's rectangle. */
  lemma {:induction false} ScanLocated(t: Tree, d: nat, items: Items)
    requires Wf(t, d, items)
    ensures Located(t.rc, Scan(t), items)
    decreases d
  {
    if d > 0 && t.kids != [] {
      forall x | x in Scan(t) ensures x in items && InRect(t.rc, items[x].loc) {
        InKids(t, 0, x);
        var i :| 0 <= i < 4 && x in Scan(t.kids[i]);
        assert Child(t, i, d, items);
        ScanLocated(t.kids[i], d - 1, items);
        Partition(t.rc, items[x].loc);
      }
    }
  }

  // ----- lookup -----

  const ANY := -1     // NLA_INVALID_TYPE and NLA_INVALID_STATUS

  datatype Filter = Filter(rc: Rect, status: int, kind: int)

  predicate Matches(f: Filter, item: Item) {
    (f.kind == ANY || f.kind == item.kind) && (f.status == ANY || f.status == item.status) && InRect(f.rc, item.loc)
  }

  /** The reference: a linear scan. */
  function Select(q: seq<Ref>, f: Filter, items: Items): seq<Ref> {
    if q == [] then []
    else if q[0] in items && Matches(f, items[q[0]]) then [q[0]] + Select(q[1..], f, items)
    else Select(q[1..], f, items)
  }

  function Take(q: seq<Ref>, n: int): seq<Ref> { if n <= 0 then [] else if n >= |q| then q else q[..n] }

  /** The loop over a leaf's list in ngx_http_lookaround_get_around_data. */
  function Walk(q: seq<Ref>, f: Filter, max: int, out: seq<Ref>, items: Items): seq<Ref>
    decreases |q|
  {
    if |out| >= max || q == [] then out
    else if q[0] in items && Matches(f, items[q[0]]) then Walk(q[1..], f, max, out + [q[0]], items)
    else Walk(q[1..], f, max, out, items)
  }

  /** ngx_http_lookaround_get_around_data */
  function Query(t: Tree, d: nat, f: Filter, max: int, out: seq<Ref>, items: Items): seq<Ref>
    decreases d, 5
  {
    if t.count == 0 then out
    else if d == 0 then Walk(t.list, f, max, out, items)
    else if t.kids == [] then out
    else QueryKids(t.kids, d, f, max, out, items, 0)
  }

  function QueryKids(kids: seq<Tree>, d: nat, f: Filter, max: int, out: seq<Ref>, items: Items, i: nat): seq<Ref>
    requires d > 0
    decreases d, 4 - i
  {
    if i >= 4 || i >= |kids| then out
    else
      var part := Intersect(kids[i].rc, f.rc);
      QueryKids(kids, d, f, max, if part.None? then out else Query(kids[i], d - 1, f.(rc := part.value), max, out, items), items, i + 1)
  }

  // ----- the lookup refines the scan -----

  lemma {:induction false} WalkIs(q: seq<Ref>, f: Filter, max: int, out: seq<Ref>, items: Items)
    ensures Walk(q, f, max, out, items) == out + Take(Select(q, f, items), max - |out|)
    decreases |q|
  {
    if |out| < max && q != [] {
      if q[0] in items && Matches(f, items[q[0]]) {
        WalkIs(q[1..], f, max, out + [q[0]], items);
        assert Take([q[0]] + Select(q[1..], f, items), max - |out|) == [q[0]] + Take(Select(q[1..], f, items), max - |out| - 1);
      } else {
        WalkIs(q[1..], f, max, out, items);
      }
    }
  }

  lemma {:induction false} SelectSplit(a: seq<Ref>, b: seq<Ref>, f: Filter, items: Items)
    ensures Select(a + b, f, items) == Select(a, f, items) + Select(b, f, items)
    decreases |a|
  {
    if a == [] {
      assert a + b == b;
    } else {
      SelectSplit(a[1..], b, f, items);
      assert (a + b)[1..] == a[1..] + b;
    }
  }

  /** For items in a rectangle only the common part of it and the asked one matters. */
  lemma {:induction false} SelectNarrow(q: seq<Ref>, rc: Rect, f: Filter, items: Items)
    requires Located(rc, q, items)
    ensures var part := Intersect(rc, f.rc);
      Select(q, f, items) == if part.None? then [] else Select(q, f.(rc := part.value), items)
    decreases |q|
  {
    if q != [] {
      SelectNarrow(q[1..], rc, f, items);
      assert InRect(rc, items[q[0]].loc);
    }
  }

  /** Taking from two parts one after the other, with a shared counter. */
  lemma TakeTwice(out: seq<Ref>, a: seq<Ref>, b: seq<Ref>, mid: seq<Ref>, max: int)
    requires mid == out + Take(a, max - |out|)
    ensures out + Take(a + b, max - |out|) == mid + Take(b, max - |mid|)
  {
    var n := max - |out|;
    if n <= 0 {
    } else if n <= |a| {
      assert Take(a + b, n) == a[..n];
    } else {
      assert Take(a + b, n) == a + Take(b, n - |a|);
    }
  }

  /** The lookup emits exactly the first `max` of the stored items that match, in scan
      order: pruning by rectangle and by count loses nothing and repeats nothing. */
  lemma {:induction false} QueryIsScan(t: Tree, d: nat, f: Filter, max: int, out: seq<Ref>, items: Items)
    requires Wf(t, d, items)
    ensures Query(t, d, f, max, out, items) == out + Take(Select(Scan(t), f, items), max - |out|)
    decreases d, 5
  {
    if t.count == 0 {
      assert Scan(t) == [];
    } else if d == 0 {
      WalkIs(t.list, f, max, out, items);
    } else if t.kids != [] {
      KidsAreScan(t, d, f, max, out, items, 0);
    }
  }

  lemma {:induction false} KidsAreScan(t: Tree, d: nat, f: Filter, max: int, out: seq<Ref>, items: Items, i: nat)
    requires Wf(t, d, items) && d > 0 && |t.kids| == 4 && i <= 4
    ensures QueryKids(t.kids, d, f, max, out, items, i) == out + Take(Select(ScanFrom(t, i), f, items), max - |out|)
    decreases d, 4 - i
  {
    if i < 4 {
      var kid := t.kids[i];
      var part := Intersect(kid.rc, f.rc);
      var mid := if part.None? then out else Query(kid, d - 1, f.(rc := part.value), max, out, items);
      var a, b := Select(Scan(kid), f, items), Select(ScanFrom(t, i + 1), f, items);
      KidIsScan(t, d, f, max, out, items, i, mid);
      KidsAreScan(t, d, f, max, mid, items, i + 1);
      SelectSplit(Scan(kid), ScanFrom(t, i + 1), f, items);
      TakeTwice(out, a, b, mid, max);
    }
  }

  /** One child: only what its rectangle and the asked one have in common is looked at. */
  lemma {:induction false} KidIsScan(t: Tree, d: nat, f: Filter, max: int, out: seq<Ref>, items: Items, i: nat, mid: seq<Ref>)
    requires Wf(t, d, items) && d > 0 && |t.kids| == 4 && i < 4
    requires var part := Intersect(t.kids[i].rc, f.rc);
      mid == if part.None? then out else Query(t.kids[i], d - 1, f.(rc := part.value), max, out, items)
    ensures mid == out + Take(Select(Scan(t.kids[i]), f, items), max - |out|)
    decreases d, 0
  {
    var kid := t.kids[i];
    assert Child(t, i, d, items);
    var part := Intersect(kid.rc, f.rc);
    ScanLocated(kid, d - 1, items);
    SelectNarrow(Scan(kid), kid.rc, f, items);
    if part.Some? { QueryIsScan(kid, d - 1, f.(rc := part.value), max, out, items); }
  }
}
