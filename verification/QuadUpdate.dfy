/** Setting an item in src/ngx_http_lookaround_handler.c: what every update does to the
    index, and when it keeps the index right. */
module QuadUpdate {
  import opened Lists
  import opened GeoMap
  import opened QuadTree

  function NewKids(rc: Rect): seq<Tree> { seq(4, i requires 0 <= i < 4 => Quad(ChildRect(rc, i), 0, [], [])) }

  /** The children, made if there are none: ngx_http_lookaround_create_child_mapnode. */
  function Kids(t: Tree): (r: seq<Tree>)
    ensures |r| == 4
  {
    if |t.kids| == 4 then t.kids else NewKids(t.rc)
  }

  /** ngx_http_lookaround_adddatanode, d levels above the leaves. */
  function Add(t: Tree, d: nat, x: Ref, loc: Loc): Tree
    decreases d
  {
    var t1 := t.(count := t.count + 1);
    if d == 0 then t1.(list := [x] + t.list)
    else
      var kids, i := Kids(t), ChildIndex(t.rc, loc);
      if i < 0 then t1.(kids := kids) else t1.(kids := kids[i := Add(kids[i], d - 1, x, loc)])
  }

  /** ngx_http_lookaround_remove_datanode_from_map with the guard as it must be meant. */
  function Remove(t: Tree, d: nat, x: Ref, loc: Loc): Tree
    decreases d
  {
    if t.count == 0 then t
    else
      var t1 := t.(count := t.count - 1);
      if d == 0 then t1.(list := Without(t.list, x))
      else
        var i := ChildIndex(t.rc, loc);
        if i < 0 || |t.kids| != 4 then t1 else t1.(kids := t.kids[i := Remove(t.kids[i], d - 1, x, loc)])
  }

  /** The rectangle of the leaf that a location belongs to. */
  function LeafRect(rc: Rect, d: nat, loc: Loc): (r: Rect)
    ensures InRect(rc, loc) ==> InRect(r, loc)
    decreases d
  {
    if d == 0 || ChildIndex(rc, loc) < 0 then rc else LeafRect(ChildRect(rc, ChildIndex(rc, loc)), d - 1, loc)
  }

  // ----- what Add and Remove do -----

  /** These items are where they were. */
  ghost predicate Agree(q: seq<Ref>, items: Items, items': Items) {
    forall x <- q :: x in items && x in items' && items'[x].loc == items[x].loc
  }

  /** Nothing but the items below matters to a subtree. */
  lemma {:induction false} SameItems(t: Tree, d: nat, items: Items, items': Items)
    requires Wf(t, d, items) && Agree(Scan(t), items, items')
    ensures Wf(t, d, items')
    decreases d
  {
    if d > 0 && t.kids != [] {
      forall i | 0 <= i < 4 ensures Child(t, i, d, items') {
        assert Child(t, i, d, items);
        ScanLocated(t.kids[i], d - 1, items);
        forall x | x in Scan(t.kids[i]) ensures x in Scan(t) { InKids(t, 0, x); }
        SameItems(t.kids[i], d - 1, items, items');
      }
    }
  }

  /** The scan of a node, child i set apart. */
  lemma {:induction false} ScanSplit(t: Tree, t': Tree, i: nat, j: nat) returns (before: seq<Ref>, after: seq<Ref>)
    requires |t.kids| == 4 == |t'.kids| && j <= i < 4 && forall k :: 0 <= k < 4 && k != i ==> t'.kids[k] == t.kids[k]
    ensures ScanFrom(t, j) == before + Scan(t.kids[i]) + after && ScanFrom(t', j) == before + Scan(t'.kids[i]) + after
    decreases i - j
  {
    if j == i {
      ScanRest(t, t', i + 1);
      before, after := [], ScanFrom(t, i + 1);
    } else {
      before, after := ScanSplit(t, t', i, j + 1);
      Regroup(Scan(t.kids[j]), before, Scan(t.kids[i]), after);
      Regroup(Scan(t.kids[j]), before, Scan(t'.kids[i]), after);
      before := Scan(t.kids[j]) + before;
    }
  }

  lemma Regroup(a: seq<Ref>, b: seq<Ref>, c: seq<Ref>, e: seq<Ref>)
    ensures a + (b + c + e) == (a + b) + c + e
  {
  }

  lemma {:induction false} ScanRest(t: Tree, t': Tree, i: nat)
    requires |t.kids| == 4 == |t'.kids| && i <= 4 && forall k :: i <= k < 4 ==> t'.kids[k] == t.kids[k]
    ensures ScanFrom(t', i) == ScanFrom(t, i)
    decreases 4 - i
  {
    if i < 4 { ScanRest(t, t', i + 1); }
  }

  lemma {:induction false} NoneBelow(t: Tree, i: nat)
    requires |t.kids| == 4 && i <= 4 && forall k :: 0 <= k < 4 ==> Scan(t.kids[k]) == []
    ensures ScanFrom(t, i) == []
    decreases 4 - i
  {
    if i < 4 { NoneBelow(t, i + 1); }
  }

  lemma NewKidsWf(t: Tree, d: nat, items: Items)
    requires Wf(t, d, items) && d > 0
    ensures Wf(t.(kids := Kids(t)), d, items) && Scan(t.(kids := Kids(t))) == Scan(t)
  {
    var t1 := t.(kids := Kids(t));
    if t.kids == [] {
      forall i | 0 <= i < 4 ensures Child(t1, i, d, items) && Scan(t1.kids[i]) == [] { Partition(t.rc, t.rc.lt); }
      NoneBelow(t1, 0);
    }
  }

  lemma AddLeaf(t: Tree, x: Ref, items: Items)
    requires Wf(t, 0, items) && x in items && InRect(t.rc, items[x].loc)
    ensures var t' := Add(t, 0, x, items[x].loc);
      Wf(t', 0, items) && multiset(Scan(t')) == multiset(Scan(t)) + multiset{x}
  {
    assert multiset([x] + t.list) == multiset{x} + multiset(t.list);
  }

  /** A location in the rectangle: the item is added, nothing else changes. */
  lemma {:induction false} AddOk(t: Tree, d: nat, x: Ref, items: Items)
    requires Wf(t, d, items) && x in items && InRect(t.rc, items[x].loc)
    ensures var t' := Add(t, d, x, items[x].loc);
      t'.rc == t.rc && Wf(t', d, items) && multiset(Scan(t')) == multiset(Scan(t)) + multiset{x}
    decreases d
  {
    if d == 0 {
      AddLeaf(t, x, items);
    } else {
      var loc := items[x].loc;
      var t1, i := t.(kids := Kids(t)), ChildIndex(t.rc, loc);
      NewKidsWf(t, d, items);
      assert Child(t1, i, d, items);
      AddOk(t1.kids[i], d - 1, x, items);
      KidGains(t1, d, items, i, Add(t1.kids[i], d - 1, x, loc), x, true, Add(t, d, x, loc));
    }
  }

  /** A child gains or loses one item. */
  lemma KidGains(t: Tree, d: nat, items: Items, i: nat, kid: Tree, x: Ref, gains: bool, t': Tree)
    requires Wf(t, d, items) && d > 0 && |t.kids| == 4 && i < 4 && kid.rc == t.kids[i].rc && Wf(kid, d - 1, items)
    requires gains ==> multiset(Scan(kid)) == multiset(Scan(t.kids[i])) + multiset{x}
    requires !gains ==> x in Scan(t.kids[i]) && multiset(Scan(kid)) == multiset(Scan(t.kids[i])) - multiset{x}
    requires t'.count == t.count + (if gains then 1 else -1) && t' == t.(count := t'.count, kids := t.kids[i := kid])
    ensures Wf(t', d, items)
    ensures multiset(Scan(t')) == if gains then multiset(Scan(t)) + multiset{x} else multiset(Scan(t)) - multiset{x}
  {
    KidPart(t, d, items, i);
    Bags(Scan(t.kids[i]), Scan(kid), x, gains);
    KidChanged(t, d, items, i, kid, t');
    BagMath(multiset(Scan(t)), multiset(Scan(t.kids[i])), multiset(Scan(kid)), x, gains);
  }

  lemma BagMath(m: multiset<Ref>, a: multiset<Ref>, b: multiset<Ref>, x: Ref, gains: bool)
    requires a <= m && if gains then b == a + multiset{x} else x in a && b == a - multiset{x}
    ensures m - a + b == if gains then m + multiset{x} else m - multiset{x}
  {
  }

  lemma KidPart(t: Tree, d: nat, items: Items, i: nat)
    requires Wf(t, d, items) && d > 0 && |t.kids| == 4 && i < 4
    ensures multiset(Scan(t.kids[i])) <= multiset(Scan(t)) && |Scan(t.kids[i])| <= t.count
  {
    var before, after := ScanSplit(t, t, i, 0);
    assert multiset(Scan(t)) == multiset(before) + multiset(Scan(t.kids[i])) + multiset(after);
  }

  lemma Bags(a: seq<Ref>, b: seq<Ref>, x: Ref, gains: bool)
    requires if gains then multiset(b) == multiset(a) + multiset{x} else x in a && multiset(b) == multiset(a) - multiset{x}
    ensures |b| == if gains then |a| + 1 else |a| - 1
    ensures !gains ==> |a| > 0
  {
    assert |multiset(a)| == |a| && |multiset(b)| == |b|;
    assert x in a ==> x in multiset(a);
  }

  /** One child changes, and the node's count with it. */
  lemma KidChanged(t: Tree, d: nat, items: Items, i: nat, kid: Tree, t': Tree)
    requires Wf(t, d, items) && d > 0 && |t.kids| == 4 && i < 4 && kid.rc == t.kids[i].rc && Wf(kid, d - 1, items)
    requires t' == t.(count := t'.count, kids := t.kids[i := kid])
    requires t'.count == t.count - |Scan(t.kids[i])| + |Scan(kid)|
    ensures Wf(t', d, items) && multiset(Scan(t')) == multiset(Scan(t)) - multiset(Scan(t.kids[i])) + multiset(Scan(kid))
  {
    var before, after := ScanSplit(t, t', i, 0);
    forall k | 0 <= k < 4 ensures Child(t', k, d, items) { assert Child(t, k, d, items); }
    assert multiset(Scan(t)) == multiset(before) + multiset(Scan(t.kids[i])) + multiset(after);
    assert multiset(Scan(t')) == multiset(before) + multiset(Scan(kid)) + multiset(after);
  }

  /** An item is below the child that its location chooses. */
  lemma InItsChild(t: Tree, d: nat, x: Ref, items: Items)
    requires Wf(t, d, items) && d > 0 && x in Scan(t) && x in items
    ensures InRect(t.rc, items[x].loc) && |t.kids| == 4 && x in Scan(t.kids[ChildIndex(t.rc, items[x].loc)])
  {
    ScanLocated(t, d, items);
    InKids(t, 0, x);
    var i :| 0 <= i < 4 && x in Scan(t.kids[i]);
    assert Child(t, i, d, items);
    ScanLocated(t.kids[i], d - 1, items);
  }

  lemma RemoveLeaf(t: Tree, x: Ref, items: Items)
    requires Wf(t, 0, items) && x in items && x in Scan(t)
    ensures var t' := Remove(t, 0, x, items[x].loc);
      Wf(t', 0, items) && multiset(Scan(t')) == multiset(Scan(t)) - multiset{x}
  {
    RestLocated(t.rc, t.list, x, items);
  }

  lemma RestLocated(rc: Rect, q: seq<Ref>, x: Ref, items: Items)
    requires Located(rc, q, items) && x in q
    ensures Located(rc, Without(q, x), items) && multiset(Without(q, x)) == multiset(q) - multiset{x} && |Without(q, x)| == |q| - 1
  {
    forall y | y in Without(q, x) ensures y in q { WithoutMember(q, x, y); }
    WithoutBag(q, x);
  }

  lemma {:induction false} WithoutBag(q: seq<Ref>, x: Ref)
    requires x in q
    ensures multiset(Without(q, x)) == multiset(q) - multiset{x} && |Without(q, x)| == |q| - 1
  {
    assert q == [q[0]] + q[1..];
    if q[0] != x { WithoutBag(q[1..], x); }
  }

  /** An item that is there is taken out, nothing else changes. */
  lemma {:induction false} RemoveOk(t: Tree, d: nat, x: Ref, items: Items)
    requires Wf(t, d, items) && x in items && x in Scan(t)
    ensures var t' := Remove(t, d, x, items[x].loc);
      t'.rc == t.rc && Wf(t', d, items) && multiset(Scan(t')) == multiset(Scan(t)) - multiset{x}
    decreases d
  {
    if d == 0 {
      RemoveLeaf(t, x, items);
    } else {
      InItsChild(t, d, x, items);
      var i := ChildIndex(t.rc, items[x].loc);
      assert Child(t, i, d, items);
      RemoveOk(t.kids[i], d - 1, x, items);
      KidPart(t, d, items, i);
      Bags(Scan(t.kids[i]), Scan(Remove(t.kids[i], d - 1, x, items[x].loc)), x, false);
      KidGains(t, d, items, i, Remove(t.kids[i], d - 1, x, items[x].loc), x, false, Remove(t, d, x, items[x].loc));
    }
  }

  // ----- the index -----

  datatype Index = Index(tree: Tree, items: Items, names: map<string, Ref>)

  /** Every named item is in exactly one list, that of the leaf whose rectangle holds its
      location, all counts are right, and names and items correspond. */
  ghost predicate Good(ix: Index, d: nat) {
    Wf(ix.tree, d, ix.items) && Complete(ix.tree, ix.items) && Named(ix.names, ix.items)
  }

  ghost predicate Complete(t: Tree, items: Items) { multiset(Scan(t)) == multiset(items.Keys) }

  ghost predicate Named(names: map<string, Ref>, items: Items) {
    && (forall x <- items :: items[x].id in names && names[items[x].id] == x)
    && (forall n <- names :: names[n] in items && items[names[n]].id == n)
  }

  /** ngx_http_lookaround_setdataloc.  With `literal` the guard of
      ngx_http_lookaround_remove_datanode_from_map is taken as written, so that it returns
      at once for every data node; without, as it must be meant. */
  function SetItem(ix: Index, d: nat, literal: bool, id: string, loc: Loc, status: int, kind: int, fresh_: Ref): Index {
    if id !in ix.names || ix.names[id] !in ix.items then
      Index(Add(ix.tree, d, fresh_, loc), ix.items[fresh_ := Item(id, loc, status, kind)], ix.names[id := fresh_])
    else
      var x := ix.names[id];
      var item := ix.items[x];
      if InRect(LeafRect(ix.tree.rc, d, item.loc), loc) then ix.(items := ix.items[x := item.(loc := loc)])
      else
        var removed := if literal then ix.tree else Remove(ix.tree, d, x, item.loc);
        ix.(tree := Add(removed, d, x, loc), items := ix.items[x := item.(loc := loc)])
  }

  /** When an update keeps the index right: the location is in the root rectangle and, with
      the guard as written, the item is new or stays in its leaf. */
  predicate Allowed(ix: Index, d: nat, literal: bool, id: string, loc: Loc) {
    && InRect(ix.tree.rc, loc)
    && (literal && id in ix.names && ix.names[id] in ix.items ==>
          InRect(LeafRect(ix.tree.rc, d, ix.items[ix.names[id]].loc), loc))
  }

  /** An item moves inside its leaf. */
  lemma {:induction false} MovedInLeaf(t: Tree, d: nat, x: Ref, items: Items, loc: Loc, items': Items)
    requires Wf(t, d, items) && x in items && InRect(LeafRect(t.rc, d, items[x].loc), loc)
    requires items' == items[x := items[x].(loc := loc)]
    ensures Wf(t, d, items')
    decreases d
  {
    if d == 0 {
      assert Located(t.rc, t.list, items');
    } else if x !in Scan(t) {
      ScanLocated(t, d, items);
      SameItems(t, d, items, items');
    } else {
      InItsChild(t, d, x, items);
      var i := ChildIndex(t.rc, items[x].loc);
      forall k | 0 <= k < 4 ensures Child(t, k, d, items') {
        assert Child(t, k, d, items);
        if k == i {
          MovedInLeaf(t.kids[k], d - 1, x, items, loc, items');
        } else {
          NotInOther(t, d, x, items, k);
          ScanLocated(t.kids[k], d - 1, items);
          SameItems(t.kids[k], d - 1, items, items');
        }
      }
      assert t.count == |Scan(t)| && t.list == [] && |t.kids| == 4;
    }
  }

  lemma NotInOther(t: Tree, d: nat, x: Ref, items: Items, k: nat)
    requires Wf(t, d, items) && d > 0 && |t.kids| == 4 && k < 4 && x in items && InRect(t.rc, items[x].loc) && k != ChildIndex(t.rc, items[x].loc)
    ensures x !in Scan(t.kids[k])
  {
    assert Child(t, k, d, items);
    ScanLocated(t.kids[k], d - 1, items);
  }

  lemma {:induction false} LeafInside(rc: Rect, d: nat, at: Loc, loc: Loc)
    requires Proper(rc) && InRect(LeafRect(rc, d, at), loc)
    ensures InRect(rc, loc)
    decreases d
  {
    if d > 0 && ChildIndex(rc, at) >= 0 {
      Partition(rc, loc);
      LeafInside(ChildRect(rc, ChildIndex(rc, at)), d - 1, at, loc);
    }
  }

  /** A location outside: the count goes up and no list does, or the root's own list holds
      an item from outside. */
  lemma AddOutside(t: Tree, d: nat, x: Ref, loc: Loc, items: Items, items': Items)
    requires Wf(t, d, items) && !InRect(t.rc, loc) && x in items' && items'[x].loc == loc
    ensures !Wf(Add(t, d, x, loc), d, items')
  {
    var t' := Add(t, d, x, loc);
    if d == 0 {
      assert t'.list[0] == x;
    } else {
      NewKidsWf(t, d, items);
      ScanRest(t.(kids := Kids(t)), t', 0);
    }
  }

  /** The count of a good index is the number of its items. */
  lemma CountIs(ix: Index, d: nat)
    requires Good(ix, d)
    ensures ix.tree.count == |ix.items|
  {
    assert |multiset(Scan(ix.tree))| == |Scan(ix.tree)|;
    assert |multiset(ix.items.Keys)| == |ix.items.Keys|;
  }

  lemma InScan(ix: Index, d: nat, x: Ref)
    requires Good(ix, d)
    ensures x in Scan(ix.tree) <==> x in ix.items
  {
    assert x in Scan(ix.tree) <==> x in multiset(Scan(ix.tree));
    assert x in ix.items <==> x in multiset(ix.items.Keys);
  }

  /** A new item, with the items as they are afterwards. */
  lemma NewInside(ix: Index, d: nat, x: Ref, items: Items)
    requires Good(ix, d) && x !in ix.items && x in items && items == ix.items[x := items[x]]
    ensures Wf(ix.tree, d, items)
    ensures InRect(ix.tree.rc, items[x].loc) ==>
      var t := Add(ix.tree, d, x, items[x].loc); Wf(t, d, items) && Complete(t, items)
  {
    ScanLocated(ix.tree, d, ix.items);
    SameItems(ix.tree, d, ix.items, items);
    if InRect(ix.tree.rc, items[x].loc) {
      AddOk(ix.tree, d, x, items);
      OneMore(ix.items.Keys, items.Keys, x);
    }
  }

  lemma OneMore(a: set<Ref>, b: set<Ref>, x: Ref)
    requires x !in a && b == a + {x}
    ensures multiset(b) == multiset(a) + multiset{x}
  {
  }

  lemma NewKeeps(ix: Index, d: nat, literal: bool, id: string, loc: Loc, status: int, kind: int, x: Ref)
    requires Good(ix, d) && x !in ix.items && id !in ix.names
    ensures Good(SetItem(ix, d, literal, id, loc, status, kind, x), d) <==> InRect(ix.tree.rc, loc)
  {
    var ix' := SetItem(ix, d, literal, id, loc, status, kind, x);
    NewInside(ix, d, x, ix'.items);
    if !InRect(ix.tree.rc, loc) { AddOutside(ix.tree, d, x, loc, ix'.items, ix'.items); }
    assert Named(ix'.names, ix'.items);
  }

  /** An item taken out and put in again elsewhere. */
  lemma MoveInside(ix: Index, d: nat, x: Ref, items: Items)
    requires Good(ix, d) && x in ix.items && x in items && items == ix.items[x := items[x]]
    ensures var t1 := Remove(ix.tree, d, x, ix.items[x].loc);
      && t1.rc == ix.tree.rc && Wf(t1, d, items)
      && (InRect(t1.rc, items[x].loc) ==> var t := Add(t1, d, x, items[x].loc); Wf(t, d, items) && Complete(t, items))
  {
    var t1 := Remove(ix.tree, d, x, ix.items[x].loc);
    TakenAway(ix, d, x, items);
    if InRect(t1.rc, items[x].loc) {
      AddOk(t1, d, x, items);
      BackAgain(ix.items.Keys, x);
      assert items.Keys == ix.items.Keys;
    }
  }

  lemma TakenAway(ix: Index, d: nat, x: Ref, items: Items)
    requires Good(ix, d) && x in ix.items && x in items && items == ix.items[x := items[x]]
    ensures var t1 := Remove(ix.tree, d, x, ix.items[x].loc);
      t1.rc == ix.tree.rc && Wf(t1, d, items) && multiset(Scan(t1)) == multiset(ix.items.Keys) - multiset{x}
  {
    var t1 := Remove(ix.tree, d, x, ix.items[x].loc);
    InScan(ix, d, x);
    RemoveOk(ix.tree, d, x, ix.items);
    GoneFrom(ix, d, x, t1);
    ScanLocated(t1, d, ix.items);
    SameItems(t1, d, ix.items, items);
  }

  lemma BackAgain(keys: set<Ref>, x: Ref)
    requires x in keys
    ensures multiset(keys) - multiset{x} + multiset{x} == multiset(keys)
  {
  }

  /** With the guard as written the item is counted twice. */
  lemma LiteralBreaks(ix: Index, ix': Index, d: nat)
    requires Good(ix, d) && ix'.tree.count == ix.tree.count + 1 && ix'.items.Keys == ix.items.Keys
    ensures !Good(ix', d)
  {
    CountIs(ix, d);
    if Good(ix', d) { CountIs(ix', d); }
  }

  /** An item that leaves its leaf. */
  lemma MoveKeeps(ix: Index, d: nat, literal: bool, id: string, loc: Loc, status: int, kind: int, y: Ref)
    requires Good(ix, d) && id in ix.names && !InRect(LeafRect(ix.tree.rc, d, ix.items[ix.names[id]].loc), loc)
    ensures Good(SetItem(ix, d, literal, id, loc, status, kind, y), d) <==> !literal && InRect(ix.tree.rc, loc)
  {
    var x := ix.names[id];
    var ix' := SetItem(ix, d, literal, id, loc, status, kind, y);
    if literal {
      LiteralBreaks(ix, ix', d);
    } else {
      var t1 := Remove(ix.tree, d, x, ix.items[x].loc);
      MoveInside(ix, d, x, ix'.items);
      if !InRect(ix.tree.rc, loc) { AddOutside(t1, d, x, loc, ix'.items, ix'.items); }
      assert Named(ix'.names, ix'.items);
    }
  }

  lemma GoneFrom(ix: Index, d: nat, x: Ref, t: Tree)
    requires Good(ix, d) && x in ix.items && multiset(Scan(t)) == multiset(Scan(ix.tree)) - multiset{x}
    ensures x !in Scan(t)
  {
    assert multiset(ix.items.Keys)[x] == 1;
    assert x in Scan(t) <==> x in multiset(Scan(t));
  }

  /** Setting an item keeps the index right exactly when that is allowed: with the guard as
      meant for every location in the root rectangle, with the guard as written only for
      new items and for moves inside a leaf. */
  lemma SetKeeps(ix: Index, d: nat, literal: bool, id: string, loc: Loc, status: int, kind: int, y: Ref)
    requires Good(ix, d) && y !in ix.items
    ensures Good(SetItem(ix, d, literal, id, loc, status, kind, y), d) <==> Allowed(ix, d, literal, id, loc)
  {
    if id !in ix.names {
      NewKeeps(ix, d, literal, id, loc, status, kind, y);
    } else {
      var x := ix.names[id];
      if InRect(LeafRect(ix.tree.rc, d, ix.items[x].loc), loc) {
        MovedInLeaf(ix.tree, d, x, ix.items, loc, ix.items[x := ix.items[x].(loc := loc)]);
        LeafInside(ix.tree.rc, d, ix.items[x].loc, loc);
        assert ix.items[x := ix.items[x].(loc := loc)].Keys == ix.items.Keys;
      } else {
        MoveKeeps(ix, d, literal, id, loc, status, kind, y);
      }
    }
  }

  // ----- whole runs and what lookups then answer -----

  datatype Update = Update(id: string, loc: Loc, status: int, kind: int, fresh_: Ref)

  function Step(ix: Index, d: nat, literal: bool, u: Update): Index {
    SetItem(ix, d, literal, u.id, u.loc, u.status, u.kind, u.fresh_)
  }

  /** A run of allowed updates; memory for a new item is not that of another. */
  ghost predicate Run(ix: Index, d: nat, literal: bool, us: seq<Update>, ix': Index)
    decreases |us|
  {
    if us == [] then ix' == ix
    else
      && us[0].fresh_ !in ix.items && Allowed(ix, d, literal, us[0].id, us[0].loc)
      && Run(Step(ix, d, literal, us[0]), d, literal, us[1..], ix')
  }

  const START := Index(Quad(WORLD, 0, [], []), map[], map[])

  lemma {:induction false} RunKeeps(ix: Index, d: nat, literal: bool, us: seq<Update>, ix': Index)
    requires Good(ix, d) && Run(ix, d, literal, us, ix')
    ensures Good(ix', d)
    decreases |us|
  {
    if us != [] {
      var u := us[0];
      SetKeeps(ix, d, literal, u.id, u.loc, u.status, u.kind, u.fresh_);
      RunKeeps(Step(ix, d, literal, u), d, literal, us[1..], ix');
    }
  }

  /** What may be told to a client: matching items only, none twice, no more than asked
      for, and all of them if there are fewer. */
  ghost predicate Answers(out: seq<Ref>, f: Filter, max: int, items: Items) {
    && NoRepeats(out) && |out| <= Max(max, 0)
    && (forall x <- out :: x in items && Matches(f, items[x]))
    && (|out| < max ==> forall x <- items :: Matches(f, items[x]) ==> x in out)
  }

  lemma {:induction false} SelectFacts(q: seq<Ref>, f: Filter, items: Items, x: Ref)
    ensures multiset(Select(q, f, items)) <= multiset(q)
    ensures x in Select(q, f, items) <==> x in q && x in items && Matches(f, items[x])
  {
    if q != [] {
      SelectFacts(q[1..], f, items, x);
      assert q == [q[0]] + q[1..];
    }
  }

  lemma NoneTwice(q: seq<Ref>, s: set<Ref>)
    requires multiset(q) <= multiset(s)
    ensures NoRepeats(q)
  {
    forall i, j | 0 <= i < j < |q| ensures q[i] != q[j] {
      assert q == q[..i] + [q[i]] + q[i + 1..j] + [q[j]] + q[j + 1..];
      assert multiset(q)[q[i]] <= 1;
    }
  }

  /** In every run of updates every lookup answers rightly. */
  lemma EveryLookup(d: nat, literal: bool, us: seq<Update>, ix: Index, f: Filter, max: int)
    requires Run(START, d, literal, us, ix)
    ensures Answers(Query(ix.tree, d, f, max, [], ix.items), f, max, ix.items)
  {
    assert Good(START, d);
    RunKeeps(START, d, literal, us, ix);
    LookupAnswers(ix, d, f, max);
  }

  // ----- what a lookup tells of the updates -----

  /** The id was updated, first by update i and last by update j. */
  ghost predicate FirstAndLast(us: seq<Update>, id: string, i: nat, j: nat) {
    && i <= j < |us| && us[i].id == us[j].id == id
    && (forall k :: 0 <= k < i ==> us[k].id != id) && (forall k :: j < k < |us| ==> us[k].id != id)
  }

  /** What the updates say of an item: its last location, and the status and the type that
      it was first given. */
  ghost predicate Told(us: seq<Update>, item: Item) {
    exists i: nat, j: nat :: FirstAndLast(us, item.id, i, j) && item == Item(us[i].id, us[j].loc, us[i].status, us[i].kind)
  }

  lemma OneTold(us: seq<Update>, a: Item, b: Item)
    requires Told(us, a) && Told(us, b) && a.id == b.id
    ensures a == b
  {
    var i: nat, j: nat :| FirstAndLast(us, a.id, i, j) && a == Item(us[i].id, us[j].loc, us[i].status, us[i].kind);
    var k: nat, l: nat :| FirstAndLast(us, a.id, k, l) && b == Item(us[k].id, us[l].loc, us[k].status, us[k].kind);
    assert i == k && j == l;
  }

  /** The index holds what the updates say and nothing else. */
  ghost predicate Holds(ix: Index, us: seq<Update>) {
    && (forall x <- ix.items :: Told(us, ix.items[x]))
    && forall k :: 0 <= k < |us| ==> us[k].id in ix.names
  }

  lemma ToldStill(us: seq<Update>, u: Update, item: Item)
    requires Told(us, item) && item.id != u.id
    ensures Told(us + [u], item)
  {
    var i: nat, j: nat :| FirstAndLast(us, item.id, i, j) && item == Item(us[i].id, us[j].loc, us[i].status, us[i].kind);
    assert FirstAndLast(us + [u], item.id, i, j);
  }

  lemma ToldMoved(us: seq<Update>, u: Update, item: Item)
    requires Told(us, item) && item.id == u.id
    ensures Told(us + [u], item.(loc := u.loc))
  {
    var i: nat, j: nat :| FirstAndLast(us, item.id, i, j) && item == Item(us[i].id, us[j].loc, us[i].status, us[i].kind);
    assert FirstAndLast(us + [u], item.id, i, |us|);
  }

  lemma ToldNew(us: seq<Update>, u: Update)
    requires forall k :: 0 <= k < |us| ==> us[k].id != u.id
    ensures Told(us + [u], Item(u.id, u.loc, u.status, u.kind))
  {
    assert FirstAndLast(us + [u], u.id, |us|, |us|);
  }

  /** What an update does to the items and the names. */
  lemma StepItems(ix: Index, d: nat, literal: bool, u: Update)
    requires Named(ix.names, ix.items)
    ensures var ix' := Step(ix, d, literal, u);
      if u.id in ix.names then
        var x := ix.names[u.id];
        x in ix.items && ix'.names == ix.names && ix'.items == ix.items[x := ix.items[x].(loc := u.loc)]
      else
        ix'.names == ix.names[u.id := u.fresh_] && ix'.items == ix.items[u.fresh_ := Item(u.id, u.loc, u.status, u.kind)]
  {
  }

  lemma StepHolds(ix: Index, us: seq<Update>, u: Update, ix': Index)
    requires Named(ix.names, ix.items) && Holds(ix, us) && u.fresh_ !in ix.items
    requires if u.id in ix.names then
        var x := ix.names[u.id];
        x in ix.items && ix'.names == ix.names && ix'.items == ix.items[x := ix.items[x].(loc := u.loc)]
      else
        ix'.names == ix.names[u.id := u.fresh_] && ix'.items == ix.items[u.fresh_ := Item(u.id, u.loc, u.status, u.kind)]
    ensures Holds(ix', us + [u])
  {
    forall x | x in ix'.items ensures Told(us + [u], ix'.items[x]) {
      if x in ix.items && ix.items[x].id != u.id {
        ToldStill(us, u, ix.items[x]);
      } else if u.id in ix.names {
        ToldMoved(us, u, ix.items[x]);
      } else {
        ToldNew(us, u);
      }
    }
  }

  lemma StepGood(ix: Index, d: nat, literal: bool, us: seq<Update>, u: Update)
    requires Good(ix, d) && Holds(ix, us) && u.fresh_ !in ix.items && Allowed(ix, d, literal, u.id, u.loc)
    ensures Good(Step(ix, d, literal, u), d) && Holds(Step(ix, d, literal, u), us + [u])
  {
    SetKeeps(ix, d, literal, u.id, u.loc, u.status, u.kind, u.fresh_);
    StepItems(ix, d, literal, u);
    StepHolds(ix, us, u, Step(ix, d, literal, u));
  }

  lemma {:induction false} RunHolds(ix: Index, d: nat, literal: bool, us0: seq<Update>, us: seq<Update>, all: seq<Update>, ix': Index)
    requires Good(ix, d) && Holds(ix, us0) && Run(ix, d, literal, us, ix') && all == us0 + us
    ensures Good(ix', d) && Holds(ix', all)
    decreases |us|
  {
    if us == [] {
      assert all == us0;
    } else {
      StepGood(ix, d, literal, us0, us[0]);
      Shifted(us0, us);
      RunHolds(Step(ix, d, literal, us[0]), d, literal, us0 + [us[0]], us[1..], all, ix');
    }
  }

  lemma Shifted(us0: seq<Update>, us: seq<Update>)
    requires us != []
    ensures us0 + us == (us0 + [us[0]]) + us[1..]
  {
  }

  /** In the rectangle, with the status and the type asked for; -1 stands for any. */
  predicate Wanted(f: Filter, item: Item) {
    && f.rc.lt.lat <= item.loc.lat < f.rc.rb.lat && f.rc.lt.lon <= item.loc.lon < f.rc.rb.lon
    && (f.status != -1 ==> item.status == f.status) && (f.kind != -1 ==> item.kind == f.kind)
  }

  /** What the data nodes of an answer say. */
  function Shown(out: seq<Ref>, items: Items): seq<Item>
    requires forall x <- out :: x in items
  {
    seq(|out|, i requires 0 <= i < |out| => items[out[i]])
  }

  /** In every run of updates a lookup shows what the updates said, of matching items only,
      of none twice and of no more than asked for, and of all of them if there are fewer. */
  lemma EveryAnswer(d: nat, literal: bool, us: seq<Update>, ix: Index, f: Filter, max: int)
    requires Run(START, d, literal, us, ix)
    ensures var out := Query(ix.tree, d, f, max, [], ix.items);
      && (forall x <- out :: x in ix.items)
      && var shown := Shown(out, ix.items);
      && |shown| <= Max(max, 0)
      && (forall i, j :: 0 <= i < j < |shown| ==> shown[i].id != shown[j].id)
      && (forall i :: 0 <= i < |shown| ==> Told(us, shown[i]) && Wanted(f, shown[i]))
      && (|shown| < max ==> forall item :: Told(us, item) && Wanted(f, item) ==> item in shown)
  {
    EveryLookup(d, literal, us, ix, f, max);
    assert Good(START, d);
    assert [] + us == us;
    RunHolds(START, d, literal, [], us, us, ix);
    ShownRight(ix, us, Query(ix.tree, d, f, max, [], ix.items), f, max);
  }

  lemma ShownRight(ix: Index, us: seq<Update>, out: seq<Ref>, f: Filter, max: int)
    requires Named(ix.names, ix.items) && Holds(ix, us) && Answers(out, f, max, ix.items)
    ensures var shown := Shown(out, ix.items);
      && (forall i, j :: 0 <= i < j < |shown| ==> shown[i].id != shown[j].id)
      && (forall i :: 0 <= i < |shown| ==> Told(us, shown[i]) && Wanted(f, shown[i]))
      && (|shown| < max ==> forall item :: Told(us, item) && Wanted(f, item) ==> item in shown)
  {
    var shown := Shown(out, ix.items);
    if |shown| < max {
      forall item | Told(us, item) && Wanted(f, item) ensures item in shown {
        var x := ToldThere(ix, us, item);
        var k :| 0 <= k < |out| && out[k] == x;
        assert shown[k] == item;
      }
    }
  }

  lemma ToldThere(ix: Index, us: seq<Update>, item: Item) returns (x: Ref)
    requires Named(ix.names, ix.items) && Holds(ix, us) && Told(us, item)
    ensures x in ix.items && ix.items[x] == item
  {
    var i: nat, j: nat :| FirstAndLast(us, item.id, i, j) && item == Item(us[i].id, us[j].loc, us[i].status, us[i].kind);
    x := ix.names[item.id];
    OneTold(us, item, ix.items[x]);
  }

  lemma LookupAnswers(ix: Index, d: nat, f: Filter, max: int)
    requires Good(ix, d)
    ensures Answers(Query(ix.tree, d, f, max, [], ix.items), f, max, ix.items)
  {
    var all := Select(Scan(ix.tree), f, ix.items);
    AllMatching(ix, d, f);
    TakeAnswers(all, f, max, ix.items);
    FirstLookup(ix.tree, d, f, max, ix.items);
  }

  lemma FirstLookup(t: Tree, d: nat, f: Filter, max: int, items: Items)
    requires Wf(t, d, items)
    ensures Query(t, d, f, max, [], items) == Take(Select(Scan(t), f, items), max)
  {
    QueryIsScan(t, d, f, max, [], items);
    var out := Take(Select(Scan(t), f, items), max);
    assert [] + out == out;
  }

  lemma AllMatching(ix: Index, d: nat, f: Filter)
    requires Good(ix, d)
    ensures var all := Select(Scan(ix.tree), f, ix.items);
      NoRepeats(all) && forall x :: x in all <==> x in ix.items && Matches(f, ix.items[x])
  {
    var all := Select(Scan(ix.tree), f, ix.items);
    forall x ensures x in all <==> x in ix.items && Matches(f, ix.items[x]) {
      SelectFacts(Scan(ix.tree), f, ix.items, x);
      InScan(ix, d, x);
    }
    SelectFacts(Scan(ix.tree), f, ix.items, 0);
    NoneTwice(all, ix.items.Keys);
  }

  lemma TakeAnswers(all: seq<Ref>, f: Filter, max: int, items: Items)
    requires NoRepeats(all) && forall x :: x in all <==> x in items && Matches(f, items[x])
    ensures Answers(Take(all, max), f, max, items)
  {
    var out := Take(all, max);
    assert forall i :: 0 <= i < |out| ==> out[i] == all[i];
  }
}
