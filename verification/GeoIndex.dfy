/** src/ngx_http_lookaround_handler.c: the index with its linked lists, updated in place. */
module GeoIndex {
  import opened Lists
  import opened GeoMap
  import opened QuadTree
  import opened QuadUpdate

  const NULL := -1

  /** nla_data_node; of p_map_node only the rectangle it leads to is ever used. */
  datatype Cell = Cell(item: Item, prev: int, next: int, leaf: Rect)

  type Cells = map<Ref, Cell>
  type Node = Quad<int>     // a leaf holds the head of its list

  // ----- what the pointers stand for -----

  function At(q: seq<Ref>, k: int): int { if 0 <= k < |q| then q[k] else NULL }

  /** The tree with each list replaced by its head. */
  function Heads(t: Tree): Node {
    Quad(t.rc, t.count, At(t.list, 0), seq(|t.kids|, i requires 0 <= i < |t.kids| => Heads(t.kids[i])))
  }

  /** The data nodes of a list are linked both ways and know their leaf. */
  ghost predicate Chain(cells: Cells, rc: Rect, q: seq<Ref>) {
    forall k :: 0 <= k < |q| ==> Link(cells, rc, q, k)
  }

  ghost predicate Link(cells: Cells, rc: Rect, q: seq<Ref>, k: nat)
    requires k < |q|
  {
    q[k] in cells && cells[q[k]].next == At(q, k + 1) && cells[q[k]].prev == At(q, k - 1) && cells[q[k]].leaf == rc
  }

  ghost predicate Chained(t: Tree, d: nat, cells: Cells)
    decreases d
  {
    if d == 0 then Chain(cells, t.rc, t.list) && NoRepeats(t.list)
    else |t.kids| == 4 ==> forall i :: 0 <= i < 4 ==> Chained(t.kids[i], d - 1, cells)
  }

  /** The lists below a node depend on its own data nodes only. */
  lemma {:induction false} SameChains(t: Tree, d: nat, items: Items, cells: Cells, cells': Cells)
    requires Wf(t, d, items) && Chained(t, d, cells)
    requires forall x <- Scan(t) :: x in cells && x in cells' && SameLinks(cells[x], cells'[x])
    ensures Chained(t, d, cells')
    decreases d
  {
    if d == 0 {
      forall k | 0 <= k < |t.list| ensures Link(cells', t.rc, t.list, k) { assert Link(cells, t.rc, t.list, k) && t.list[k] in Scan(t); }
    } else if t.kids != [] {
      forall i | 0 <= i < 4 ensures Chained(t.kids[i], d - 1, cells') {
        assert Child(t, i, d, items);
        forall x | x in Scan(t.kids[i]) ensures x in Scan(t) { InKids(t, 0, x); }
        SameChains(t.kids[i], d - 1, items, cells, cells');
      }
    }
  }

  predicate SameLinks(a: Cell, b: Cell) { a.prev == b.prev && a.next == b.next && a.leaf == b.leaf }

  // ----- one list -----

  function WithNext(cells: Cells, x: int, next: int): Cells { if x in cells then cells[x := cells[x].(next := next)] else cells }
  function WithPrev(cells: Cells, x: int, prev: int): Cells { if x in cells then cells[x := cells[x].(prev := prev)] else cells }

  /** x becomes the first of the list that starts at head. */
  function Pushed(cells: Cells, head: int, x: Ref, rc: Rect): Cells
    requires x in cells
  {
    WithPrev(cells[x := cells[x].(next := head, prev := NULL, leaf := rc)], head, x)
  }

  lemma PushedChain(cells: Cells, rc: Rect, q: seq<Ref>, x: Ref)
    requires Chain(cells, rc, q) && NoRepeats(q) && x !in q && x in cells
    ensures Chain(Pushed(cells, At(q, 0), x, rc), rc, [x] + q)
  {
    var cells', q' := Pushed(cells, At(q, 0), x, rc), [x] + q;
    if q != [] { assert Link(cells, rc, q, 0); }
    forall k | 0 <= k < |q'| ensures Link(cells', rc, q', k) {
      if k > 0 { assert Link(cells, rc, q, k - 1); }
    }
  }

  /** x leaves the list it is in. */
  function Dropped(cells: Cells, x: Ref): Cells
    requires x in cells
  {
    var c := cells[x];
    WithPrev(WithNext(cells, c.prev, c.next), c.next, c.prev)[x := c.(next := NULL, prev := NULL)]
  }

  lemma DroppedLink(cells: Cells, rc: Rect, q: seq<Ref>, k: nat, q': seq<Ref>, j: nat)
    requires Chain(cells, rc, q) && NoRepeats(q) && k < |q| && q' == q[..k] + q[k + 1..] && j < |q'|
    ensures q[k] in cells && Link(Dropped(cells, q[k]), rc, q', j)
  {
    var i := if j < k then j else j + 1;
    assert Link(cells, rc, q, k) && Link(cells, rc, q, i);
    if k > 0 { assert Link(cells, rc, q, k - 1); }
    if k + 1 < |q| { assert Link(cells, rc, q, k + 1); }
    assert At(q', j) == At(q, i);
    assert At(q', j + 1) == At(q, if j + 1 < k then j + 1 else j + 2);
    assert At(q', j - 1) == At(q, if j - 1 < k then j - 1 else j);
  }

  lemma DroppedChain(cells: Cells, rc: Rect, q: seq<Ref>, x: Ref)
    requires Chain(cells, rc, q) && NoRepeats(q) && x in q
    ensures x in cells && Chain(Dropped(cells, x), rc, Without(q, x))
    ensures At(Without(q, x), 0) == if At(q, 0) == x then cells[x].next else At(q, 0)
  {
    var k := WithoutSplit(q, x);
    var q' := Without(q, x);
    assert Link(cells, rc, q, k);
    forall j | 0 <= j < |q'| ensures Link(Dropped(cells, x), rc, q', j) { DroppedLink(cells, rc, q, k, q', j); }
  }

  /** What the guard as written leads to when an item leaves its leaf and comes back: its
      old predecessor, first in the list, and the item then follow each other for ever. */
  lemma LiteralCycle(cells: Cells, rc: Rect, a: Ref, x: Ref, rest: seq<Ref>, rc': Rect, q: seq<Ref>)
    requires Chain(cells, rc, [a, x] + rest) && NoRepeats([a, x] + rest) && (forall y <- q :: y !in [a, x] + rest)
    ensures x in cells && a in cells
    ensures var away := Pushed(cells, At(q, 0), x, rc');
      var back := Pushed(away, a, x, rc);
      back[a].next == x && back[x].next == a
  {
    var l := [a, x] + rest;
    assert Link(cells, rc, l, 0) && Link(cells, rc, l, 1);
    assert l[0] == a && l[1] == x;
    if q != [] { assert q[0] in q; }
  }

  // ----- the lists of a tree -----

  /** What adding does to the data nodes. */
  function AddCells(t: Tree, d: nat, x: Ref, loc: Loc, cells: Cells): Cells
    requires x in cells
    decreases d
  {
    if d == 0 then Pushed(cells, At(t.list, 0), x, t.rc)
    else
      var i := ChildIndex(t.rc, loc);
      if i < 0 then cells else AddCells(Kids(t)[i], d - 1, x, loc, cells)
  }

  /** What removing does to them. */
  function RemoveCells(t: Tree, d: nat, x: Ref, loc: Loc, cells: Cells): Cells
    requires x in cells
    decreases d
  {
    if t.count == 0 then cells
    else if d == 0 then Dropped(cells, x)
    else
      var i := ChildIndex(t.rc, loc);
      if i < 0 || |t.kids| != 4 then cells else RemoveCells(t.kids[i], d - 1, x, loc, cells)
  }

  /** Only x and data nodes in `q` may have got other links; no item changed. */
  ghost predicate Touches(cells: Cells, cells': Cells, x: Ref, q: seq<Ref>) {
    && cells'.Keys == cells.Keys
    && forall y <- cells :: cells'[y].item == cells[y].item && (y == x || y in q || cells'[y] == cells[y])
  }

  /** A data node below one child is not below another. */
  lemma OtherChild(t: Tree, d: nat, items: Items, i: nat, k: nat, y: Ref)
    requires Wf(t, d, items) && d > 0 && |t.kids| == 4 && i < 4 && k < 4 && i != k && y in Scan(t.kids[i])
    ensures y !in Scan(t.kids[k])
  {
    assert Child(t, i, d, items) && Child(t, k, d, items);
    ScanLocated(t.kids[i], d - 1, items);
    ScanLocated(t.kids[k], d - 1, items);
    if y in Scan(t.kids[k]) { Partition(t.rc, items[y].loc); }
  }

  /** The lists of the other children are as before. */
  lemma OtherChains(t: Tree, d: nat, items: Items, i: nat, x: Ref, cells: Cells, cells': Cells)
    requires Wf(t, d, items) && d > 0 && |t.kids| == 4 && i < 4 && Chained(t, d, cells) && (forall y <- Scan(t) :: y in cells)
    requires Touches(cells, cells', x, Scan(t.kids[i])) && (x !in Scan(t) || x in Scan(t.kids[i]))
    ensures forall k :: 0 <= k < 4 && k != i ==> Chained(t.kids[k], d - 1, cells')
  {
    forall k | 0 <= k < 4 && k != i ensures Chained(t.kids[k], d - 1, cells') {
      assert Child(t, k, d, items);
      forall y | y in Scan(t.kids[k]) ensures y in Scan(t) && y !in Scan(t.kids[i]) && y != x {
        OtherChild(t, d, items, k, i, y);
        InKids(t, 0, y);
      }
      SameChains(t.kids[k], d - 1, items, cells, cells');
    }
  }

  lemma {:induction false} AddChains(t: Tree, d: nat, x: Ref, items: Items, cells: Cells)
    requires Wf(t, d, items) && Chained(t, d, cells) && x in items && x in cells && x !in Scan(t)
    requires InRect(t.rc, items[x].loc) && forall y <- Scan(t) :: y in cells
    ensures var cells' := AddCells(t, d, x, items[x].loc, cells);
      Chained(Add(t, d, x, items[x].loc), d, cells') && Touches(cells, cells', x, Scan(t))
    decreases d
  {
    var loc := items[x].loc;
    var cells' := AddCells(t, d, x, loc, cells);
    if d == 0 {
      PushedChain(cells, t.rc, t.list, x);
      if t.list != [] { assert t.list[0] in t.list; }
    } else {
      NewKidsWf(t, d, items);
      var t1, i := t.(kids := Kids(t)), ChildIndex(t.rc, loc);
      assert Child(t1, i, d, items);
      NewChains(t, d, cells);
      forall y | y in Scan(t1.kids[i]) ensures y in Scan(t1) { InKids(t1, 0, y); }
      AddChains(t1.kids[i], d - 1, x, items, cells);
      OtherChains(t1, d, items, i, x, cells, cells');
    }
  }

  lemma NewChains(t: Tree, d: nat, cells: Cells)
    requires Chained(t, d, cells) && d > 0
    ensures Chained(t.(kids := Kids(t)), d, cells)
  {
  }

  lemma {:induction false} RemoveChains(t: Tree, d: nat, x: Ref, items: Items, cells: Cells)
    requires Wf(t, d, items) && Chained(t, d, cells) && x in items && x in cells && x in Scan(t)
    requires forall y <- Scan(t) :: y in cells
    ensures var cells' := RemoveCells(t, d, x, items[x].loc, cells);
      Chained(Remove(t, d, x, items[x].loc), d, cells') && Touches(cells, cells', x, Scan(t))
    decreases d
  {
    var loc := items[x].loc;
    var cells' := RemoveCells(t, d, x, loc, cells);
    if d == 0 {
      var k :| 0 <= k < |t.list| && t.list[k] == x;
      assert Link(cells, t.rc, t.list, k);
      DroppedChain(cells, t.rc, t.list, x);
      WithoutRepeats(t.list, x);
      if k > 0 { assert t.list[k - 1] in t.list; }
      if k + 1 < |t.list| { assert t.list[k + 1] in t.list; }
    } else {
      InItsChild(t, d, x, items);
      var i := ChildIndex(t.rc, loc);
      assert Child(t, i, d, items);
      forall y | y in Scan(t.kids[i]) ensures y in Scan(t) { InKids(t, 0, y); }
      RemoveChains(t.kids[i], d - 1, x, items, cells);
      OtherChains(t, d, items, i, x, cells, cells');
    }
  }

  function ItemsOf(cells: Cells): Items { map x | x in cells :: cells[x].item }

  /** Each data node points to the leaf its location belongs to. */
  lemma {:induction false} LeafIs(t: Tree, d: nat, x: Ref, items: Items, cells: Cells)
    requires Wf(t, d, items) && Chained(t, d, cells) && x in items && x in Scan(t)
    ensures x in cells && cells[x].leaf == LeafRect(t.rc, d, items[x].loc)
    decreases d
  {
    if d == 0 {
      var k :| 0 <= k < |t.list| && t.list[k] == x;
      assert Link(cells, t.rc, t.list, k);
    } else {
      InItsChild(t, d, x, items);
      var i := ChildIndex(t.rc, items[x].loc);
      assert Child(t, i, d, items);
      LeafIs(t.kids[i], d - 1, x, items, cells);
    }
  }

  class LookAround {
    var root: Node
    var cells: Cells                  // the data nodes
    var names: map<string, Ref>       // p_id2data_map
    const depth: nat                  // nMapMaxLevel
    const literal: bool               // the guard of the removal, as written or as meant
    ghost var tree: Tree

    ghost function View(): Index
      reads this
    {
      Index(tree, ItemsOf(cells), names)
    }

    ghost predicate Valid()
      reads this
    {
      root == Heads(tree) && Good(View(), depth) && Chained(tree, depth, cells)
    }

    /** fn_v_InitCoreData */
    constructor (depth: nat, literal: bool)
      ensures Valid() && View() == Index(Quad(WORLD, 0, [], []), map[], map[]) && this.depth == depth && this.literal == literal
    {
      root, cells, names := Quad(WORLD, 0, NULL, []), map[], map[];
      tree := Quad(WORLD, 0, [], []);
      this.depth, this.literal := depth, literal;
    }

    /** ngx_http_lookaround_create_child_mapnode */
    method CreateKids(rc: Rect) returns (kids: seq<Node>)
      ensures |kids| == 4 && forall i :: 0 <= i < 4 ==> kids[i] == Heads(NewKids(rc)[i])
    {
      kids := [];
      var i := 0;
      while i < 4
        invariant 0 <= i <= 4 && |kids| == i && forall k :: 0 <= k < i ==> kids[k] == Quad(ChildRect(rc, k), 0, NULL, [])
      {
        kids := kids + [Quad(ChildRect(rc, i), 0, NULL, [])];
        i := i + 1;
      }
      forall k | 0 <= k < 4 ensures kids[k] == Heads(NewKids(rc)[k]) {
        assert NewKids(rc)[k] == Quad(ChildRect(rc, k), 0, [], []);
      }
    }

    /** ngx_http_lookaround_adddatanode */
    method AddDataNode(h: Node, d: nat, x: Ref, ghost t: Tree, ghost items: Items) returns (h': Node)
      requires h == Heads(t) && Wf(t, d, items) && x in cells && forall y <- Scan(t) :: y in cells
      modifies `cells
      ensures cells == AddCells(t, d, x, old(cells)[x].item.loc, old(cells))
      ensures h' == Heads(Add(t, d, x, old(cells)[x].item.loc))
      decreases d
    {
      var loc := cells[x].item.loc;
      h' := h.(count := h.count + 1);
      if d == 0 {
        cells := cells[x := cells[x].(next := h.list, prev := NULL, leaf := h.rc)];
        if h.list != NULL {
          assert t.list[0] in Scan(t);
          cells := cells[h.list := cells[h.list].(prev := x)];
        }
        h' := h'.(list := x);
      } else {
        var kids := h.kids;
        if |kids| == 0 { kids := CreateKids(h.rc); }
        assert forall k :: 0 <= k < 4 ==> kids[k] == Heads(Kids(t)[k]);
        var i := ChildIndex(h.rc, loc);
        if i >= 0 {
          NewKidsWf(t, d, items);
          var kid := AddBelow(kids[i], d, x, t, items, i);
          kids := kids[i := kid];
        }
        h' := h'.(kids := kids);
        SameHeads(h', Add(t, d, x, loc));
      }
    }

    method AddBelow(h: Node, d: nat, x: Ref, ghost t: Tree, ghost items: Items, ghost i: nat) returns (h': Node)
      requires d > 0 && i < 4 && h == Heads(Kids(t)[i]) && Wf(t.(kids := Kids(t)), d, items) && x in cells
      requires Scan(t.(kids := Kids(t))) == Scan(t) && forall y <- Scan(t) :: y in cells
      modifies `cells
      ensures cells == AddCells(Kids(t)[i], d - 1, x, old(cells)[x].item.loc, old(cells))
      ensures h' == Heads(Add(Kids(t)[i], d - 1, x, old(cells)[x].item.loc))
      decreases d, 0
    {
      assert Child(t.(kids := Kids(t)), i, d, items);
      forall y | y in Scan(Kids(t)[i]) ensures y in Scan(t) { InKids(t.(kids := Kids(t)), 0, y); }
      h' := AddDataNode(h, d - 1, x, Kids(t)[i], items);
    }

    /** ngx_http_lookaround_remove_datanode_from_map */
    method RemoveDataNode(h: Node, d: nat, x: Ref, ghost t: Tree, ghost items: Items) returns (h': Node)
      requires h == Heads(t) && Wf(t, d, items) && Chained(t, d, cells) && x in cells && x in items && x in Scan(t)
      requires items[x].loc == cells[x].item.loc
      modifies `cells
      ensures cells == if literal then old(cells) else RemoveCells(t, d, x, items[x].loc, old(cells))
      ensures h' == Heads(if literal then t else Remove(t, d, x, items[x].loc))
      decreases d
    {
      if literal || h.count == 0 { return h; }
      h' := h.(count := h.count - 1);
      if d == 0 {
        var head := Unhook(x, h.list, t.rc, t.list);
        h' := h'.(list := head);
        SameHeads(h', Remove(t, d, x, items[x].loc));
      } else {
        InItsChild(t, d, x, items);
        var i := ChildIndex(h.rc, cells[x].item.loc);
        assert Child(t, i, d, items);
        var kid := RemoveDataNode(h.kids[i], d - 1, x, t.kids[i], items);
        h' := h'.(kids := h.kids[i := kid]);
        SameHeads(h', Remove(t, d, x, items[x].loc));
      }
    }

    /** The list operations of the removal; returns the new head. */
    method Unhook(x: Ref, head: int, ghost rc: Rect, ghost q: seq<Ref>) returns (head': int)
      requires Chain(cells, rc, q) && NoRepeats(q) && x in q && head == At(q, 0) && x in cells
      modifies `cells
      ensures cells == Dropped(old(cells), x) && head' == At(Without(q, x), 0)
    {
      DroppedChain(cells, rc, q, x);
      ghost var k :| 0 <= k < |q| && q[k] == x;
      assert Link(cells, rc, q, k);
      if k > 0 { assert Link(cells, rc, q, k - 1); }
      if k + 1 < |q| { assert Link(cells, rc, q, k + 1); }
      var c := cells[x];
      if c.prev != NULL { cells := cells[c.prev := cells[c.prev].(next := c.next)]; }
      if c.next != NULL { cells := cells[c.next := cells[c.next].(prev := c.prev)]; }
      head' := head;
      if x == head {
        head' := c.next;
        if head' != NULL { cells := cells[head' := cells[head'].(prev := NULL)]; }
      }
      cells := cells[x := cells[x].(next := NULL, prev := NULL)];
    }

    /** ngx_http_lookaround_setdataloc for an id that is not there yet. */
    method AddItem(id: string, loc: Loc, status: int, kind: int, y: Ref)
      requires Valid() && y !in cells && id !in names
      modifies this
      ensures root == Heads(tree) && View() == SetItem(old(View()), depth, literal, id, loc, status, kind, y)
      ensures Valid() <==> InRect(old(tree).rc, loc)
    {
      ghost var ix, before := View(), cells;
      NewKeeps(ix, depth, literal, id, loc, status, kind, y);
      cells := cells[y := Cell(Item(id, loc, status, kind), NULL, NULL, WORLD)];
      names := names[id := y];
      ghost var items := ItemsOf(cells);
      AboutToAdd(ix, depth, y, before, cells, items);
      if InRect(tree.rc, loc) { ReadyToAdd(ix, depth, y, before, cells, items); }
      root := AddDataNode(root, depth, y, tree, items);
      tree := Add(tree, depth, y, loc);
    }

    /** ngx_http_lookaround_setdataloc for an item that stays in its leaf. */
    method MoveInLeaf(x: Ref, loc: Loc)
      requires Valid() && x in cells && InRect(LeafRect(tree.rc, depth, cells[x].item.loc), loc)
      modifies `cells
      ensures Valid() && View() == old(View()).(items := old(View()).items[x := old(cells)[x].item.(loc := loc)])
    {
      ghost var ix, before := View(), cells;
      cells := cells[x := cells[x].(item := cells[x].item.(loc := loc))];
      assert ItemsOf(cells) == ix.items[x := before[x].item.(loc := loc)];
      ScanIn(ix, depth, x);
      SameChains(tree, depth, ix.items, before, cells);
      MovedInLeaf(tree, depth, x, ix.items, loc, ItemsOf(cells));
      assert ItemsOf(cells).Keys == ix.items.Keys;
    }

    /** ngx_http_lookaround_setdataloc for an item that leaves its leaf. */
    method MoveAcross(x: Ref, loc: Loc)
      requires Valid() && x in cells
      modifies this
      ensures names == old(names) && root == Heads(tree)
      ensures ItemsOf(cells) == ItemsOf(old(cells))[x := old(cells)[x].item.(loc := loc)]
      ensures var t1 := if literal then old(tree) else Remove(old(tree), depth, x, old(cells)[x].item.loc);
        tree == Add(t1, depth, x, loc)
      ensures !literal && InRect(old(tree).rc, loc) ==> Chained(tree, depth, cells)
    {
      ghost var ix, item := View(), cells[x].item;
      ghost var t1 := if literal then tree else Remove(tree, depth, x, item.loc);
      ScanIn(ix, depth, x);
      AboutToMove(ix, depth, literal, x, cells, loc);
      if !literal && InRect(tree.rc, loc) { ReadyToMove(ix, depth, x, cells, loc); }
      root := RemoveDataNode(root, depth, x, tree, ix.items);
      cells := cells[x := cells[x].(item := cells[x].item.(loc := loc))];
      root := AddDataNode(root, depth, x, t1, ix.items);
      tree := Add(t1, depth, x, loc);
    }

    method MoveItem(x: Ref, loc: Loc, ghost status: int, ghost kind: int, ghost y: Ref)
      requires Valid() && x in cells && y !in cells
      modifies this
      ensures root == Heads(tree)
      ensures View() == SetItem(old(View()), depth, literal, old(cells)[x].item.id, loc, status, kind, y)
      ensures Valid() <==> Allowed(old(View()), depth, literal, old(cells)[x].item.id, loc)
    {
      ghost var ix := View();
      SetKeeps(ix, depth, literal, cells[x].item.id, loc, status, kind, y);
      ScanIn(ix, depth, x);
      LeafIs(tree, depth, x, ix.items, cells);
      if InRect(cells[x].leaf, loc) {
        LeafInside(tree.rc, depth, cells[x].item.loc, loc);
        MoveInLeaf(x, loc);
      } else {
        MoveAcross(x, loc);
      }
    }

    /** ngx_http_lookaround_setdataloc for every location; y is where a new data node would
        be allocated. */
    method SetDataLoc(id: string, loc: Loc, status: int, kind: int, y: Ref)
      requires Valid() && y !in cells
      modifies this
      ensures root == Heads(tree) && View() == SetItem(old(View()), depth, literal, id, loc, status, kind, y)
      ensures Valid() <==> Allowed(old(View()), depth, literal, id, loc)
    {
      if id in names {
        MoveItem(names[id], loc, status, kind, y);
      } else {
        AddItem(id, loc, status, kind, y);
      }
    }

    /** The loop over a leaf's list in ngx_http_lookaround_get_around_data. */
    method WalkList(head: int, f: Filter, max: int, out0: seq<Ref>, ghost rc: Rect, ghost q: seq<Ref>) returns (out: seq<Ref>)
      requires Chain(cells, rc, q) && head == At(q, 0)
      ensures out == Walk(q, f, max, out0, ItemsOf(cells))
    {
      out := out0;
      var p := head;
      ghost var k := 0;
      while |out| < max && p != NULL
        invariant 0 <= k <= |q| && p == At(q, k) && Walk(q[k..], f, max, out, ItemsOf(cells)) == Walk(q, f, max, out0, ItemsOf(cells))
        decreases |q| - k
      {
        assert Link(cells, rc, q, k);
        assert q[k..][1..] == q[k + 1..];
        var item := cells[p].item;
        if (f.kind == ANY || f.kind == item.kind) && (f.status == ANY || f.status == item.status) && InRect(f.rc, item.loc) {
          out := out + [p];
        }
        p := cells[p].next;
        k := k + 1;
      }
    }

    /** ngx_http_lookaround_get_around_data */
    method GetAround(h: Node, d: nat, f: Filter, max: int, out0: seq<Ref>, ghost t: Tree) returns (out: seq<Ref>)
      requires h == Heads(t) && Wf(t, d, ItemsOf(cells)) && Chained(t, d, cells)
      ensures out == Query(t, d, f, max, out0, ItemsOf(cells))
      decreases d
    {
      out := out0;
      if h.count == 0 { return; }
      if d == 0 {
        out := WalkList(h.list, f, max, out, t.rc, t.list);
        return;
      }
      if |h.kids| == 0 { return; }
      var i := 0;
      while i < 4
        invariant 0 <= i <= 4
        invariant QueryKids(t.kids, d, f, max, out, ItemsOf(cells), i) == QueryKids(t.kids, d, f, max, out0, ItemsOf(cells), 0)
      {
        assert Child(t, i, d, ItemsOf(cells));
        var part := Intersect(h.kids[i].rc, f.rc);
        if part.Some? {
          out := GetAround(h.kids[i], d - 1, f.(rc := part.value), max, out, t.kids[i]);
        }
        i := i + 1;
      }
    }

    /** The answer to a lookup: the first `max` stored items that match, in scan order. */
    method Lookup(f: Filter, max: int) returns (out: seq<Ref>)
      requires Valid()
      ensures out == Take(Select(Scan(tree), f, ItemsOf(cells)), max)
    {
      out := GetAround(root, depth, f, max, [], tree);
      QueryIsScan(tree, depth, f, max, [], ItemsOf(cells));
    }
  }

  lemma SameHeads(h: Node, t: Tree)
    requires h.rc == t.rc && h.count == t.count && h.list == At(t.list, 0) && |h.kids| == |t.kids|
    requires forall i :: 0 <= i < |t.kids| ==> h.kids[i] == Heads(t.kids[i])
    ensures h == Heads(t)
  {
    assert h.kids == Heads(t).kids;
  }

  /** What the tree lists is what is stored. */
  lemma ScanIn(ix: Index, d: nat, x: Ref)
    requires Good(ix, d)
    ensures x in Scan(ix.tree) <==> x in ix.items
    ensures forall y <- Scan(ix.tree) :: y in ix.items
  {
    InScan(ix, d, x);
    ScanLocated(ix.tree, d, ix.items);
  }

  /** Between the removal of an item and its return. */
  lemma AfterRemoval(ix: Index, d: nat, x: Ref, t: Tree, items: Items, cells: Cells, cells': Cells)
    requires Good(ix, d) && x in ix.items && x in items && t == Remove(ix.tree, d, x, ix.items[x].loc)
    requires Wf(t, d, items) && Chained(t, d, cells) && cells.Keys == ix.items.Keys == cells'.Keys
    requires cells' == cells[x := cells'[x]]
    ensures x !in Scan(t) && Chained(t, d, cells') && forall y <- Scan(t) :: y in cells'
  {
    InScan(ix, d, x);
    RemoveOk(ix.tree, d, x, ix.items);
    GoneFrom(ix, d, x, t);
    ScanLocated(t, d, ix.items);
    SameChains(t, d, items, cells, cells');
  }

  /** Items do not change when links do. */
  lemma SameItemsOf(cells: Cells, cells': Cells, x: Ref, q: seq<Ref>)
    requires Touches(cells, cells', x, q)
    ensures ItemsOf(cells') == ItemsOf(cells)
  {
  }

  /** A new data node is in memory and is about to be put in the tree. */
  lemma ReadyToAdd(ix: Index, d: nat, y: Ref, before: Cells, cells: Cells, items: Items)
    requires Good(ix, d) && Chained(ix.tree, d, before) && ix.items == ItemsOf(before) && y !in before
    requires y in cells && cells == before[y := cells[y]] && items == ItemsOf(cells) && InRect(ix.tree.rc, items[y].loc)
    ensures items == ix.items[y := cells[y].item] && Wf(ix.tree, d, items) && forall z <- Scan(ix.tree) :: z in cells
    ensures var cells' := AddCells(ix.tree, d, y, items[y].loc, cells);
      Chained(Add(ix.tree, d, y, items[y].loc), d, cells') && ItemsOf(cells') == items
  {
    assert items == ix.items[y := cells[y].item];
    NewInside(ix, d, y, items);
    ScanIn(ix, d, y);
    SameChains(ix.tree, d, items, before, cells);
    AddChains(ix.tree, d, y, items, cells);
    SameItemsOf(cells, AddCells(ix.tree, d, y, items[y].loc, cells), y, Scan(ix.tree));
  }

  /** A data node is about to be moved from one leaf to another. */
  lemma ReadyToMove(ix: Index, d: nat, x: Ref, cells: Cells, loc: Loc)
    requires Good(ix, d) && Chained(ix.tree, d, cells) && ix.items == ItemsOf(cells) && x in cells && InRect(ix.tree.rc, loc)
    ensures var t1 := Remove(ix.tree, d, x, ix.items[x].loc);
      var mid := RemoveCells(ix.tree, d, x, ix.items[x].loc, cells);
      && x in mid
      && var cells1 := mid[x := mid[x].(item := mid[x].item.(loc := loc))];
      var cells2 := AddCells(t1, d, x, loc, cells1);
      && mid[x].item == cells[x].item && ItemsOf(cells1) == ix.items[x := ix.items[x].(loc := loc)]
      && Wf(t1, d, ItemsOf(cells1)) && (forall y <- Scan(t1) :: y in cells1)
      && Chained(Add(t1, d, x, loc), d, cells2) && ItemsOf(cells2) == ItemsOf(cells1)
  {
    ScanIn(ix, d, x);
    RemoveChains(ix.tree, d, x, ix.items, cells);
    var t1, mid := Remove(ix.tree, d, x, ix.items[x].loc), RemoveCells(ix.tree, d, x, ix.items[x].loc, cells);
    var cells1 := mid[x := mid[x].(item := mid[x].item.(loc := loc))];
    var items := ItemsOf(cells1);
    assert items == ix.items[x := ix.items[x].(loc := loc)];
    MoveInside(ix, d, x, items);
    AfterRemoval(ix, d, x, t1, items, mid, cells1);
    AddChains(t1, d, x, items, cells1);
    SameItemsOf(cells1, AddCells(t1, d, x, loc, cells1), x, Scan(t1));
  }

  /** Adding and removing change links only, wherever the location is. */
  lemma {:induction false} AddSameItems(t: Tree, d: nat, x: Ref, loc: Loc, cells: Cells)
    requires x in cells
    ensures var cells' := AddCells(t, d, x, loc, cells); ItemsOf(cells') == ItemsOf(cells) && cells'.Keys == cells.Keys
    decreases d
  {
    if d > 0 && ChildIndex(t.rc, loc) >= 0 { AddSameItems(Kids(t)[ChildIndex(t.rc, loc)], d - 1, x, loc, cells); }
  }

  /** A new data node is in memory. */
  lemma AboutToAdd(ix: Index, d: nat, y: Ref, before: Cells, cells: Cells, items: Items)
    requires Good(ix, d) && ix.items == ItemsOf(before) && y !in before
    requires y in cells && cells == before[y := cells[y]] && items == ItemsOf(cells)
    ensures items == ix.items[y := cells[y].item] && Wf(ix.tree, d, items) && forall z <- Scan(ix.tree) :: z in cells
    ensures ItemsOf(AddCells(ix.tree, d, y, items[y].loc, cells)) == items
  {
    assert items == ix.items[y := cells[y].item];
    NewInside(ix, d, y, items);
    ScanIn(ix, d, y);
    AddSameItems(ix.tree, d, y, items[y].loc, cells);
  }

  /** A data node is out of its list, or with the guard as written still in it. */
  lemma AboutToMove(ix: Index, d: nat, literal: bool, x: Ref, cells: Cells, loc: Loc)
    requires Good(ix, d) && Chained(ix.tree, d, cells) && ix.items == ItemsOf(cells) && x in cells
    ensures var t1 := if literal then ix.tree else Remove(ix.tree, d, x, ix.items[x].loc);
      var mid := if literal then cells else RemoveCells(ix.tree, d, x, ix.items[x].loc, cells);
      && x in mid && mid[x].item == cells[x].item
      && var cells1 := mid[x := mid[x].(item := mid[x].item.(loc := loc))];
      && ItemsOf(AddCells(t1, d, x, loc, cells1)) == ix.items[x := ix.items[x].(loc := loc)]
      && Wf(t1, d, ix.items) && forall y <- Scan(t1) :: y in cells1
  {
    var t1 := if literal then ix.tree else Remove(ix.tree, d, x, ix.items[x].loc);
    var mid := if literal then cells else RemoveCells(ix.tree, d, x, ix.items[x].loc, cells);
    TakenOut(ix, d, literal, x, cells, t1, mid);
    PutElsewhere(t1, d, x, loc, mid, ix.items);
  }

  lemma TakenOut(ix: Index, d: nat, literal: bool, x: Ref, cells: Cells, t1: Tree, mid: Cells)
    requires Good(ix, d) && Chained(ix.tree, d, cells) && ix.items == ItemsOf(cells) && x in cells
    requires t1 == if literal then ix.tree else Remove(ix.tree, d, x, ix.items[x].loc)
    requires mid == if literal then cells else RemoveCells(ix.tree, d, x, ix.items[x].loc, cells)
    ensures mid.Keys == cells.Keys && ItemsOf(mid) == ix.items && mid[x].item == cells[x].item
    ensures Wf(t1, d, ix.items) && forall y <- Scan(t1) :: y in mid
  {
    ScanIn(ix, d, x);
    if !literal {
      RemoveChains(ix.tree, d, x, ix.items, cells);
      SameItemsOf(cells, mid, x, Scan(ix.tree));
      RemoveOk(ix.tree, d, x, ix.items);
    }
    ScanLocated(t1, d, ix.items);
  }

  lemma PutElsewhere(t: Tree, d: nat, x: Ref, loc: Loc, mid: Cells, items: Items)
    requires x in mid && ItemsOf(mid) == items
    ensures var cells1 := mid[x := mid[x].(item := mid[x].item.(loc := loc))];
      ItemsOf(AddCells(t, d, x, loc, cells1)) == items[x := items[x].(loc := loc)]
  {
    var cells1 := mid[x := mid[x].(item := mid[x].item.(loc := loc))];
    AddSameItems(t, d, x, loc, cells1);
    assert ItemsOf(cells1) == items[x := items[x].(loc := loc)];
  }
}
