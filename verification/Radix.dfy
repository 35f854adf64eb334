/** nginx/src/core/ngx_radix_tree.c: the 32-bit tree of address prefixes.  Keys and masks
    are sequences of 32 bits, the highest first. */
module Radix {
  import opened Lists
  import opened Sealing

  type Ref = nat
  type Key = s: seq<bool> | |s| == 32 witness seq(32, _ => false)

  /** A prefix, its last bit outermost. */
  datatype Path = Nil | Snoc(init: Path, bit: bool)

  const NULL := -1
  const NO_VALUE := -1     // NGX_RADIX_NO_VALUE

  /** ngx_radix_node_t */
  datatype Node = Node(left: int, right: int, parent: int, value: int)

  type Nodes = map<Ref, Node>
  type Places = map<Path, Ref>     // the node at the end of each path from the root
  type Table = map<Path, int>      // the stored prefixes

  // ----- the reference -----

  /** The first k bits of a key. */
  function Upto(key: Key, k: nat): (p: Path)
    requires k <= 32
    ensures Length(p) == k
  {
    if k == 0 then Nil else Snoc(Upto(key, k - 1), key[k - 1])
  }

  function Length(p: Path): nat { if p.Nil? then 0 else Length(p.init) + 1 }

  /** The value of the longest stored prefix of the key among the first k bits. */
  function Longest(table: Table, key: Key, k: nat): int
    requires k <= 32
  {
    if Upto(key, k) in table then table[Upto(key, k)] else if k == 0 then NO_VALUE else Longest(table, key, k - 1)
  }

  /** It is the value of a stored prefix than which no longer one is stored, or there is
      none. */
  lemma {:induction false} LongestIs(table: Table, key: Key, k: nat, j: nat)
    requires j <= k <= 32 && forall i :: j < i <= k ==> Upto(key, i) !in table
    ensures Upto(key, j) in table ==> Longest(table, key, k) == table[Upto(key, j)]
    ensures j == 0 && Upto(key, j) !in table ==> Longest(table, key, k) == NO_VALUE
  {
    if j < k { LongestIs(table, key, k - 1, j); }
  }

  /** How many bits a mask selects: those before its first zero. */
  function Ones(mask: Key, k: nat): (r: nat)
    requires k <= 32
    ensures k <= r <= 32 && (forall i :: k <= i < r ==> mask[i]) && (r < 32 ==> !mask[r])
    decreases 32 - k
  {
    if k == 32 || !mask[k] then k else Ones(mask, k + 1)
  }

  // ----- what the nodes stand for -----

  function Kid(n: Node, b: bool): int { if b then n.right else n.left }

  function WithKid(n: Node, b: bool, x: int): Node { if b then n.(right := x) else n.(left := x) }

  /** Where a path leads, or nowhere. */
  function Place(at: Places, p: Path): int { if p in at then at[p] else NULL }

  /** The node at a path has the children and the parent that the paths say. */
  ghost predicate Fits(nodes: Nodes, at: Places, p: Path)
    requires p in at
  {
    && at[p] in nodes && Length(p) <= 32 && (p.Snoc? ==> p.init in at)
    && nodes[at[p]].right == Place(at, Snoc(p, true)) && nodes[at[p]].left == Place(at, Snoc(p, false))
    && nodes[at[p]].parent == (if p.Nil? then NULL else Place(at, p.init))
  }

  ghost predicate Distinct(at: Places) { forall p, q :: p in at && q in at && at[p] == at[q] ==> p == q }

  ghost predicate Shape(nodes: Nodes, root: Ref, at: Places) {
    Nil in at && at[Nil] == root && Distinct(at) && forall p {:trigger Fits(nodes, at, p)} :: p in at ==> Fits(nodes, at, p)
  }

  function FreeAt(q: seq<Ref>, k: nat): int { if k < |q| then q[k] else NULL }

  /** The free list, linked through `right`; none of its nodes is in the tree. */
  ghost predicate FreeList(nodes: Nodes, at: Places, head: int, q: seq<Ref>) {
    && NoRepeats(q) && head == FreeAt(q, 0)
    && forall k :: 0 <= k < |q| ==> q[k] in nodes && q[k] !in at.Values && nodes[q[k]].right == FreeAt(q, k + 1)
  }

  function TableOf(nodes: Nodes, at: Places): Table {
    map p | p in at && at[p] in nodes && nodes[at[p]].value != NO_VALUE :: nodes[at[p]].value
  }

  lemma FitsAt(nodes: Nodes, root: Ref, at: Places, p: Path)
    requires Shape(nodes, root, at) && p in at
    ensures at[p] in nodes && Fits(nodes, at, p)
  {
    assert Fits(nodes, at, p);
  }

  /** Once a path ends, no longer one goes on. */
  lemma {:induction false} NothingBelow(nodes: Nodes, root: Ref, at: Places, key: Key, k: nat, j: nat)
    requires Shape(nodes, root, at) && k <= j <= 32 && Upto(key, k) !in at
    ensures Upto(key, j) !in at
    decreases j
  {
    if k < j {
      NothingBelow(nodes, root, at, key, k, j - 1);
      if Upto(key, j) in at { FitsAt(nodes, root, at, Upto(key, j)); }
    }
  }

  lemma LongestCut(nodes: Nodes, root: Ref, at: Places, key: Key, k: nat)
    requires Shape(nodes, root, at) && k < 32 && Upto(key, k + 1) !in at
    ensures Longest(TableOf(nodes, at), key, 32) == Longest(TableOf(nodes, at), key, k)
  {
    forall i | k < i <= 32 ensures Upto(key, i) !in at { NothingBelow(nodes, root, at, key, k + 1, i); }
    LongestSkip(TableOf(nodes, at), key, k, 32);
  }

  lemma {:induction false} LongestSkip(table: Table, key: Key, k: nat, j: nat)
    requires k <= j <= 32 && forall i :: k < i <= j ==> Upto(key, i) !in table
    ensures Longest(table, key, j) == Longest(table, key, k)
  {
    if k < j { LongestSkip(table, key, k, j - 1); }
  }

  // ----- steps -----

  /** A new node below p on side b. */
  function Attached(nodes: Nodes, at: Places, p: Path, b: bool, x: Ref): Nodes
    requires p in at && at[p] in nodes
  {
    nodes[x := Node(NULL, NULL, at[p], NO_VALUE)][at[p] := WithKid(nodes[at[p]], b, x)]
  }

  lemma AttachedFits(nodes: Nodes, root: Ref, at: Places, p: Path, b: bool, x: Ref, q: Path)
    requires Shape(nodes, root, at) && p in at && Length(p) < 32 && Snoc(p, b) !in at && x !in at.Values && q in at
    ensures at[p] in nodes && Fits(Attached(nodes, at, p, b, x), at[Snoc(p, b) := x], q)
  {
    FitsAt(nodes, root, at, p);
    FitsAt(nodes, root, at, q);
  }

  lemma AttachedShape(nodes: Nodes, root: Ref, at: Places, p: Path, b: bool, x: Ref)
    requires Shape(nodes, root, at) && p in at && Length(p) < 32 && Snoc(p, b) !in at && x !in at.Values
    ensures at[p] in nodes && Shape(Attached(nodes, at, p, b, x), root, at[Snoc(p, b) := x])
    ensures TableOf(Attached(nodes, at, p, b, x), at[Snoc(p, b) := x]) == TableOf(nodes, at)
  {
    FitsAt(nodes, root, at, p);
    var y, nodes', at' := Snoc(p, b), Attached(nodes, at, p, b, x), at[Snoc(p, b) := x];
    forall c ensures Snoc(y, c) !in at { if Snoc(y, c) in at { FitsAt(nodes, root, at, Snoc(y, c)); } }
    forall q {:trigger Fits(nodes', at', q)} | q in at' ensures Fits(nodes', at', q) {
      if q != y { AttachedFits(nodes, root, at, p, b, x, q); }
    }
    forall q | q in at ensures at[q] in nodes { FitsAt(nodes, root, at, q); }
    SameTable(nodes, at, nodes', at');
  }

  /** A node without children, other than the root, leaves the tree. */
  function Detached(nodes: Nodes, at: Places, p: Path, free: int): Nodes
    requires p.Snoc? && p in at && at[p] in nodes && p.init in at && at[p.init] in nodes
  {
    var mid := nodes[at[p.init] := WithKid(nodes[at[p.init]], p.bit, NULL)];
    mid[at[p] := mid[at[p]].(right := free)]
  }

  lemma DetachedFits(nodes: Nodes, root: Ref, at: Places, p: Path, free: int, q: Path)
    requires Shape(nodes, root, at) && p.Snoc? && p in at && q in at && q != p
    requires Snoc(p, true) !in at && Snoc(p, false) !in at
    ensures at[p] in nodes && p.init in at && at[p.init] in nodes && Fits(Detached(nodes, at, p, free), at - {p}, q)
  {
    FitsAt(nodes, root, at, p);
    FitsAt(nodes, root, at, p.init);
    FitsAt(nodes, root, at, q);
    if q.Snoc? { assert q == Snoc(q.init, q.bit); }
  }

  lemma DetachedShape(nodes: Nodes, root: Ref, at: Places, p: Path, free: int)
    requires Shape(nodes, root, at) && p.Snoc? && p in at && Snoc(p, true) !in at && Snoc(p, false) !in at
    ensures at[p] in nodes && p.init in at && at[p.init] in nodes && Shape(Detached(nodes, at, p, free), root, at - {p})
    ensures TableOf(Detached(nodes, at, p, free), at - {p}) == TableOf(nodes, at) - {p}
  {
    FitsAt(nodes, root, at, p);
    FitsAt(nodes, root, at, p.init);
    var nodes', at' := Detached(nodes, at, p, free), at - {p};
    forall q {:trigger Fits(nodes', at', q)} | q in at' ensures Fits(nodes', at', q) { DetachedFits(nodes, root, at, p, free, q); }
    forall q | q in at ensures at[q] in nodes { FitsAt(nodes, root, at, q); }
    LessTable(nodes, at, nodes', p);
  }

  lemma LessTable(nodes: Nodes, at: Places, nodes': Nodes, p: Path)
    requires forall q <- at :: at[q] in nodes && at[q] in nodes' && nodes'[at[q]].value == nodes[at[q]].value
    ensures TableOf(nodes', at - {p}) == TableOf(nodes, at) - {p}
  {
  }

  /** The value of one node is set. */
  lemma ValueShape(nodes: Nodes, root: Ref, at: Places, p: Path, v: int)
    requires Shape(nodes, root, at) && p in at
    ensures at[p] in nodes && Shape(nodes[at[p] := nodes[at[p]].(value := v)], root, at)
    ensures TableOf(nodes[at[p] := nodes[at[p]].(value := v)], at)
         == if v == NO_VALUE then TableOf(nodes, at) - {p} else TableOf(nodes, at)[p := v]
  {
    FitsAt(nodes, root, at, p);
    var nodes' := nodes[at[p] := nodes[at[p]].(value := v)];
    forall q {:trigger Fits(nodes', at, q)} | q in at ensures Fits(nodes', at, q) { FitsAt(nodes, root, at, q); }
    forall q | q in at ensures at[q] in nodes && (q != p ==> at[q] != at[p]) { FitsAt(nodes, root, at, q); }
    SetTable(nodes, at, p, v);
  }

  lemma SetTable(nodes: Nodes, at: Places, p: Path, v: int)
    requires p in at && at[p] in nodes && Distinct(at) && forall q <- at :: at[q] in nodes
    ensures TableOf(nodes[at[p] := nodes[at[p]].(value := v)], at)
         == if v == NO_VALUE then TableOf(nodes, at) - {p} else TableOf(nodes, at)[p := v]
  {
  }

  lemma SameTable(nodes: Nodes, at: Places, nodes': Nodes, at': Places)
    requires forall q <- at :: q in at' && at'[q] == at[q] && at[q] in nodes && at[q] in nodes' && nodes'[at[q]].value == nodes[at[q]].value
    requires forall q <- at' :: q in at || (at'[q] in nodes' && nodes'[at'[q]].value == NO_VALUE)
    ensures TableOf(nodes', at') == TableOf(nodes, at)
  {
  }

  // ----- the free list -----

  /** The first free node is about to be used. */
  lemma Popped(nodes: Nodes, at: Places, head: int, q: seq<Ref>)
    requires FreeList(nodes, at, head, q) && head != NULL
    ensures q != [] && head == q[0] && q[0] in nodes && q[0] !in at.Values && q[0] !in q[1..]
    ensures FreeList(nodes, at, nodes[q[0]].right, q[1..])
  {
  }

  /** Nodes outside the list change, and one outside it joins the tree. */
  lemma SameFree(nodes: Nodes, at: Places, head: int, q: seq<Ref>, nodes': Nodes, at': Places)
    requires FreeList(nodes, at, head, q)
    requires forall x <- q :: x in nodes' && nodes'[x] == nodes[x] && x !in at'.Values
    ensures FreeList(nodes', at', head, q)
  {
    assert forall k :: 0 <= k < |q| ==> q[k] in q;
  }

  lemma DetachedFree(nodes: Nodes, root: Ref, at: Places, p: Path, head: int, q: seq<Ref>)
    requires Shape(nodes, root, at) && FreeList(nodes, at, head, q) && p.Snoc? && p in at
    ensures at[p] in nodes && p.init in at && at[p.init] in nodes
    ensures FreeList(Detached(nodes, at, p, head), at - {p}, at[p], [at[p]] + q)
  {
    FitsAt(nodes, root, at, p);
    FitsAt(nodes, root, at, p.init);
    var nodes', q' := Detached(nodes, at, p, head), [at[p]] + q;
    assert forall k :: 0 <= k < |q| ==> q[k] != at[p] && q[k] != at[p.init];
    assert forall k :: 0 < k < |q'| ==> q'[k] == q[k - 1];
    assert forall x <- (at - {p}).Values :: x in at.Values;
  }

  // ----- the tree itself -----

  ghost predicate Sealed(s: Seal, nodes: Nodes, root: Ref, at: Places, free: int, spare: seq<Ref>, table: Table) {
    match s
    case Bare => Shape(nodes, root, at) && FreeList(nodes, at, free, spare) && table == TableOf(nodes, at)
    case Wrapped(inner) => Sealed(inner, nodes, root, at, free, spare, table)
  }

  lemma Opens(nodes: Nodes, root: Ref, at: Places, free: int, spare: seq<Ref>, table: Table)
    ensures Sealed(SEAL, nodes, root, at, free, spare, table) <==> Shape(nodes, root, at) && FreeList(nodes, at, free, spare) && table == TableOf(nodes, at)
  {
    assert Sealed(Wrapped(Bare), nodes, root, at, free, spare, table) <==> Shape(nodes, root, at) && FreeList(nodes, at, free, spare) && table == TableOf(nodes, at);
    assert Sealed(Wrapped(Wrapped(Bare)), nodes, root, at, free, spare, table) <==> Shape(nodes, root, at) && FreeList(nodes, at, free, spare) && table == TableOf(nodes, at);
  }

  /** NGX_OK, NGX_BUSY, NGX_ERROR; Fault stands for a null pointer that is followed. */
  datatype Code = Ok | Busy | Error | Fault

  /** Every node on the way to one that is there has a child. */
  lemma {:induction false} AboveHave(nodes: Nodes, root: Ref, at: Places, key: Key, k: nat)
    requires Shape(nodes, root, at) && k <= 32 && Upto(key, k) in at
    ensures forall j {:trigger Upto(key, j)} :: 0 <= j < k ==> Snoc(Upto(key, j), true) in at || Snoc(Upto(key, j), false) in at
  {
    if k > 0 {
      FitsAt(nodes, root, at, Upto(key, k));
      AboveHave(nodes, root, at, key, k - 1);
    }
  }

  /** How many of the nodes on the way of the key down to depth n are not there. */
  ghost function Missing(at: Places, key: Key, n: nat): nat
    requires n <= 32
  {
    if n == 0 then 0 else Missing(at, key, n - 1) + if Upto(key, n) in at then 0 else 1
  }

  lemma {:induction false} AllThere(nodes: Nodes, root: Ref, at: Places, key: Key, n: nat)
    requires Shape(nodes, root, at) && n <= 32 && Upto(key, n) in at
    ensures Missing(at, key, n) == 0
  {
    if n > 0 {
      FitsAt(nodes, root, at, Upto(key, n));
      AllThere(nodes, root, at, key, n - 1);
    }
  }

  lemma {:induction false} MissingBelow(at: Places, key: Key, i: nat, n: nat)
    requires i <= n <= 32 && forall j :: i < j <= n ==> Upto(key, j) !in at
    ensures Missing(at, key, n) == Missing(at, key, i) + n - i
  {
    if i < n { MissingBelow(at, key, i, n - 1); }
  }

  /** ngx_radix_tree_t */
  class RadixTree {
    var nodes: Nodes
    var root: Ref
    var free: int
    ghost var at: Places
    ghost var spare: seq<Ref>
    ghost var table: Table       // what is stored

    ghost predicate Valid()
      reads this
    {
      Sealed(SEAL, nodes, root, at, free, spare, table)
    }

    /** ngx_radix_tree_create, without preallocation */
    constructor (x: Ref)
      ensures Valid() && table == map[]
    {
      nodes, root, free := map[x := Node(NULL, NULL, NULL, NO_VALUE)], x, NULL;
      at, spare, table := map[Nil := x], [], map[];
      new;
      Opens(nodes, root, at, free, spare, table);
      forall p {:trigger Fits(nodes, at, p)} | p in at ensures Fits(nodes, at, p) {}
    }

    /** ngx_radix32tree_find: the longest stored prefix of the key. */
    method Find(key: Key) returns (value: int)
      requires Valid()
      ensures value == Longest(table, key, 32)
    {
      Opens(nodes, root, at, free, spare, table);
      value := NO_VALUE;
      var node: int := root;
      var i := 0;
      while node != NULL
        invariant 0 <= i <= 33 && node == (if i <= 32 then Place(at, Upto(key, i)) else NULL)
        invariant value == if i == 0 then NO_VALUE else Longest(table, key, i - 1)
        invariant i > 0 ==> Upto(key, i - 1) in at
        decreases 33 - i
      {
        FitsAt(nodes, root, at, Upto(key, i));
        if nodes[node].value != NO_VALUE { value := nodes[node].value; }
        var bit := i < 32 && key[i];
        if i == 32 { Deepest(nodes, root, at, Upto(key, 32)); }
        node := Kid(nodes[node], bit);
        i := i + 1;
      }
      if i <= 32 { LongestCut(nodes, root, at, key, i - 1); }
    }

    /** ngx_radix_alloc: a recycled node, or the next that the memory pool gives. */
    method Alloc(supply: seq<Ref>) returns (x: int, rest: seq<Ref>)
      requires Valid() && Fresh(supply)
      modifies `free, `spare
      ensures Valid() && Fresh(rest)
      ensures if x == NULL then spare == old(spare) == [] && rest == supply == [] else |spare| + |rest| + 1 == |old(spare)| + |supply|
      ensures x != NULL ==> x >= 0 && x !in at.Values && x !in spare && x !in rest
    {
      Opens(nodes, root, at, free, spare, table);
      if free != NULL {
        Popped(nodes, at, free, spare);
        x, rest := free, supply;
        free := nodes[free].right;
        spare := spare[1..];
        Opens(nodes, root, at, free, spare, table);
      } else if supply == [] {
        x, rest := NULL, supply;
      } else {
        x, rest := supply[0], supply[1..];
        forall p | p in at ensures at[p] in nodes { FitsAt(nodes, root, at, p); }
      }
    }

    /** Addresses that no node has, no two alike. */
    ghost predicate Fresh(supply: seq<Ref>)
      reads this
    {
      NoRepeats(supply) && forall x <- supply :: x !in nodes
    }

    /** A new node below p on side b. */
    method Attach(x: Ref, node: Ref, b: bool, ghost p: Path, ghost rest: seq<Ref>)
      requires Valid() && p in at && at[p] == node && Length(p) < 32 && Snoc(p, b) !in at
      requires x !in at.Values && x !in spare && Fresh(rest) && x !in rest
      modifies `nodes, `at
      ensures Valid() && spare == old(spare) && table == old(table) && at == old(at)[Snoc(p, b) := x] && Fresh(rest)
    {
      Opens(nodes, root, at, free, spare, table);
      AttachedShape(nodes, root, at, p, b, x);
      FitsAt(nodes, root, at, p);
      ghost var before, places := nodes, at;
      nodes := nodes[x := Node(NULL, NULL, node, NO_VALUE)];
      nodes := nodes[node := WithKid(nodes[node], b, x)];
      at := at[Snoc(p, b) := x];
      SameFree(before, places, free, spare, nodes, at);
      Opens(nodes, root, at, free, spare, table);
    }

    /** The value of a node is set. */
    method SetValue(node: Ref, value: int, ghost p: Path)
      requires Valid() && p in at && at[p] == node
      modifies `nodes, `table
      ensures Valid() && table == if value == NO_VALUE then old(table) - {p} else old(table)[p := value]
    {
      Opens(nodes, root, at, free, spare, table);
      ValueShape(nodes, root, at, p, value);
      ghost var before := nodes;
      nodes := nodes[node := nodes[node].(value := value)];
      table := TableOf(nodes, at);
      SameFree(before, at, free, spare, nodes, at);
      Opens(nodes, root, at, free, spare, table);
    }

    /** Down the tree as far as the mask and the nodes go. */
    method Walk(key: Key, mask: Key) returns (node: Ref, i: nat, found: bool)
      requires Valid()
      ensures i <= Ones(mask, 0) && Upto(key, i) in at && node == at[Upto(key, i)]
      ensures found ==> i == Ones(mask, 0)
      ensures !found ==> i < Ones(mask, 0) && Upto(key, i + 1) !in at
    {
      Opens(nodes, root, at, free, spare, table);
      node, i, found := root, 0, true;
      while i < 32 && mask[i]
        invariant i <= Ones(mask, 0) && Ones(mask, i) == Ones(mask, 0)
        invariant Upto(key, i) in at && node == at[Upto(key, i)]
        decreases 32 - i
      {
        FitsAt(nodes, root, at, Upto(key, i));
        var next := Kid(nodes[node], key[i]);
        if next == NULL { return node, i, false; }
        node := next;
        i := i + 1;
      }
    }

    /** ngx_radix32tree_insert: a prefix that is there is left alone, another one is added;
        without memory the stored prefixes stay as they are. */
    method Insert(key: Key, mask: Key, value: int, supply: seq<Ref>) returns (rc: Code)
      requires Valid() && Fresh(supply)
      modifies this
      ensures Valid() && root == old(root)
      ensures var p := Upto(key, Ones(mask, 0));
        && (rc == Busy <==> p in old(table))
        && table == (if rc == Ok && value != NO_VALUE then old(table)[p := value] else old(table))
        && (rc == Error <==> |old(spare)| + |supply| < Missing(old(at), key, Ones(mask, 0)))
      ensures rc == Ok || rc == Busy || rc == Error
    {
      Opens(nodes, root, at, free, spare, table);
      ghost var last := Ones(mask, 0);
      var node, i, found := Walk(key, mask);
      FitsAt(nodes, root, at, Upto(key, i));
      AllThere(nodes, root, at, key, i);
      if found {
        if nodes[node].value != NO_VALUE { return Busy; }
        SetValue(node, value, Upto(key, i));
        return Ok;
      }
      forall j | i < j <= 32 ensures Upto(key, j) !in at { NothingBelow(nodes, root, at, key, i + 1, j); }
      MissingBelow(at, key, i, last);
      var ok;
      node, ok := Grow(key, mask, node, i, supply);
      if !ok { return Error; }
      SetValue(node, value, Upto(key, last));
      return Ok;
    }

    /** No node is deeper than i on the way of the key. */
    ghost predicate EndsAt(key: Key, i: nat)
      reads this
    {
      i <= 32 && Upto(key, i) in at && forall j :: i < j <= 32 ==> Upto(key, j) !in at
    }

    /** The missing nodes of a prefix are made. */
    method Grow(key: Key, mask: Key, node0: Ref, start: nat, supply: seq<Ref>) returns (node: Ref, ok: bool)
      requires Valid() && Fresh(supply) && start <= Ones(mask, 0) && Ones(mask, start) == Ones(mask, 0)
      requires EndsAt(key, start) && node0 == at[Upto(key, start)]
      modifies this
      ensures Valid() && table == old(table) && root == old(root)
      ensures ok <==> |old(spare)| + |supply| >= Ones(mask, 0) - start
      ensures ok ==> Upto(key, Ones(mask, 0)) in at && node == at[Upto(key, Ones(mask, 0))]
    {
      var i, rest := start, supply;
      node := node0;
      while i < 32 && mask[i]
        invariant start <= i <= Ones(mask, 0) && Ones(mask, i) == Ones(mask, 0)
        invariant Valid() && table == old(table) && root == old(root) && Fresh(rest)
        invariant |spare| + |rest| + i == |old(spare)| + |supply| + start
        invariant EndsAt(key, i) && node == at[Upto(key, i)]
        decreases 32 - i
      {
        ok, node, rest := GrowOne(key, node, i, rest);
        if !ok { return; }
        i := i + 1;
      }
      ok := true;
    }

    method GrowOne(key: Key, node: Ref, i: nat, supply: seq<Ref>) returns (ok: bool, x: Ref, rest: seq<Ref>)
      requires Valid() && Fresh(supply) && i < 32 && EndsAt(key, i) && node == at[Upto(key, i)]
      modifies this
      ensures Valid() && table == old(table) && root == old(root) && Fresh(rest)
      ensures if ok then EndsAt(key, i + 1) && x == at[Upto(key, i + 1)] && |spare| + |rest| + 1 == |old(spare)| + |supply|
              else |old(spare)| + |supply| == 0
    {
      var y, more := Alloc(supply);
      if y == NULL { return false, node, more; }
      assert Upto(key, i + 1) == Snoc(Upto(key, i), key[i]);
      Attach(y, node, key[i], Upto(key, i), more);
      forall j | i + 1 < j <= 32 ensures Upto(key, j) !in at { assert Length(Upto(key, j)) != Length(Upto(key, i + 1)); }
      return true, y, more;
    }

    /** A leaf other than the root goes to the free list. */
    method Detach(node: Ref, ghost p: Path) returns (parent: Ref)
      requires Valid() && p.Snoc? && p in at && at[p] == node && Snoc(p, true) !in at && Snoc(p, false) !in at
      modifies this
      ensures Valid() && root == old(root) && at == old(at) - {p} && p.init in at && parent == at[p.init]
      ensures table == old(table) - {p} && |spare| == |old(spare)| + 1
    {
      Opens(nodes, root, at, free, spare, table);
      FitsAt(nodes, root, at, p);
      FitsAt(nodes, root, at, p.init);
      DetachedShape(nodes, root, at, p, free);
      DetachedFree(nodes, root, at, p, free, spare);
      parent := nodes[node].parent;
      if nodes[parent].right == node {
        nodes := nodes[parent := nodes[parent].(right := NULL)];
      } else {
        nodes := nodes[parent := nodes[parent].(left := NULL)];
      }
      nodes := nodes[node := nodes[node].(right := free)];
      free := node;
      spare := [node] + spare;
      at := at - {p};
      table := table - {p};
      Opens(nodes, root, at, free, spare, table);
    }

    /** ngx_radix32tree_delete: exactly the prefix is gone.  It succeeds when the prefix was
        stored, and also for a leaf that stores nothing.  For a leaf that is the root it
        follows the root's null parent before anything is written. */
    method Delete(key: Key, mask: Key) returns (rc: Code)
      requires Valid()
      modifies this
      ensures Valid() && root == old(root)
      ensures var p := Upto(key, Ones(mask, 0));
        var leaf := Snoc(p, false) !in old(at) && Snoc(p, true) !in old(at);
        && (rc == Fault <==> p == Nil && leaf)
        && (rc == Ok <==> p in old(at) && (p in old(table) || leaf) && rc != Fault)
        && (rc == Error <==> p !in old(at) || (p !in old(table) && !leaf))
        && table == (if rc == Fault then old(table) else old(table) - {p})
        && (rc == Ok && leaf ==> NoIdle(key, Ones(mask, 0)))
        && (!(rc == Ok && leaf) ==> at == old(at) && spare == old(spare))
      ensures |spare| + |at| == |old(spare)| + |old(at)|
    {
      Opens(nodes, root, at, free, spare, table);
      var node, i, found := Walk(key, mask);
      FitsAt(nodes, root, at, Upto(key, i));
      if !found {
        NothingBelow(nodes, root, at, key, i + 1, Ones(mask, 0));
        return Error;
      }
      ghost var p := Upto(key, i);
      if nodes[node].right != NULL || nodes[node].left != NULL {
        if nodes[node].value == NO_VALUE { return Error; }
        SetValue(node, NO_VALUE, p);
        return Ok;
      }
      if nodes[node].parent == NULL { return Fault; }
      Prune(node, key, i);
      return Ok;
    }

    /** Every node on the way of the key down to depth n stores a value, has a child or is
        the root. */
    ghost predicate NoIdle(key: Key, n: nat)
      reads this
      requires n <= 32
    {
      forall j {:trigger Upto(key, j)} :: 0 < j <= n && Upto(key, j) in at ==>
        Upto(key, j) in table || Snoc(Upto(key, j), true) in at || Snoc(Upto(key, j), false) in at
    }

    /** A leaf goes, and with it every ancestor that is then a leaf without a value. */
    method Prune(node0: Ref, ghost key: Key, ghost n: nat)
      requires Valid() && 0 < n <= 32 && Upto(key, n) in at && at[Upto(key, n)] == node0
      requires Snoc(Upto(key, n), true) !in at && Snoc(Upto(key, n), false) !in at
      modifies this
      ensures Valid() && root == old(root) && table == old(table) - {Upto(key, n)} && NoIdle(key, n)
      ensures |spare| + |at| == |old(spare)| + |old(at)|
    {
      ghost var k: int := n - 1;
      var node := Detach(node0, Upto(key, n));
      while Idle(node, Upto(key, k))
        invariant Valid() && root == old(root) && table == old(table) - {Upto(key, n)}
        invariant 0 <= k < n && Upto(key, k) in at && at[Upto(key, k)] == node && forall j :: k < j <= n ==> Upto(key, j) !in at
        invariant |spare| + |at| == |old(spare)| + |old(at)|
        decreases k
      {
        node := Detach(node, Upto(key, k));
        k := k - 1;
      }
      Opens(nodes, root, at, free, spare, table);
      AboveHave(nodes, root, at, key, k);
    }

    /** A leaf without a value that is not the root. */
    predicate Idle(node: Ref, ghost p: Path)
      reads this
      requires Valid() && p in at && at[p] == node
      ensures Idle(node, p) ==> p.Snoc? && Snoc(p, true) !in at && Snoc(p, false) !in at && table - {p} == table
      ensures !Idle(node, p) ==> p.Nil? || Snoc(p, true) in at || Snoc(p, false) in at || p in table
    {
      Opens(nodes, root, at, free, spare, table);
      FitsAt(nodes, root, at, p);
      nodes[node].right == NULL && nodes[node].left == NULL && nodes[node].value == NO_VALUE && nodes[node].parent != NULL
    }
  }

  /** Paths have at most 32 bits. */
  lemma Deepest(nodes: Nodes, root: Ref, at: Places, p: Path)
    requires Shape(nodes, root, at) && Length(p) == 32
    ensures forall b :: Snoc(p, b) !in at
  {
    forall b ensures Snoc(p, b) !in at { if Snoc(p, b) in at { FitsAt(nodes, root, at, Snoc(p, b)); } }
  }
}
