/** The page descriptors of nginx/src/core/ngx_slab.c: doubly linked circular lists with
    a type tag kept in the low bits of `prev`. */
module SlabNodes {
  import opened Lists
  import opened SlabPool

  const NULL := -1

  /** NGX_SLAB_PAGE, NGX_SLAB_BIG, NGX_SLAB_EXACT, NGX_SLAB_SMALL */
  datatype Tag = PageTag | BigTag | ExactTag | SmallTag

  /** The word `slab`, by the way it is read: a page count with the start flag, all ones,
      a shift, a bitmap, or a bitmap over a shift. */
  datatype Word = Count(n: nat, start: bool) | Ones | Shift(shift: nat) | Bits(bits: seq<bool>) | Both(bits: seq<bool>, shift: nat)

  datatype Link = Link(to: int, tag: Tag)

  /** ngx_slab_page_t */
  datatype Node = Node(slab: Word, next: int, prev: Link)

  // ----- one list -----

  /** Position k on the way round the list: the head, the elements, the head again. */
  function At(head: nat, q: seq<nat>, k: nat): nat { if 1 <= k <= |q| then q[k - 1] else head }

  ghost predicate Inside(nodes: seq<Node>, head: nat, q: seq<nat>) {
    head < |nodes| && NoRepeats(q) && forall k :: 0 <= k < |q| ==> q[k] < |nodes| && q[k] != head
  }

  ghost predicate IsList(nodes: seq<Node>, head: nat, q: seq<nat>) {
    && Inside(nodes, head, q)
    && (forall k :: 0 <= k <= |q| ==> nodes[At(head, q, k)].next == At(head, q, k + 1))
    && (forall k :: 1 <= k <= |q| ==> nodes[At(head, q, k)].prev.to == At(head, q, k - 1))
  }

  lemma InRange(nodes: seq<Node>, head: nat, q: seq<nat>, k: nat)
    requires Inside(nodes, head, q)
    ensures At(head, q, k) < |nodes|
  {
  }

  /** What stands before and after the k-th element. */
  lemma Neighbours(nodes: seq<Node>, head: nat, q: seq<nat>, k: nat)
    requires IsList(nodes, head, q) && k < |q|
    ensures At(head, q, k + 1) == q[k] && nodes[q[k]].prev.to == At(head, q, k) < |nodes|
    ensures nodes[q[k]].next == At(head, q, k + 2) < |nodes|
  {
    assert At(head, q, k + 1) == q[k];
    InRange(nodes, head, q, k);
    InRange(nodes, head, q, k + 2);
  }

  lemma First(nodes: seq<Node>, head: nat, q: seq<nat>)
    requires IsList(nodes, head, q)
    ensures nodes[head].next == At(head, q, 1) < |nodes|
  {
    assert At(head, q, 0) == head;
    InRange(nodes, head, q, 1);
  }

  /** x leaves its list. */
  function Unlinked(nodes: seq<Node>, x: nat): (r: seq<Node>)
    requires x < |nodes| && 0 <= nodes[x].prev.to < |nodes| && 0 <= nodes[x].next < |nodes|
    ensures |r| == |nodes|
  {
    var p, n := nodes[x].prev, nodes[x].next;
    var mid := nodes[p.to := nodes[p.to].(next := n)];
    mid[n := mid[n].(prev := p)]
  }

  lemma UnlinkedList(nodes: seq<Node>, head: nat, q: seq<nat>, k: nat)
    requires IsList(nodes, head, q) && k < |q|
    ensures 0 <= nodes[q[k]].prev.to < |nodes| && 0 <= nodes[q[k]].next < |nodes|
    ensures IsList(Unlinked(nodes, q[k]), head, q[..k] + q[k + 1..])
  {
    var x := q[k];
    Neighbours(nodes, head, q, k);
    var nodes', q' := Unlinked(nodes, x), q[..k] + q[k + 1..];
    forall j | 0 <= j <= |q| ensures At(head, q', j) == At(head, q, if j <= k then j else j + 1) {}
    assert Inside(nodes', head, q');
    forall j | 0 <= j <= |q'| ensures nodes'[At(head, q', j)].next == At(head, q', j + 1) {
      if j != k { Different(head, q, k, if j < k then j else j + 1); }
    }
    forall j | 1 <= j <= |q'| ensures nodes'[At(head, q', j)].prev.to == At(head, q', j - 1) {
      if j != k + 1 { Different(head, q, k + 2, if j <= k then j else j + 1); }
    }
  }

  /** Different positions hold different nodes, apart from the head's two. */
  lemma Different(head: nat, q: seq<nat>, i: nat, j: nat)
    requires NoRepeats(q) && (forall k :: 0 <= k < |q| ==> q[k] != head) && i != j && i <= |q| + 1 && j <= |q| + 1
    requires !(i == 0 && j == |q| + 1) && !(j == 0 && i == |q| + 1)
    ensures At(head, q, i) != At(head, q, j)
  {
  }

  /** x is put at the front. */
  function Pushed(nodes: seq<Node>, head: nat, x: nat, tag: Tag): (r: seq<Node>)
    requires x < |nodes| && head < |nodes| && 0 <= nodes[head].next < |nodes| && x != head
    ensures |r| == |nodes|
  {
    var n := nodes[head].next;
    var mid := nodes[x := nodes[x].(next := n, prev := Link(head, tag))];
    var mid := mid[head := mid[head].(next := x)];
    mid[n := mid[n].(prev := Link(x, tag))]
  }

  lemma PushedList(nodes: seq<Node>, head: nat, q: seq<nat>, x: nat, tag: Tag)
    requires IsList(nodes, head, q) && x < |nodes| && x != head && x !in q
    ensures 0 <= nodes[head].next < |nodes| && IsList(Pushed(nodes, head, x, tag), head, [x] + q)
  {
    First(nodes, head, q);
    var nodes', q' := Pushed(nodes, head, x, tag), [x] + q;
    forall j | 2 <= j <= |q| + 2 ensures At(head, q', j) == At(head, q, j - 1) {}
    forall j | 0 <= j <= |q'| ensures nodes'[At(head, q', j)].next == At(head, q', j + 1) {}
    forall j | 1 <= j <= |q'| ensures nodes'[At(head, q', j)].prev.to == At(head, q', j - 1) {
      if j > 2 { Different(head, q, 1, j - 1); }
    }
  }

  /** y takes the place of x. */
  function Swapped(nodes: seq<Node>, x: nat, y: nat): (r: seq<Node>)
    requires x < |nodes| && y < |nodes| && 0 <= nodes[x].prev.to < |nodes| && 0 <= nodes[x].next < |nodes|
    ensures |r| == |nodes|
  {
    var p, n := nodes[x].prev, nodes[x].next;
    var mid := nodes[y := nodes[y].(next := n, prev := p)];
    var mid := mid[p.to := mid[p.to].(next := y)];
    mid[n := mid[n].(prev := Link(y, PageTag))]
  }

  lemma SwappedList(nodes: seq<Node>, head: nat, q: seq<nat>, k: nat, y: nat)
    requires IsList(nodes, head, q) && k < |q| && y < |nodes| && y != head && y !in q
    ensures 0 <= nodes[q[k]].prev.to < |nodes| && 0 <= nodes[q[k]].next < |nodes|
    ensures IsList(Swapped(nodes, q[k], y), head, q[k := y])
  {
    var x := q[k];
    Neighbours(nodes, head, q, k);
    var nodes', q' := Swapped(nodes, x, y), q[k := y];
    forall j | 0 <= j <= |q| + 1 && j != k + 1 ensures At(head, q', j) == At(head, q, j) && At(head, q, j) != y {}
    assert At(head, q', k + 1) == y;
    forall j | 0 <= j <= |q'| ensures nodes'[At(head, q', j)].next == At(head, q', j + 1) {
      if j != k && j != k + 1 { Different(head, q, k, j); }
    }
    forall j | 1 <= j <= |q'| ensures nodes'[At(head, q', j)].prev.to == At(head, q', j - 1) {
      if j != k + 2 && j != k + 1 { Different(head, q, k + 2, j); }
    }
  }

  /** A list whose nodes keep their links. */
  lemma SameList(nodes: seq<Node>, nodes': seq<Node>, head: nat, q: seq<nat>)
    requires IsList(nodes, head, q) && |nodes'| == |nodes| && nodes'[head].next == nodes[head].next
    requires forall k :: 0 <= k < |q| ==> nodes'[q[k]].next == nodes[q[k]].next && nodes'[q[k]].prev.to == nodes[q[k]].prev.to
    ensures IsList(nodes', head, q)
  {
  }
}
