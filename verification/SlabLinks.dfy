/** The lists of nginx/src/core/ngx_slab.c together: one for each slot and one of free
    runs, over one array of descriptors.  Descriptors 0..n are the pages, n..n+9 the slots
    and n+9 is pool->free. */
module SlabLinks {
  import opened Lists
  import opened SlabPool
  import opened SlabNodes

  ghost predicate Links(nodes: seq<Node>, n: nat, all: seq<seq<nat>>) {
    && |all| == SLOTS + 1 && |nodes| == n + SLOTS + 1
    && (forall s :: 0 <= s <= SLOTS ==> OneList(nodes, n, s, all[s]))
    && (forall s, t :: 0 <= s < t <= SLOTS ==> Separate(all[s], all[t]))
  }

  ghost predicate OneList(nodes: seq<Node>, n: nat, s: nat, q: seq<nat>) {
    IsList(nodes, n + s, q) && forall k :: 0 <= k < |q| ==> q[k] < n
  }

  ghost predicate Separate(q: seq<nat>, r: seq<nat>) { forall x <- q :: x !in r }

  ghost predicate Nowhere(all: seq<seq<nat>>, x: nat) { forall s :: 0 <= s < |all| ==> x !in all[s] }

  /** Two lists have no node in common. */
  lemma NoShare(nodes: seq<Node>, n: nat, all: seq<seq<nat>>, s: nat, t: nat, i: nat, j: nat)
    requires Links(nodes, n, all) && s <= SLOTS && t <= SLOTS && s != t
    ensures At(n + s, all[s], i) != At(n + t, all[t], j)
  {
    assert OneList(nodes, n, s, all[s]) && OneList(nodes, n, t, all[t]);
    assert Separate(all[if s < t then s else t], all[if s < t then t else s]);
    if 1 <= i <= |all[s]| { assert all[s][i - 1] in all[s] && all[s][i - 1] < n; }
    if 1 <= j <= |all[t]| { assert all[t][j - 1] in all[t] && all[t][j - 1] < n; }
  }

  /** List t is not touched by what happens to two nodes of list s and to the node x. */
  lemma Untouched(nodes: seq<Node>, nodes': seq<Node>, n: nat, all: seq<seq<nat>>, s: nat, t: nat, i: nat, j: nat, x: nat)
    requires Links(nodes, n, all) && s <= SLOTS && t <= SLOTS && s != t && |nodes'| == |nodes| && x < n && x !in all[t]
    requires forall y :: 0 <= y < |nodes| && y != At(n + s, all[s], i) && y != At(n + s, all[s], j) && y != x ==> nodes'[y] == nodes[y]
    ensures OneList(nodes', n, t, all[t])
  {
    assert OneList(nodes, n, t, all[t]);
    NoShare(nodes, n, all, s, t, i, 0);
    NoShare(nodes, n, all, s, t, j, 0);
    forall k | 0 <= k < |all[t]| ensures nodes'[all[t][k]] == nodes[all[t][k]] {
      NoShare(nodes, n, all, s, t, i, k + 1);
      NoShare(nodes, n, all, s, t, j, k + 1);
      assert At(n + t, all[t], k + 1) == all[t][k] && all[t][k] in all[t];
    }
    SameList(nodes, nodes', n + t, all[t]);
  }

  /** The k-th page leaves list s. */
  lemma UnlinkLinks(nodes: seq<Node>, n: nat, all: seq<seq<nat>>, s: nat, k: nat, all': seq<seq<nat>>)
    requires Links(nodes, n, all) && s <= SLOTS && k < |all[s]| && all' == all[s := all[s][..k] + all[s][k + 1..]]
    ensures var x := all[s][k];
      && x < n && 0 <= nodes[x].prev.to < |nodes| && 0 <= nodes[x].next < |nodes|
      && Links(Unlinked(nodes, x), n, all') && Nowhere(all', x) && Unlinked(nodes, x)[x] == nodes[x]
  {
    assert OneList(nodes, n, s, all[s]);
    var q, x := all[s], all[s][k];
    Neighbours(nodes, n + s, q, k);
    UnlinkedList(nodes, n + s, q, k);
    var nodes' := Unlinked(nodes, x);
    forall t | 0 <= t <= SLOTS && t != s ensures OneList(nodes', n, t, all[t]) && x !in all[t] {
      if x in all[t] { NotInBoth(nodes, n, all, s, t, x); }
      Untouched(nodes, nodes', n, all, s, t, k, k + 2, x);
    }
    Shorter(all[s], k);
    Different(n + s, q, k, k + 1);
    Different(n + s, q, k + 1, k + 2);
    forall t, u | 0 <= t < u <= SLOTS ensures Separate(all'[t], all'[u]) { assert Separate(all[t], all[u]); }
    assert OneList(nodes', n, s, all'[s]);
  }

  lemma NotInBoth(nodes: seq<Node>, n: nat, all: seq<seq<nat>>, s: nat, t: nat, x: nat)
    requires Links(nodes, n, all) && s <= SLOTS && t <= SLOTS && s != t && x in all[s]
    ensures x !in all[t]
  {
    assert Separate(all[if s < t then s else t], all[if s < t then t else s]);
  }

  lemma Shorter(q: seq<nat>, k: nat)
    requires k < |q| && NoRepeats(q)
    ensures var r := q[..k] + q[k + 1..]; q[k] !in r && (forall y <- r :: y in q) && forall j :: 0 <= j < |r| ==> r[j] in q
  {
    var r := q[..k] + q[k + 1..];
    assert forall j :: 0 <= j < |r| ==> r[j] == q[if j < k then j else j + 1];
  }

  /** A page in no list is put at the front of list s. */
  lemma PushLinks(nodes: seq<Node>, n: nat, all: seq<seq<nat>>, s: nat, x: nat, tag: Tag)
    requires Links(nodes, n, all) && s <= SLOTS && x < n && Nowhere(all, x)
    ensures 0 <= nodes[n + s].next < |nodes| && Links(Pushed(nodes, n + s, x, tag), n, all[s := [x] + all[s]])
  {
    assert OneList(nodes, n, s, all[s]);
    First(nodes, n + s, all[s]);
    PushedList(nodes, n + s, all[s], x, tag);
    var nodes', all' := Pushed(nodes, n + s, x, tag), all[s := [x] + all[s]];
    forall t | 0 <= t <= SLOTS && t != s ensures OneList(nodes', n, t, all[t]) {
      Untouched(nodes, nodes', n, all, s, t, 0, 1, x);
    }
    assert forall j :: 0 < j < |all'[s]| ==> all'[s][j] == all[s][j - 1];
    assert OneList(nodes', n, s, all'[s]);
    forall t, u | 0 <= t < u <= SLOTS ensures Separate(all'[t], all'[u]) { assert Separate(all[t], all[u]); }
  }

  /** A page in no list takes the place of the k-th page of list s. */
  lemma SwapLinks(nodes: seq<Node>, n: nat, all: seq<seq<nat>>, s: nat, k: nat, y: nat, r: seq<nat>)
    requires Links(nodes, n, all) && s <= SLOTS && k < |all[s]| && y < n && Nowhere(all, y) && r == all[s][k := y]
    ensures var x := all[s][k];
      && x < n && 0 <= nodes[x].prev.to < |nodes| && 0 <= nodes[x].next < |nodes|
      && Links(Swapped(nodes, x, y), n, all[s := r]) && Nowhere(all[s := r], x)
  {
    assert OneList(nodes, n, s, all[s]);
    var q, x := all[s], all[s][k];
    Neighbours(nodes, n + s, q, k);
    SwappedList(nodes, n + s, q, k, y);
    var nodes' := Swapped(nodes, x, y);
    SwapOthers(nodes, nodes', n, all, s, k, y);
    assert x !in r && forall z <- r :: z in q || z == y;
    assert OneList(nodes', n, s, r);
    StillSeparate(nodes, n, all, all[s := r], s, y);
  }

  lemma StillSeparate(nodes: seq<Node>, n: nat, all: seq<seq<nat>>, all': seq<seq<nat>>, s: nat, y: nat)
    requires Links(nodes, n, all) && s <= SLOTS && Nowhere(all, y) && |all'| == |all| && all' == all[s := all'[s]]
    requires forall z <- all'[s] :: z in all[s] || z == y
    ensures forall t, u :: 0 <= t < u <= SLOTS ==> Separate(all'[t], all'[u])
  {
    forall t, u | 0 <= t < u <= SLOTS ensures Separate(all'[t], all'[u]) { assert Separate(all[t], all[u]); }
  }

  lemma SwapOthers(nodes: seq<Node>, nodes': seq<Node>, n: nat, all: seq<seq<nat>>, s: nat, k: nat, y: nat)
    requires Links(nodes, n, all) && s <= SLOTS && k < |all[s]| && y < n && Nowhere(all, y)
    requires all[s][k] < n && 0 <= nodes[all[s][k]].prev.to == At(n + s, all[s], k) < |nodes|
    requires 0 <= nodes[all[s][k]].next == At(n + s, all[s], k + 2) < |nodes| && nodes' == Swapped(nodes, all[s][k], y)
    ensures forall t :: 0 <= t <= SLOTS && t != s ==> OneList(nodes', n, t, all[t]) && all[s][k] !in all[t]
  {
    var x := all[s][k];
    forall t | 0 <= t <= SLOTS && t != s ensures OneList(nodes', n, t, all[t]) && x !in all[t] {
      assert x in all[s];
      NotInBoth(nodes, n, all, s, t, x);
      Untouched(nodes, nodes', n, all, s, t, k, k + 2, y);
    }
  }

  /** Words change anywhere, links only at pages in no list, `prev` also at the heads. */
  lemma KeepLinks(nodes: seq<Node>, nodes': seq<Node>, n: nat, all: seq<seq<nat>>)
    requires Links(nodes, n, all) && |nodes'| == |nodes|
    requires forall i :: 0 <= i < |nodes| ==>
      if i < n then (nodes'[i].next == nodes[i].next && nodes'[i].prev.to == nodes[i].prev.to) || Nowhere(all, i)
      else nodes'[i].next == nodes[i].next
    ensures Links(nodes', n, all)
  {
    forall t | 0 <= t <= SLOTS ensures OneList(nodes', n, t, all[t]) {
      assert OneList(nodes, n, t, all[t]);
      forall k | 0 <= k < |all[t]| ensures !Nowhere(all, all[t][k]) { assert all[t][k] in all[t]; }
      SameList(nodes, nodes', n + t, all[t]);
    }
  }
}
