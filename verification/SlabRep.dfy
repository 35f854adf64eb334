/** How descriptors and page memory represent a pool, and that the pointer operations of
    nginx/src/core/ngx_slab.c keep it so. */
module SlabRep {
  import opened Lists
  import opened Sealing
  import opened SlabPool
  import opened SlabChunks
  import opened SlabNodes
  import opened SlabLinks

  /** The lists of a pool in the order of their heads. */
  function All(p: Pool): seq<seq<nat>> { p.lists + [p.free] }

  function TagFor(shift: nat): Tag {
    if shift < EXACT_SHIFT then SmallTag else if shift == EXACT_SHIFT then ExactTag else BigTag
  }

  /** A descriptor and the bitmap at the start of its page say what the slab says: small
      chunks keep their bitmap in the page, chunks of 64 bytes in the word `slab`, larger
      ones in its upper half. */
  predicate Reads(node: Node, map_: seq<bool>, s: Slab) {
    match s
    case Pages(n, start) => node.slab == Count(n, start) && node.prev.tag == PageTag
    case Busy => node.slab == Ones && node.prev.tag == PageTag
    case Chunks(shift, bits) =>
      && node.prev.tag == TagFor(shift)
      && (if shift < EXACT_SHIFT then node.slab == Shift(shift) && map_ == bits
          else if shift == EXACT_SHIFT then node.slab == Bits(bits)
          else node.slab == Both(bits, shift))
  }

  ghost predicate Words(nodes: seq<Node>, maps: seq<seq<bool>>, slabs: seq<Slab>) {
    |maps| == |slabs| <= |nodes| && forall i :: 0 <= i < |slabs| ==> Reads(nodes[i], maps[i], slabs[i])
  }

  /** A page in no list has no successor. */
  ghost predicate Idle(nodes: seq<Node>, n: nat, all: seq<seq<nat>>) {
    n <= |nodes| && forall i :: 0 <= i < n && Nowhere(all, i) ==> nodes[i].next == NULL
  }

  ghost predicate Shown(nodes: seq<Node>, maps: seq<seq<bool>>, p: Pool) {
    Links(nodes, |p.slabs|, All(p)) && Words(nodes, maps, p.slabs) && Idle(nodes, |p.slabs|, All(p))
  }

  ghost predicate Sealed(s: Seal, nodes: seq<Node>, maps: seq<seq<bool>>, p: Pool) {
    match s
    case Bare => Shown(nodes, maps, p)
    case Wrapped(inner) => Sealed(inner, nodes, maps, p)
  }

  ghost predicate Shows(nodes: seq<Node>, maps: seq<seq<bool>>, p: Pool) {
    |p.lists| == SLOTS && |nodes| == |p.slabs| + SLOTS + 1 && |maps| == |p.slabs| && Sealed(SEAL, nodes, maps, p)
  }

  lemma ShowsIs(nodes: seq<Node>, maps: seq<seq<bool>>, p: Pool)
    ensures Shows(nodes, maps, p) <==> |p.lists| == SLOTS && Shown(nodes, maps, p)
  {
    assert Sealed(Wrapped(Bare), nodes, maps, p) <==> Shown(nodes, maps, p);
    assert Sealed(Wrapped(Wrapped(Bare)), nodes, maps, p) <==> Shown(nodes, maps, p);
  }

  lemma ReadsAt(nodes: seq<Node>, maps: seq<seq<bool>>, p: Pool, h: nat)
    requires Shows(nodes, maps, p) && h < |p.slabs|
    ensures Reads(nodes[h], maps[h], p.slabs[h])
  {
    ShowsIs(nodes, maps, p);
  }

  lemma IdleNext(nodes: seq<Node>, maps: seq<seq<bool>>, p: Pool, h: nat)
    requires Shows(nodes, maps, p) && h < |p.slabs| && Nowhere(All(p), h)
    ensures nodes[h].next == NULL
  {
    ShowsIs(nodes, maps, p);
  }

  lemma EmptySlot(nodes: seq<Node>, maps: seq<seq<bool>>, p: Pool, slot: nat)
    requires Shows(nodes, maps, p) && slot < SLOTS && p.lists[slot] == []
    ensures nodes[|p.slabs| + slot].next == |p.slabs| + slot
  {
    ShowsIs(nodes, maps, p);
    SlotHead(nodes, |p.slabs|, All(p), slot);
  }

  ghost predicate Rep(nodes: seq<Node>, maps: seq<seq<bool>>, p: Pool) { Ok(p) && Shows(nodes, maps, p) }

  /** A page is in a list exactly when it is a free run or a chunk page with room. */
  lemma ListedWhere(p: Pool, i: nat)
    requires Ok(p) && i < |p.slabs|
    ensures Nowhere(All(p), i) <==> !IsFree(p.slabs[i]) && !(p.slabs[i].Chunks? && HasRoom(p.slabs[i].bits))
  {
    OkIs(p);
    assert All(p)[SLOTS] == p.free;
    forall s | 0 <= s < SLOTS ensures All(p)[s] == p.lists[s] && SlotListed(p, s) {}
    if p.slabs[i].Chunks? && HasRoom(p.slabs[i].bits) {
      assert ChunksOk(p.slabs[i]);
      assert i in All(p)[p.slabs[i].shift - MIN_SHIFT];
    } else if IsFree(p.slabs[i]) {
      assert i in All(p)[SLOTS];
    } else {
      forall s | 0 <= s <= SLOTS ensures i !in All(p)[s] {
        if s < SLOTS { assert SlotListed(p, s); }
      }
    }
  }

  /** A page in a list has a successor. */
  lemma ListedNext(nodes: seq<Node>, n: nat, all: seq<seq<nat>>, s: nat, x: nat)
    requires Links(nodes, n, all) && s <= SLOTS && x in all[s]
    ensures x < n && nodes[x].next != NULL
  {
    assert OneList(nodes, n, s, all[s]);
    var k :| 0 <= k < |all[s]| && all[s][k] == x;
    Neighbours(nodes, n + s, all[s], k);
  }

  /** `next` is null exactly when the page is in no list. */
  lemma NextNull(nodes: seq<Node>, maps: seq<seq<bool>>, p: Pool, i: nat)
    requires Rep(nodes, maps, p) && i < |p.slabs|
    ensures |nodes| > i && (nodes[i].next == NULL <==> Nowhere(All(p), i))
  {
    OkIs(p);
    ShowsIs(nodes, maps, p);
    if !Nowhere(All(p), i) {
      var s :| 0 <= s < |All(p)| && i in All(p)[s];
      ListedNext(nodes, |p.slabs|, All(p), s, i);
    }
  }

  // ----- pages -----

  const TAKEN := Node(Ones, NULL, Link(NULL, PageTag))

  function StartNode(cnt: nat): Node { Node(Count(cnt, true), NULL, Link(NULL, PageTag)) }

  /** The descriptors of an allocated run. */
  function Marked(nodes: seq<Node>, h: nat, cnt: nat): (r: seq<Node>)
    requires h < |nodes|
    ensures |r| == |nodes|
  {
    Filled(nodes, h + 1, h + cnt, TAKEN)[h := StartNode(cnt)]
  }

  /** The free list without the first cnt pages of the run at h. */
  function Shortened(nodes: seq<Node>, h: nat, len: nat, cnt: nat): (r: seq<Node>)
    requires h + len < |nodes| && 1 <= cnt <= len && 0 <= nodes[h].prev.to < |nodes| && 0 <= nodes[h].next < |nodes|
    ensures |r| == |nodes|
  {
    if len > cnt then Swapped(nodes[h + cnt := nodes[h + cnt].(slab := Count(len - cnt, false))], h, h + cnt)
    else Unlinked(nodes, h)
  }

  lemma SplitLinks(nodes: seq<Node>, p: Pool, k: nat, cnt: nat, len: nat)
    requires Ok(p) && Links(nodes, |p.slabs|, All(p)) && k < |p.free| && len == Length(p.slabs[p.free[k]]) && 1 <= cnt < len
    requires p.free[k] + len <= |p.slabs|
    ensures var h := p.free[k];
      && 0 <= nodes[h].prev.to < |nodes| && 0 <= nodes[h].next < |nodes|
      && Links(Shortened(nodes, h, len, cnt), |p.slabs|, All(Cut(p, k, cnt)))
  {
    var n, all, h, p' := |p.slabs|, All(p), p.free[k], Cut(p, k, cnt);
    assert all[SLOTS] == p.free;
    RestUnlisted(p, h, h + cnt);
    var nodes1 := nodes[h + cnt := nodes[h + cnt].(slab := Count(len - cnt, false))];
    KeepLinks(nodes, nodes1, n, all);
    SwapLinks(nodes1, n, all, SLOTS, k, h + cnt, p'.free);
    assert All(p') == all[SLOTS := p'.free];
    assert Shortened(nodes, h, len, cnt) == Swapped(nodes1, h, h + cnt);
  }

  /** A page inside a free run is in no list. */
  lemma RestUnlisted(p: Pool, h: nat, i: nat)
    requires Ok(p) && h in p.free && h < i < h + Length(p.slabs[h])
    ensures i < |p.slabs| && Nowhere(All(p), i)
  {
    OkIs(p);
    assert Owns(p, h);
    OneHead(p, h, i);
    assert Owned(p, i);
    ListedWhere(p, i);
  }

  lemma ShortenedLinks(nodes: seq<Node>, p: Pool, k: nat, cnt: nat, len: nat)
    requires Ok(p) && Links(nodes, |p.slabs|, All(p)) && k < |p.free| && len == Length(p.slabs[p.free[k]]) && 1 <= cnt <= len
    requires p.free[k] + len <= |p.slabs|
    ensures var h := p.free[k];
      && 0 <= nodes[h].prev.to < |nodes| && 0 <= nodes[h].next < |nodes|
      && Links(Shortened(nodes, h, len, cnt), |p.slabs|, All(Cut(p, k, cnt)))
  {
    OkIs(p);
    if len > cnt {
      SplitLinks(nodes, p, k, cnt, len);
    } else {
      var all, p' := All(p), Cut(p, k, cnt);
      assert all[SLOTS] == p.free;
      assert All(p') == all[SLOTS := p.free[..k] + p.free[k + 1..]];
      UnlinkLinks(nodes, |p.slabs|, all, SLOTS, k, All(p'));
    }
  }

  lemma CutLinks(nodes: seq<Node>, nodes': seq<Node>, p: Pool, h: nat, cnt: nat)
    requires Ok(p) && Links(nodes, |p.slabs|, All(p)) && h < |p.slabs| && p.slabs[h] == Pages(cnt, true) && 1 <= cnt
    requires nodes' == Marked(nodes, h, cnt)
    ensures Links(nodes', |p.slabs|, All(p))
  {
    OkIs(p);
    assert Owns(p, h);
    forall i | 0 <= i < |nodes| && nodes'[i] != nodes[i] ensures i < |p.slabs| && Nowhere(All(p), i) {
      if h < i < h + cnt { assert Owned(p, i); }
      ListedWhere(p, i);
    }
    KeepLinks(nodes, nodes', |p.slabs|, All(p));
  }

  /** What shortening the free list does to a descriptor: only the neighbours of h and the
      first page that stays free change. */
  lemma ShortenedNode(nodes: seq<Node>, h: nat, len: nat, cnt: nat, i: nat)
    requires h + len < |nodes| && 1 <= cnt <= len && 0 <= nodes[h].prev.to < |nodes| && 0 <= nodes[h].next < |nodes|
    requires i < |nodes| && nodes[h].prev.tag == PageTag
    ensures var r := Shortened(nodes, h, len, cnt)[i];
      if len > cnt && i == h + cnt then r.slab == Count(len - cnt, false) && r.prev.tag == PageTag
      else
        && r.slab == nodes[i].slab && (i != nodes[h].prev.to ==> r.next == nodes[i].next)
        && (if i == nodes[h].next then r.prev.tag == PageTag else r.prev == nodes[i].prev)
  {
  }

  /** What cutting does to a descriptor. */
  lemma CutNode(nodes: seq<Node>, map_: seq<bool>, p: Pool, k: nat, cnt: nat, i: nat)
    requires k < |p.free| && p.free[k] < |p.slabs| == |p.owner| < |nodes| && IsFree(p.slabs[p.free[k]])
    requires 1 <= cnt <= Length(p.slabs[p.free[k]]) && i < |p.slabs| && p.free[k] + Length(p.slabs[p.free[k]]) <= |p.slabs|
    requires Reads(nodes[i], map_, p.slabs[i]) && nodes[p.free[k]].prev.tag == PageTag
    requires var h := p.free[k]; 0 <= nodes[h].prev.to < |nodes| && 0 <= nodes[h].next < |nodes|
    requires i == nodes[p.free[k]].next || i == nodes[p.free[k]].prev.to ==> IsFree(p.slabs[i]) && i != p.free[k]
    requires forall j :: p.free[k] < j < p.free[k] + Length(p.slabs[p.free[k]]) ==> !IsFree(p.slabs[j])
    requires !IsFree(p.slabs[i]) && !(p.slabs[i].Chunks? && HasRoom(p.slabs[i].bits)) ==> nodes[i].next == NULL
    ensures var h := p.free[k];
      var node := Marked(Shortened(nodes, h, Length(p.slabs[h]), cnt), h, cnt)[i];
      var s := Cut(p, k, cnt).slabs[i];
      Reads(node, map_, s) && (!IsFree(s) && !(s.Chunks? && HasRoom(s.bits)) ==> node.next == NULL)
  {
    var h, len := p.free[k], Length(p.slabs[p.free[k]]);
    ShortenedNode(nodes, h, len, cnt, i);
    if i < h || i >= h + len {
      assert Cut(p, k, cnt).slabs[i] == p.slabs[i];
    }
  }

  lemma CutNodes(nodes: seq<Node>, maps: seq<seq<bool>>, p: Pool, k: nat, cnt: nat, i: nat)
    requires Rep(nodes, maps, p) && k < |p.free| && 1 <= cnt <= Length(p.slabs[p.free[k]]) && i < |p.slabs|
    requires p.free[k] + Length(p.slabs[p.free[k]]) <= |p.slabs| && Ok(Cut(p, k, cnt))
    requires var h := p.free[k]; 0 <= nodes[h].prev.to < |nodes| && 0 <= nodes[h].next < |nodes|
    ensures var h := p.free[k];
      var node := Marked(Shortened(nodes, h, Length(p.slabs[h]), cnt), h, cnt)[i];
      && Reads(node, maps[i], Cut(p, k, cnt).slabs[i])
      && (Nowhere(All(Cut(p, k, cnt)), i) ==> node.next == NULL)
  {
    LaterPages(p, p.free[k]);
    BesideFree(nodes, maps, p, k, i);
    ListedWhere(p, i);
    ListedWhere(Cut(p, k, cnt), i);
    ReadsAt(nodes, maps, p, p.free[k]);
    ReadsAt(nodes, maps, p, i);
    if Nowhere(All(p), i) { IdleNext(nodes, maps, p, i); }
    CutNode(nodes, maps[i], p, k, cnt, i);
  }

  lemma LaterPages(p: Pool, h: nat)
    requires Ok(p) && h in p.free
    ensures |p.owner| == |p.slabs| && h < |p.slabs| && IsFree(p.slabs[h])
    ensures h + Length(p.slabs[h]) <= |p.slabs|
    ensures forall j :: h < j < h + Length(p.slabs[h]) ==> !IsFree(p.slabs[j])
  {
    OkIs(p);
    assert Owns(p, h);
    forall j | h < j < h + Length(p.slabs[h]) ensures !IsFree(p.slabs[j]) { OneHead(p, h, j); }
  }

  /** The neighbours of a free run in the list are other free runs, or the head. */
  lemma BesideFree(nodes: seq<Node>, maps: seq<seq<bool>>, p: Pool, k: nat, i: nat)
    requires Rep(nodes, maps, p) && k < |p.free| && i < |p.slabs| < |nodes|
    ensures var h := p.free[k]; h < |nodes| && (i == nodes[h].next || i == nodes[h].prev.to ==> IsFree(p.slabs[i]) && i != h)
  {
    assert Links(nodes, |p.slabs|, All(p)) by { ShowsIs(nodes, maps, p); }
    assert All(p)[SLOTS] == p.free;
    assert OneList(nodes, |p.slabs|, SLOTS, p.free);
    FreeBeside(nodes, |p.slabs| + SLOTS, p.free, k);
    if i in p.free { LaterPages(p, i); }
  }

  lemma FreeBeside(nodes: seq<Node>, head: nat, q: seq<nat>, k: nat)
    requires IsList(nodes, head, q) && k < |q|
    ensures nodes[q[k]].next != q[k] && (nodes[q[k]].next == head || nodes[q[k]].next in q)
    ensures nodes[q[k]].prev.to != q[k] && (nodes[q[k]].prev.to == head || nodes[q[k]].prev.to in q)
  {
    Neighbours(nodes, head, q, k);
    Different(head, q, k, k + 1);
    Different(head, q, k + 1, k + 2);
  }

  lemma CutRep(nodes: seq<Node>, maps: seq<seq<bool>>, p: Pool, k: nat, cnt: nat)
    requires Rep(nodes, maps, p) && k < |p.free| && 1 <= cnt <= Length(p.slabs[p.free[k]])
    ensures var h := p.free[k];
      && h + Length(p.slabs[h]) <= |p.slabs| && 0 <= nodes[h].prev.to < |nodes| && 0 <= nodes[h].next < |nodes|
      && Rep(Marked(Shortened(nodes, h, Length(p.slabs[h]), cnt), h, cnt), maps, Cut(p, k, cnt))
  {
    ShowsIs(nodes, maps, p);
    var h, len := p.free[k], Length(p.slabs[p.free[k]]);
    CutOk(p, k, cnt);
    ShortenedLinks(nodes, p, k, cnt, len);
    var mid := Shortened(nodes, h, len, cnt);
    CutLinks(mid, Marked(mid, h, cnt), Cut(p, k, cnt), h, cnt);
    forall i | 0 <= i < |p.slabs|
      ensures Reads(Marked(mid, h, cnt)[i], maps[i], Cut(p, k, cnt).slabs[i])
        && (Nowhere(All(Cut(p, k, cnt)), i) ==> Marked(mid, h, cnt)[i].next == NULL)
    {
      CutNodes(nodes, maps, p, k, cnt, i);
    }
    ShowsIs(Marked(mid, h, cnt), maps, Cut(p, k, cnt));
  }

  // ----- lists and words -----

  /** A page in no list is linked at the front of a list whose pages have its tag. */
  lemma PushShows(nodes: seq<Node>, maps: seq<seq<bool>>, p: Pool, p': Pool, s: nat, x: nat, tag: Tag)
    requires Shows(nodes, maps, p) && s <= SLOTS && x < |p.slabs| && Nowhere(All(p), x)
    requires p' == p.(lists := p'.lists, free := p'.free) && |p'.lists| == SLOTS && All(p') == All(p)[s := [x] + All(p)[s]]
    requires All(p)[s] != [] && All(p)[s][0] < |p.slabs| ==> nodes[All(p)[s][0]].prev.tag == tag
    requires nodes[x].prev.tag == tag
    ensures 0 <= nodes[|p.slabs| + s].next < |nodes| && Shows(Pushed(nodes, |p.slabs| + s, x, tag), maps, p')
  {
    ShowsIs(nodes, maps, p);
    var n, all := |p.slabs|, All(p);
    PushLinks(nodes, n, all, s, x, tag);
    assert OneList(nodes, n, s, all[s]);
    First(nodes, n + s, all[s]);
    var nodes' := Pushed(nodes, n + s, x, tag);
    forall i | 0 <= i < n ensures Reads(nodes'[i], maps[i], p.slabs[i]) { assert Reads(nodes[i], maps[i], p.slabs[i]); }
    forall i | 0 <= i < n && Nowhere(All(p'), i) ensures nodes'[i].next == NULL {
      assert x in All(p')[s] && forall y <- all[s] :: y in All(p')[s];
      assert Nowhere(all, i) by {
        forall t | 0 <= t <= SLOTS ensures i !in all[t] { assert i !in All(p')[t]; }
      }
    }
    ShowsIs(nodes', maps, p');
  }

  /** The k-th page of a list leaves it and loses its successor. */
  lemma UnlinkShows(nodes: seq<Node>, maps: seq<seq<bool>>, p: Pool, p': Pool, s: nat, k: nat, node: Node)
    requires Shows(nodes, maps, p) && s <= SLOTS && k < |All(p)[s]| && |p'.lists| == SLOTS && All(p)[s][k] < |p.slabs|
    requires p' == p.(lists := p'.lists, free := p'.free) && All(p') == All(p)[s := All(p)[s][..k] + All(p)[s][k + 1..]]
    requires forall j :: 0 <= j < |All(p)[s]| ==>
      All(p)[s][j] < |p.slabs| && nodes[All(p)[s][j]].prev.tag == nodes[All(p)[s][k]].prev.tag
    requires node.slab == nodes[All(p)[s][k]].slab && node.prev.tag == nodes[All(p)[s][k]].prev.tag && node.next == NULL
    ensures var x := All(p)[s][k];
      && 0 <= nodes[x].prev.to < |nodes| && 0 <= nodes[x].next < |nodes| && Nowhere(All(p'), x)
      && Shows(Unlinked(nodes, x)[x := node], maps, p') && Unlinked(nodes, x)[x] == nodes[x]
  {
    ShowsIs(nodes, maps, p);
    var n, all, x := |p.slabs|, All(p), All(p)[s][k];
    UnlinkedLinks(nodes, n, all, s, k, All(p'), node);
    assert OneList(nodes, n, s, all[s]);
    Neighbours(nodes, n + s, all[s], k);
    var nodes' := Unlinked(nodes, x)[x := node];
    if nodes[x].next < n { assert nodes[x].next == all[s][k + 1]; }
    UnlinkedWords(nodes, nodes', maps, p.slabs, x, node);
    UnlinkedIdle(nodes, nodes', n, all, All(p'), s, k, node);
    ShowsIs(nodes', maps, p');
  }

  lemma UnlinkedLinks(nodes: seq<Node>, n: nat, all: seq<seq<nat>>, s: nat, k: nat, all': seq<seq<nat>>, node: Node)
    requires Links(nodes, n, all) && s <= SLOTS && k < |all[s]| && all' == all[s := all[s][..k] + all[s][k + 1..]]
    ensures var x := all[s][k];
      && x < n && 0 <= nodes[x].prev.to < |nodes| && 0 <= nodes[x].next < |nodes| && Unlinked(nodes, x)[x] == nodes[x]
      && Links(Unlinked(nodes, x)[x := node], n, all') && Nowhere(all', x)
  {
    UnlinkLinks(nodes, n, all, s, k, all');
    var mid := Unlinked(nodes, all[s][k]);
    KeepLinks(mid, mid[all[s][k] := node], n, all');
  }

  lemma UnlinkedIdle(nodes: seq<Node>, nodes': seq<Node>, n: nat, all: seq<seq<nat>>, all': seq<seq<nat>>, s: nat, k: nat, node: Node)
    requires Links(nodes, n, all) && Idle(nodes, n, all) && s <= SLOTS && k < |all[s]|
    requires all' == all[s := all[s][..k] + all[s][k + 1..]] && node.next == NULL
    requires all[s][k] < n && 0 <= nodes[all[s][k]].next < |nodes|
    requires 0 <= nodes[all[s][k]].prev.to == At(n + s, all[s], k) < |nodes| && nodes' == Unlinked(nodes, all[s][k])[all[s][k] := node]
    ensures Idle(nodes', n, all')
  {
    forall i | 0 <= i < n && Nowhere(all', i) ensures nodes'[i].next == NULL {
      if i != all[s][k] { StillNowhere(all, all', s, k, i); }
    }
  }

  lemma UnlinkedWords(nodes: seq<Node>, nodes': seq<Node>, maps: seq<seq<bool>>, slabs: seq<Slab>, x: nat, node: Node)
    requires Words(nodes, maps, slabs) && x < |slabs| && 0 <= nodes[x].prev.to < |nodes| && 0 <= nodes[x].next < |nodes|
    requires nodes' == Unlinked(nodes, x)[x := node] && node.slab == nodes[x].slab && node.prev.tag == nodes[x].prev.tag
    requires nodes[x].next < |slabs| ==> nodes[nodes[x].next].prev.tag == nodes[x].prev.tag
    ensures Words(nodes', maps, slabs)
  {
    forall i | 0 <= i < |slabs| ensures Reads(nodes'[i], maps[i], slabs[i]) { assert Reads(nodes[i], maps[i], slabs[i]); }
  }

  lemma StillNowhere(all: seq<seq<nat>>, all': seq<seq<nat>>, s: nat, k: nat, i: nat)
    requires s < |all| && k < |all[s]| && all' == all[s := all[s][..k] + all[s][k + 1..]]
    requires Nowhere(all', i) && i != all[s][k]
    ensures Nowhere(all, i)
  {
    forall t | 0 <= t < |all| ensures i !in all[t] {
      assert i !in all'[t];
      if t == s {
        forall j | 0 <= j < |all[s]| && j != k ensures all[s][j] != i {
          assert all'[s][if j < k then j else j - 1] == all[s][j];
        }
      }
    }
  }

  /** One descriptor and the bitmap of its page change; links only if it is in no list. */
  lemma NodeShows(nodes: seq<Node>, maps: seq<seq<bool>>, p: Pool, h: nat, node: Node, m: seq<bool>, s: Slab)
    requires Shows(nodes, maps, p) && h < |p.slabs| && Reads(node, m, s) && node.next == nodes[h].next
    requires node.prev.to == nodes[h].prev.to || Nowhere(All(p), h)
    ensures Shows(nodes[h := node], maps[h := m], p.(slabs := p.slabs[h := s]))
  {
    ShowsIs(nodes, maps, p);
    KeepLinks(nodes, nodes[h := node], |p.slabs|, All(p));
    ShowsIs(nodes[h := node], maps[h := m], p.(slabs := p.slabs[h := s]));
  }

  /** All pages with room of one slot have the tag of its chunk size. */
  lemma SlotTags(nodes: seq<Node>, maps: seq<seq<bool>>, p: Pool, slot: nat)
    requires Rep(nodes, maps, p) && slot < SLOTS
    ensures forall j :: 0 <= j < |p.lists[slot]| ==>
      p.lists[slot][j] < |p.slabs| && nodes[p.lists[slot][j]].prev.tag == TagFor(slot + MIN_SHIFT)
  {
    OkIs(p);
    ShowsIs(nodes, maps, p);
    assert SlotListed(p, slot);
    forall j | 0 <= j < |p.lists[slot]| ensures nodes[p.lists[slot][j]].prev.tag == TagFor(slot + MIN_SHIFT) {
      var h := p.lists[slot][j];
      assert Reads(nodes[h], maps[h], p.slabs[h]);
    }
  }

  /** The first page of a slot is full and leaves the list. */
  lemma FullShows(nodes: seq<Node>, maps: seq<seq<bool>>, p: Pool, slot: nat, tag: Tag)
    requires Shows(nodes, maps, p) && slot < SLOTS && p.lists[slot] != []
    requires forall j :: 0 <= j < |p.lists[slot]| ==> p.lists[slot][j] < |p.slabs| && nodes[p.lists[slot][j]].prev.tag == tag
    ensures var h := p.lists[slot][0];
      && 0 <= nodes[h].prev.to < |nodes| && 0 <= nodes[h].next < |nodes|
      && Shows(Unlinked(nodes, h)[h := nodes[h].(next := NULL, prev := Link(NULL, tag))], maps,
               p.(lists := p.lists[slot := p.lists[slot][1..]]))
  {
    var h, p' := p.lists[slot][0], p.(lists := p.lists[slot := p.lists[slot][1..]]);
    assert All(p)[slot] == p.lists[slot];
    assert p.lists[slot][..0] + p.lists[slot][1..] == p.lists[slot][1..];
    assert All(p') == All(p)[slot := p.lists[slot][1..]];
    UnlinkShows(nodes, maps, p, p', slot, 0, nodes[h].(next := NULL, prev := Link(NULL, tag)));
  }

  /** A page of chunks becomes the only one of its slot. */
  function Enlisted(nodes: seq<Node>, n: nat, h: nat, slot: nat, w: Word, tag: Tag): (r: seq<Node>)
    requires h < n && n + slot < |nodes|
    ensures |r| == |nodes|
  {
    nodes[h := Node(w, n + slot, Link(n + slot, tag))][n + slot := nodes[n + slot].(next := h)]
  }

  lemma EnlistedShows(nodes: seq<Node>, maps: seq<seq<bool>>, p: Pool, h: nat, shift: nat, w: Word, m: seq<bool>)
    requires Shows(nodes, maps, p) && IsShift(shift) && p.lists[shift - MIN_SHIFT] == [] && h < |p.slabs| && Nowhere(All(p), h)
    requires Reads(Node(w, NULL, Link(NULL, TagFor(shift))), m, Chunks(shift, FreshBits(shift)))
    ensures Shows(Enlisted(nodes, |p.slabs|, h, shift - MIN_SHIFT, w, TagFor(shift)), maps[h := m], Enlist(p, h, shift))
  {
    var n, slot, tag := |p.slabs|, shift - MIN_SHIFT, TagFor(shift);
    var node := Node(w, NULL, Link(NULL, tag));
    var p1 := p.(slabs := p.slabs[h := Chunks(shift, FreshBits(shift))]);
    var p' := Enlist(p, h, shift);
    IdleNext(nodes, maps, p, h);
    NodeShows(nodes, maps, p, h, node, m, Chunks(shift, FreshBits(shift)));
    var nodes1, maps1 := nodes[h := node], maps[h := m];
    assert All(p1) == All(p) && All(p1)[slot] == [];
    assert [h] + All(p1)[slot] == [h];
    assert All(p') == All(p1)[slot := [h]];
    PushShows(nodes1, maps1, p1, p', slot, h, tag);
    EmptySlot(nodes1, maps1, p1, slot);
    HeadPrev(Pushed(nodes1, n + slot, h, tag), Enlisted(nodes, n, h, slot, w, tag), maps1, p', slot);
  }

  /** What `prev` of a head says does not matter. */
  lemma HeadPrev(nodes: seq<Node>, nodes': seq<Node>, maps: seq<seq<bool>>, p: Pool, slot: nat)
    requires Shows(nodes, maps, p) && slot <= SLOTS && |nodes'| == |nodes|
    requires nodes'[|p.slabs| + slot].next == nodes[|p.slabs| + slot].next
    requires forall i :: 0 <= i < |nodes| && i != |p.slabs| + slot ==> nodes'[i] == nodes[i]
    ensures Shows(nodes', maps, p)
  {
    ShowsIs(nodes, maps, p);
    KeepLinks(nodes, nodes', |p.slabs|, All(p));
    ShowsIs(nodes', maps, p);
  }

  // ----- release -----

  const ZERO := Node(Count(0, false), NULL, Link(NULL, PageTag))

  /** The descriptors of a run that is given back, before they are linked. */
  function Cleared(nodes: seq<Node>, h: nat, cnt: nat): (r: seq<Node>)
    requires h < |nodes|
    ensures |r| == |nodes|
  {
    Filled(nodes, h + 1, h + cnt, ZERO)[h := nodes[h].(slab := Count(cnt, false))]
  }

  lemma ClearedShows(nodes: seq<Node>, maps: seq<seq<bool>>, p: Pool, h: nat, cnt: nat, p': Pool)
    requires Rep(nodes, maps, p) && h < |p.slabs| && p.slabs[h] == Pages(cnt, true) && 1 <= cnt
    requires p' == p.(slabs := FreePages(p, h, cnt).slabs)
    ensures Shows(Cleared(nodes, h, cnt), maps, p') && Nowhere(All(p), h) && Cleared(nodes, h, cnt)[h].prev.tag == PageTag
  {
    OkIs(p);
    ShowsIs(nodes, maps, p);
    var nodes' := Cleared(nodes, h, cnt);
    assert Owns(p, h);
    forall i | h <= i < h + cnt ensures i < |p.slabs| && Nowhere(All(p), i) && Reads(nodes'[i], maps[i], p'.slabs[i]) {
      assert Owned(p, i) && Reads(nodes[i], maps[i], p.slabs[i]);
      ListedWhere(p, i);
    }
    KeepLinks(nodes, nodes', |p.slabs|, All(p));
    forall i | 0 <= i < |p.slabs| ensures Reads(nodes'[i], maps[i], p'.slabs[i]) { assert Reads(nodes[i], maps[i], p.slabs[i]); }
    ShowsIs(nodes', maps, p');
  }

  lemma FreeTags(nodes: seq<Node>, maps: seq<seq<bool>>, p: Pool)
    requires Rep(nodes, maps, p)
    ensures forall j :: 0 <= j < |p.free| ==> p.free[j] < |p.slabs| && nodes[p.free[j]].prev.tag == PageTag
  {
    OkIs(p);
    ShowsIs(nodes, maps, p);
    forall j | 0 <= j < |p.free| ensures nodes[p.free[j]].prev.tag == PageTag {
      var h := p.free[j];
      assert Reads(nodes[h], maps[h], p.slabs[h]);
    }
  }

  /** ngx_slab_free_pages on an allocated run. */
  lemma FreeRunRep(nodes: seq<Node>, maps: seq<seq<bool>>, p: Pool, h: nat, cnt: nat)
    requires Rep(nodes, maps, p) && h < |p.slabs| && p.slabs[h] == Pages(cnt, true) && 1 <= cnt
    ensures var mid := Cleared(nodes, h, cnt);
      && nodes[h].next == NULL && 0 <= mid[|p.slabs| + SLOTS].next < |nodes|
      && Rep(Pushed(mid, |p.slabs| + SLOTS, h, PageTag), maps, FreePages(p, h, cnt))
  {
    var mid, p1, p' := Cleared(nodes, h, cnt), p.(slabs := FreePages(p, h, cnt).slabs), FreePages(p, h, cnt);
    ClearedShows(nodes, maps, p, h, cnt, p1);
    IdleNext(nodes, maps, p, h);
    FreeTags(nodes, maps, p);
    assert All(p1) == All(p) && All(p)[SLOTS] == p.free;
    assert All(p') == All(p1)[SLOTS := [h] + All(p1)[SLOTS]];
    if p.free != [] { assert p.free[0] in All(p)[SLOTS]; }
    FirstTag(nodes, mid, p, h, cnt);
    PushShows(mid, maps, p1, p', SLOTS, h, PageTag);
    FreeRunOk(p, h);
  }

  lemma FirstTag(nodes: seq<Node>, mid: seq<Node>, p: Pool, h: nat, cnt: nat)
    requires Ok(p) && h < |p.slabs| <= |nodes| && p.slabs[h] == Pages(cnt, true) && 1 <= cnt && mid == Cleared(nodes, h, cnt)
    requires forall j :: 0 <= j < |p.free| ==> p.free[j] < |p.slabs| && nodes[p.free[j]].prev.tag == PageTag
    ensures p.free != [] ==> mid[p.free[0]].prev.tag == PageTag
  {
    OkIs(p);
  }

  /** A chunk page, the k-th of its slot, leaves the list and becomes a free page. */
  lemma LeaveShows(nodes: seq<Node>, maps: seq<seq<bool>>, p: Pool, p1: Pool, slot: nat, k: nat, h: nat, node: Node)
    requires Shows(nodes, maps, p) && slot < SLOTS && k < |p.lists[slot]| && h == p.lists[slot][k] && h < |p.slabs|
    requires forall j :: 0 <= j < |p.lists[slot]| ==>
      p.lists[slot][j] < |p.slabs| && nodes[p.lists[slot][j]].prev.tag == nodes[h].prev.tag
    requires p1 == p.(lists := p.lists[slot := p.lists[slot][..k] + p.lists[slot][k + 1..]], slabs := p.slabs[h := Pages(1, false)])
    requires node == Node(Count(1, false), NULL, Link(nodes[h].prev.to, PageTag))
    ensures 0 <= nodes[h].prev.to < |nodes| && 0 <= nodes[h].next < |nodes|
    ensures Shows(Unlinked(nodes, h)[h := node], maps, p1) && Nowhere(All(p1), h)
  {
    var p0 := p1.(slabs := p.slabs);
    assert All(p)[slot] == p.lists[slot] && All(p0) == All(p)[slot := p1.lists[slot]] && All(p1) == All(p0);
    var u := nodes[h].(next := NULL);
    UnlinkShows(nodes, maps, p, p0, slot, k, u);
    var nodes1 := Unlinked(nodes, h)[h := u];
    NodeShows(nodes1, maps, p0, h, node, maps[h], Pages(1, false));
    assert maps[h := maps[h]] == maps && nodes1[h := node] == Unlinked(nodes, h)[h := node];
  }

  /** ngx_slab_free_pages on a chunk page, the k-th of its slot. */
  lemma FreePageShows(nodes: seq<Node>, maps: seq<seq<bool>>, p: Pool, p': Pool, slot: nat, k: nat, h: nat)
    requires Shows(nodes, maps, p) && slot < SLOTS && k < |p.lists[slot]| && h == p.lists[slot][k] && h < |p.slabs|
    requires forall j :: 0 <= j < |p.lists[slot]| ==>
      p.lists[slot][j] < |p.slabs| && nodes[p.lists[slot][j]].prev.tag == nodes[h].prev.tag
    requires forall j :: 0 <= j < |p.free| ==> p.free[j] < |p.slabs| && p.free[j] != h && nodes[p.free[j]].prev.tag == PageTag
    requires p' == FreePages(p.(lists := p.lists[slot := p.lists[slot][..k] + p.lists[slot][k + 1..]]), h, 1)
    ensures var mid := Cleared(nodes, h, 1);
      && nodes[h].next != NULL && 0 <= mid[h].prev.to < |nodes| && 0 <= mid[h].next < |nodes|
      && 0 <= Unlinked(mid, h)[|p.slabs| + SLOTS].next < |nodes|
      && Shows(Pushed(Unlinked(mid, h), |p.slabs| + SLOTS, h, PageTag), maps, p')
  {
    var p1 := p.(lists := p.lists[slot := p.lists[slot][..k] + p.lists[slot][k + 1..]], slabs := p.slabs[h := Pages(1, false)]);
    var node := Node(Count(1, false), NULL, Link(nodes[h].prev.to, PageTag));
    LeaveShows(nodes, maps, p, p1, slot, k, h, node);
    var nodes1 := Unlinked(nodes, h)[h := node];
    SlotNear(nodes, maps, p, slot, k);
    FreePageLast(nodes, nodes1, maps, p, p1, p', h);
    Reordered(nodes, nodes1, |p.slabs|, h);
  }

  lemma SlotNeighbours(nodes: seq<Node>, n: nat, all: seq<seq<nat>>, slot: nat, k: nat)
    requires Links(nodes, n, all) && slot < SLOTS && k < |all[slot]|
    ensures var h := all[slot][k];
      && h < n && 0 <= nodes[h].prev.to < |nodes| && 0 <= nodes[h].next < |nodes| && nodes[h].prev.to != h && nodes[h].next != h
      && forall j :: 0 <= j < |all[SLOTS]| ==> all[SLOTS][j] != nodes[h].next
  {
    var q := all[slot];
    assert OneList(nodes, n, slot, q);
    Neighbours(nodes, n + slot, q, k);
    Different(n + slot, q, k, k + 1);
    Different(n + slot, q, k + 1, k + 2);
    forall j | 0 <= j < |all[SLOTS]| ensures all[SLOTS][j] != nodes[q[k]].next {
      NoShare(nodes, n, all, slot, SLOTS, k + 2, j + 1);
    }
  }

  lemma SlotNear(nodes: seq<Node>, maps: seq<seq<bool>>, p: Pool, slot: nat, k: nat)
    requires Shows(nodes, maps, p) && slot < SLOTS && k < |p.lists[slot]|
    ensures var h := p.lists[slot][k];
      && h < |p.slabs| && 0 <= nodes[h].prev.to < |nodes| && 0 <= nodes[h].next < |nodes|
      && nodes[h].prev.to != h && nodes[h].next != h && forall j :: 0 <= j < |p.free| ==> p.free[j] != nodes[h].next
  {
    ShowsIs(nodes, maps, p);
    assert All(p)[SLOTS] == p.free && All(p)[slot] == p.lists[slot];
    SlotNeighbours(nodes, |p.slabs|, All(p), slot, k);
  }

  lemma FreePageLast(nodes: seq<Node>, nodes2: seq<Node>, maps: seq<seq<bool>>, p: Pool, p2: Pool, p': Pool, h: nat)
    requires Shows(nodes2, maps, p2) && h < |p2.slabs| && Nowhere(All(p2), h) && nodes2[h].prev.tag == PageTag
    requires p2.free == p.free && p2.slabs[h] == Pages(1, false) && p' == p2.(free := [h] + p.free)
    requires |p2.slabs| < |nodes2| == |nodes| && 0 <= nodes[h].prev.to < |nodes| && 0 <= nodes[h].next < |nodes|
    requires nodes[h].prev.to != h && nodes[h].next != h
    requires forall j :: 0 <= j < |p.free| ==> p.free[j] < |p2.slabs| && p.free[j] != h && nodes[p.free[j]].prev.tag == PageTag
    requires nodes2 == Unlinked(nodes, h)[h := nodes2[h]] && (forall j :: 0 <= j < |p.free| ==> p.free[j] != nodes[h].next)
    ensures 0 <= nodes2[|p2.slabs| + SLOTS].next < |nodes2| && Shows(Pushed(nodes2, |p2.slabs| + SLOTS, h, PageTag), maps, p')
  {
    assert All(p2)[SLOTS] == p.free && All(p') == All(p2)[SLOTS := [h] + All(p2)[SLOTS]];
    PushShows(nodes2, maps, p2, p', SLOTS, h, PageTag);
  }

  /** Clearing the word before or after the page leaves its list makes no difference. */
  lemma Reordered(nodes: seq<Node>, nodes2: seq<Node>, n: nat, h: nat)
    requires h < n && |nodes| == n + SLOTS + 1 && 0 <= nodes[h].prev.to < |nodes| && 0 <= nodes[h].next < |nodes|
    requires nodes[h].prev.to != h && nodes[h].next != h && |nodes2| == |nodes|
    requires nodes2 == Unlinked(nodes, h)[h := nodes2[h]] && nodes2[h].slab == Count(1, false)
    requires 0 <= nodes2[n + SLOTS].next < |nodes|
    ensures var mid := Unlinked(Cleared(nodes, h, 1), h);
      && 0 <= mid[n + SLOTS].next < |nodes| && Pushed(mid, n + SLOTS, h, PageTag) == Pushed(nodes2, n + SLOTS, h, PageTag)
  {
    var mid := Unlinked(Cleared(nodes, h, 1), h);
    assert forall i :: 0 <= i < |nodes| && i != h ==> mid[i] == nodes2[i];
  }

  // ----- chunks -----

  /** Where the bits of a chunk page are kept. */
  function WordFor(shift: nat, bits: seq<bool>): Word {
    if shift < EXACT_SHIFT then Shift(shift) else if shift == EXACT_SHIFT then Bits(bits) else Both(bits, shift)
  }

  function MapFor(shift: nat, bits: seq<bool>, m: seq<bool>): seq<bool> { if shift < EXACT_SHIFT then bits else m }

  /** The bits of a chunk page change. */
  lemma BitsShow(nodes: seq<Node>, maps: seq<seq<bool>>, p: Pool, h: nat, bits: seq<bool>)
    requires Shows(nodes, maps, p) && h < |p.slabs| && p.slabs[h].Chunks?
    ensures var shift := p.slabs[h].shift;
      Shows(nodes[h := nodes[h].(slab := WordFor(shift, bits))], maps[h := MapFor(shift, bits, maps[h])],
            p.(slabs := p.slabs[h := Chunks(shift, bits)]))
  {
    var shift := p.slabs[h].shift;
    ReadsAt(nodes, maps, p, h);
    NodeShows(nodes, maps, p, h, nodes[h].(slab := WordFor(shift, bits)), MapFor(shift, bits, maps[h]), Chunks(shift, bits));
  }

  /** What the slot's head leads to. */
  lemma SlotFirst(nodes: seq<Node>, maps: seq<seq<bool>>, p: Pool, slot: nat)
    requires Rep(nodes, maps, p) && slot < SLOTS
    ensures var n := |p.slabs|;
      && |nodes| == n + SLOTS + 1 && |maps| == n
      && (p.lists[slot] == [] ==> nodes[n + slot].next == n + slot)
      && (p.lists[slot] != [] ==> var h := p.lists[slot][0];
            && nodes[n + slot].next == h < n && nodes[h].next != h && Linked(p.slabs[h], slot)
            && Reads(nodes[h], maps[h], p.slabs[h]) && ChunksOk(p.slabs[h]))
  {
    OkIs(p);
    ShowsIs(nodes, maps, p);
    SlotHead(nodes, |p.slabs|, All(p), slot);
    assert All(p)[slot] == p.lists[slot];
    assert SlotListed(p, slot);
  }

  lemma SlotHead(nodes: seq<Node>, n: nat, all: seq<seq<nat>>, slot: nat)
    requires Links(nodes, n, all) && slot < SLOTS
    ensures all[slot] == [] ==> nodes[n + slot].next == n + slot
    ensures all[slot] != [] ==> nodes[n + slot].next == all[slot][0] < n && nodes[all[slot][0]].next != all[slot][0]
  {
    assert OneList(nodes, n, slot, all[slot]);
    First(nodes, n + slot, all[slot]);
    if all[slot] != [] { NextOther(nodes, n + slot, all[slot]); }
  }

  lemma NextOther(nodes: seq<Node>, head: nat, q: seq<nat>)
    requires IsList(nodes, head, q) && q != []
    ensures nodes[q[0]].next != q[0]
  {
    Neighbours(nodes, head, q, 0);
    Different(head, q, 1, 2);
  }

  /** The first page of a slot after one of its chunks was taken. */
  lemma TakeRep(nodes: seq<Node>, maps: seq<seq<bool>>, p: Pool, slot: nat, nodes1: seq<Node>, maps1: seq<seq<bool>>, bits: seq<bool>)
    requires Rep(nodes, maps, p) && slot < SLOTS && p.lists[slot] != []
    requires p.lists[slot][0] < |p.slabs| && Linked(p.slabs[p.lists[slot][0]], slot)
    requires var h := p.lists[slot][0]; var shift := slot + MIN_SHIFT;
      && bits == p.slabs[h].bits[FirstClear(p.slabs[h].bits, 0) := true]
      && nodes1 == nodes[h := nodes[h].(slab := WordFor(shift, bits))] && maps1 == maps[h := MapFor(shift, bits, maps[h])]
    ensures var h, tag := p.lists[slot][0], TagFor(slot + MIN_SHIFT);
      if HasRoom(bits) then Rep(nodes1, maps1, Take(p, slot).0)
      else
        && 0 <= nodes1[h].prev.to < |nodes| && 0 <= nodes1[h].next < |nodes| && Unlinked(nodes1, h)[h] == nodes1[h]
        && Rep(Unlinked(nodes1, h)[h := nodes1[h].(next := NULL, prev := Link(NULL, tag))], maps1, Take(p, slot).0)
  {
    var h, shift := p.lists[slot][0], slot + MIN_SHIFT;
    TakeOk(p, slot);
    SlotTags(nodes, maps, p, slot);
    BitsShow(nodes, maps, p, h, bits);
    if !HasRoom(bits) {
      var p1 := p.(slabs := p.slabs[h := Chunks(shift, bits)]);
      FullShows(nodes1, maps1, p1, slot, TagFor(shift));
      SlotNear(nodes1, maps1, p1, slot, 0);
    }
  }

  /** A new chunk page. */
  lemma EnlistRep(nodes: seq<Node>, maps: seq<seq<bool>>, p: Pool, h: nat, shift: nat)
    requires Rep(nodes, maps, p) && IsShift(shift) && p.lists[shift - MIN_SHIFT] == [] && h < |p.slabs| && p.slabs[h] == Pages(1, true)
    ensures var bits := FreshBits(shift);
      Rep(Enlisted(nodes, |p.slabs|, h, shift - MIN_SHIFT, WordFor(shift, bits), TagFor(shift)),
          maps[h := MapFor(shift, bits, maps[h])], Enlist(p, h, shift))
  {
    var bits := FreshBits(shift);
    ListedWhere(p, h);
    EnlistOk(p, h, shift);
    EnlistedShows(nodes, maps, p, h, shift, WordFor(shift, bits), MapFor(shift, bits, maps[h]));
  }

  /** A chunk page that was full is linked again. */
  lemma RelinkShows(nodes: seq<Node>, maps: seq<seq<bool>>, p: Pool, h: nat, slot: nat, p1: Pool)
    requires Rep(nodes, maps, p) && h < |p.slabs| && p.slabs[h].Chunks? && slot == p.slabs[h].shift - MIN_SHIFT && slot < SLOTS
    requires !HasRoom(p.slabs[h].bits) && p1 == p.(lists := p.lists[slot := [h] + p.lists[slot]])
    ensures nodes[h].next == NULL && 0 <= nodes[|p.slabs| + slot].next < |nodes|
    ensures Shows(Pushed(nodes, |p.slabs| + slot, h, TagFor(slot + MIN_SHIFT)), maps, p1)
  {
    ListedWhere(p, h);
    ReadsAt(nodes, maps, p, h);
    IdleNext(nodes, maps, p, h);
    SlotTags(nodes, maps, p, slot);
    assert All(p)[slot] == p.lists[slot];
    assert All(p1) == All(p)[slot := [h] + All(p)[slot]];
    PushShows(nodes, maps, p, p1, slot, h, TagFor(slot + MIN_SHIFT));
  }

  /** What a release relies on: the list of the page's slot and the free list have their
      tags, and the page is in the former. */
  ghost predicate Tagged(nodes: seq<Node>, p: Pool, slot: nat, h: nat)
    requires slot < |p.lists|
  {
    && |p.slabs| <= |nodes| && h in p.lists[slot]
    && (forall j :: 0 <= j < |p.lists[slot]| ==>
          p.lists[slot][j] < |p.slabs| && nodes[p.lists[slot][j]].prev.tag == TagFor(slot + MIN_SHIFT))
    && (forall j :: 0 <= j < |p.free| ==> p.free[j] < |p.slabs| && p.free[j] != h && nodes[p.free[j]].prev.tag == PageTag)
  }

  function LinkedList(p: Pool, h: nat, slot: nat): seq<nat>
    requires h < |p.slabs| && p.slabs[h].Chunks? && slot < |p.lists|
  {
    if HasRoom(p.slabs[h].bits) then p.lists[slot] else [h] + p.lists[slot]
  }

  /** The first half of releasing a chunk: the page is in its slot's list, again or still. */
  lemma LinkedShows(nodes: seq<Node>, maps: seq<seq<bool>>, p: Pool, h: nat, slot: nat, p1: Pool, nodes1: seq<Node>)
    requires Rep(nodes, maps, p) && h < |p.slabs| && p.slabs[h].Chunks? && slot == p.slabs[h].shift - MIN_SHIFT && slot < SLOTS
    requires p1 == p.(lists := p.lists[slot := LinkedList(p, h, slot)])
    requires HasRoom(p.slabs[h].bits) ==> nodes1 == nodes
    requires !HasRoom(p.slabs[h].bits) && 0 <= nodes[|p.slabs| + slot].next < |nodes| ==>
      nodes1 == Pushed(nodes, |p.slabs| + slot, h, TagFor(slot + MIN_SHIFT))
    ensures Shows(nodes1, maps, p1) && Tagged(nodes1, p1, slot, h)
  {
    SlotTags(nodes, maps, p, slot);
    FreeTags(nodes, maps, p);
    assert p.free == All(p)[SLOTS];
    if HasRoom(p.slabs[h].bits) {
      Still(p, h, slot);
      assert p1.lists == p.lists;
    } else {
      RelinkShows(nodes, maps, p, h, slot, p1);
      ShowsIs(nodes, maps, p);
      RelinkTags(nodes, p, h, slot, p1);
    }
  }

  /** A chunk page with room is in its slot's list and not among the free runs. */
  lemma Still(p: Pool, h: nat, slot: nat)
    requires Ok(p) && h < |p.slabs| && p.slabs[h].Chunks? && slot == p.slabs[h].shift - MIN_SHIFT && slot < SLOTS && HasRoom(p.slabs[h].bits)
    ensures h in p.lists[slot] && h !in p.free
  {
    OkIs(p);
    assert SlotListed(p, slot);
  }

  lemma RelinkTags(nodes: seq<Node>, p: Pool, h: nat, slot: nat, p1: Pool)
    requires Ok(p) && Links(nodes, |p.slabs|, All(p)) && h < |p.slabs| && p.slabs[h].Chunks? && slot < SLOTS
    requires p1 == p.(lists := p.lists[slot := [h] + p.lists[slot]]) && 0 <= nodes[|p.slabs| + slot].next < |nodes|
    requires forall j :: 0 <= j < |p.lists[slot]| ==>
      p.lists[slot][j] < |p.slabs| && nodes[p.lists[slot][j]].prev.tag == TagFor(slot + MIN_SHIFT)
    requires forall j :: 0 <= j < |p.free| ==> p.free[j] < |p.slabs| && nodes[p.free[j]].prev.tag == PageTag
    ensures Tagged(Pushed(nodes, |p.slabs| + slot, h, TagFor(slot + MIN_SHIFT)), p1, slot, h)
  {
    OkIs(p);
    var n, q := |p.slabs|, p1.lists[slot];
    assert q[0] == h && forall j :: 0 < j < |q| ==> q[j] == p.lists[slot][j - 1];
    assert All(p)[slot] == p.lists[slot] && All(p)[SLOTS] == p.free;
    assert OneList(nodes, n, slot, p.lists[slot]);
    First(nodes, n + slot, p.lists[slot]);
    forall j | 0 <= j < |p.free| ensures p.free[j] != nodes[n + slot].next {
      NoShare(nodes, n, All(p), slot, SLOTS, 1, j + 1);
    }
  }

  /** The descriptors after ngx_slab_free_pages. */
  function Returned(nodes: seq<Node>, n: nat, h: nat, cnt: nat): (r: seq<Node>)
    requires h < n && |nodes| == n + SLOTS + 1
    requires nodes[h].next != NULL ==> 0 <= nodes[h].prev.to < |nodes| && 0 <= nodes[h].next < |nodes|
    requires nodes[h].next != NULL ==> 0 <= Unlinked(Cleared(nodes, h, cnt), h)[n + SLOTS].next < |nodes|
    requires nodes[h].next == NULL ==> 0 <= Cleared(nodes, h, cnt)[n + SLOTS].next < |nodes|
  {
    var mid := Cleared(nodes, h, cnt);
    Pushed(if nodes[h].next != NULL then Unlinked(mid, h) else mid, n + SLOTS, h, PageTag)
  }

  /** The last chunk of a page is released. */
  lemma EmptyRep(nodes: seq<Node>, maps: seq<seq<bool>>, p: Pool, p2: Pool, slot: nat, h: nat, k: nat)
    requires Ok(p) && h < |p.slabs| && p.slabs[h].Chunks? && slot == p.slabs[h].shift - MIN_SHIFT && slot < SLOTS
    requires Reserved(p.slabs[h].shift) <= k < |p.slabs[h].bits|
    requires Shows(nodes, maps, p2) && Tagged(nodes, p2, slot, h)
    requires p2 == p.(slabs := p.slabs[h := Chunks(p.slabs[h].shift, p.slabs[h].bits[k := false])],
                      lists := p.lists[slot := LinkedList(p, h, slot)])
    requires !InUse(p.slabs[h].bits[k := false], p.slabs[h].shift)
    ensures nodes[h].next != NULL && 0 <= nodes[h].prev.to < |nodes| && 0 <= nodes[h].next < |nodes|
    ensures 0 <= Unlinked(Cleared(nodes, h, 1), h)[|p.slabs| + SLOTS].next < |nodes|
    ensures Rep(Returned(nodes, |p.slabs|, h, 1), maps, FreeChunk(p, h, k))
  {
    FreeChunkOk(p, h, k);
    var q := p2.lists[slot];
    var j := WithoutSplit(q, h);
    var p' := FreePages(p2.(lists := p2.lists[slot := q[..j] + q[j + 1..]]), h, 1);
    FreePageShows(nodes, maps, p2, p', slot, j, h);
    assert p'.slabs == FreeChunk(p, h, k).slabs;
    assert p'.lists == FreeChunk(p, h, k).lists;
  }

  // ----- a free run given back again -----

  /** Clearing the descriptors of a free run once more. */
  lemma ReclearedShows(nodes: seq<Node>, maps: seq<seq<bool>>, p: Pool, h: nat, cnt: nat)
    requires Rep(nodes, maps, p) && h < |p.slabs| && p.slabs[h] == Pages(cnt, false) && 1 <= cnt
    ensures Shows(Cleared(nodes, h, cnt), maps, p) && Cleared(nodes, h, cnt)[h] == nodes[h]
  {
    OkIs(p);
    ShowsIs(nodes, maps, p);
    var nodes' := Cleared(nodes, h, cnt);
    assert Owns(p, h);
    assert Reads(nodes[h], maps[h], p.slabs[h]);
    forall i | h < i < h + cnt ensures i < |p.slabs| && Nowhere(All(p), i) && Reads(ZERO, maps[i], p.slabs[i]) {
      assert Owned(p, i);
      ListedWhere(p, i);
    }
    KeepLinks(nodes, nodes', |p.slabs|, All(p));
    forall i | 0 <= i < |p.slabs| ensures Reads(nodes'[i], maps[i], p.slabs[i]) { assert Reads(nodes[i], maps[i], p.slabs[i]); }
    ShowsIs(nodes', maps, p);
  }

  /** A free run leaves its place and comes to the front. */
  lemma FrontShows(nodes: seq<Node>, maps: seq<seq<bool>>, p: Pool, h: nat, k: nat)
    requires Shows(nodes, maps, p) && k < |p.free| && h == p.free[k] && h < |p.slabs|
    requires forall j :: 0 <= j < |p.free| ==> p.free[j] < |p.slabs| && nodes[p.free[j]].prev.tag == PageTag
    ensures nodes[h].next != NULL && 0 <= nodes[h].prev.to < |nodes| && 0 <= nodes[h].next < |nodes|
    ensures 0 <= Unlinked(nodes, h)[|p.slabs| + SLOTS].next < |nodes|
    ensures Shows(Pushed(Unlinked(nodes, h), |p.slabs| + SLOTS, h, PageTag), maps, p.(free := [h] + (p.free[..k] + p.free[k + 1..])))
  {
    var n, rest := |p.slabs|, p.free[..k] + p.free[k + 1..];
    var p1, p2 := p.(free := rest), p.(free := [h] + rest);
    assert All(p)[SLOTS] == p.free && All(p1) == All(p)[SLOTS := rest] && All(p1)[SLOTS] == rest;
    assert All(p2) == All(p1)[SLOTS := [h] + All(p1)[SLOTS]];
    var u := nodes[h].(next := NULL);
    UnlinkShows(nodes, maps, p, p1, SLOTS, k, u);
    var mid := Unlinked(nodes, h);
    FrontTag(nodes, mid, n, p.free, k, h, rest);
    PushShows(mid[h := u], maps, p1, p2, SLOTS, h, PageTag);
    SamePush(mid, mid[h := u], n + SLOTS, h, PageTag);
  }

  /** The first run of the rest still has its tag. */
  lemma FrontTag(nodes: seq<Node>, mid: seq<Node>, n: nat, q: seq<nat>, k: nat, h: nat, rest: seq<nat>)
    requires k < |q| && h == q[k] && h < |nodes| && rest == q[..k] + q[k + 1..]
    requires forall j :: 0 <= j < |q| ==> q[j] < |nodes| && nodes[q[j]].prev.tag == PageTag
    requires 0 <= nodes[h].prev.to < |nodes| && 0 <= nodes[h].next < |nodes| && mid == Unlinked(nodes, h)
    ensures rest != [] ==> mid[rest[0]].prev.tag == PageTag
  {
    if rest != [] { assert rest[0] == q[if k == 0 then 1 else 0]; }
  }

  /** A push overwrites the links of what is pushed. */
  lemma SamePush(a: seq<Node>, b: seq<Node>, head: nat, x: nat, tag: Tag)
    requires |a| == |b| && x < |a| && head < |a| && x != head && 0 <= b[head].next < |b|
    requires b == a[x := b[x]] && b[x].slab == a[x].slab
    ensures Pushed(a, head, x, tag) == Pushed(b, head, x, tag)
  {
  }

  /** ngx_slab_free_pages on the start of a free run. */
  lemma MoveFrontRep(nodes: seq<Node>, maps: seq<seq<bool>>, p: Pool, h: nat, cnt: nat)
    requires Rep(nodes, maps, p) && h < |p.slabs| && p.slabs[h] == Pages(cnt, false) && 1 <= cnt
    ensures var mid := Cleared(nodes, h, cnt);
      && nodes[h].next != NULL && 0 <= nodes[h].prev.to < |nodes| && 0 <= nodes[h].next < |nodes|
      && 0 <= Unlinked(mid, h)[|p.slabs| + SLOTS].next < |nodes|
      && Rep(Pushed(Unlinked(mid, h), |p.slabs| + SLOTS, h, PageTag), maps, MoveFront(p, h))
  {
    var mid := Cleared(nodes, h, cnt);
    ReclearedShows(nodes, maps, p, h, cnt);
    ReclearedTags(nodes, mid, maps, p, h, cnt);
    assert h in p.free by { OkIs(p); }
    var k := WithoutSplit(p.free, h);
    FrontShows(mid, maps, p, h, k);
    MoveFrontOk(p, h);
  }

  lemma ReclearedTags(nodes: seq<Node>, mid: seq<Node>, maps: seq<seq<bool>>, p: Pool, h: nat, cnt: nat)
    requires Rep(nodes, maps, p) && h < |p.slabs| && mid == Cleared(nodes, h, cnt)
    ensures forall j :: 0 <= j < |p.free| ==> p.free[j] < |p.slabs| && mid[p.free[j]].prev.tag == PageTag
  {
    FreeTags(nodes, maps, p);
  }
}
