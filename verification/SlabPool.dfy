/** nginx/src/core/ngx_slab.c as operations on a value: which page belongs to what, the
    list of free runs and the lists of chunk pages with room, one for each chunk size.
    The page size is 4096, the word 64 bits and the smallest chunk 8 bytes. */
module SlabPool {
  import opened Lists
  import opened Sealing

  const PAGE := 4096
  const MIN_SHIFT := 3
  const EXACT_SHIFT := 6
  const MAX_SHIFT := 11
  const SLOTS := 9
  const MAX_SIZE := 2048

  datatype Option<T> = None | Some(value: T)

  /** What a page descriptor says about its page: the head of a free run or of an
      allocated run of n pages, a later page of a free run (n == 0) or of an allocated
      run, or a page of chunks with a bit for each chunk. */
  datatype Slab = Pages(n: nat, start: bool) | Busy | Chunks(shift: nat, bits: seq<bool>)

  datatype Pool = Pool(
    slabs: seq<Slab>,
    owner: seq<nat>,          // the first page of the run each page belongs to
    free: seq<nat>,           // the free runs, as linked from pool->free
    lists: seq<seq<nat>>)     // the pages with room, as linked from each slot

  function ChunkSize(shift: nat): (r: nat) {
    match shift
    case 3 => 8 case 4 => 16 case 5 => 32 case 6 => 64 case 7 => 128 case 8 => 256
    case 9 => 512 case 10 => 1024 case _ => 2048
  }

  function ChunkCount(shift: nat): (r: nat)
  {
    match shift
    case 3 => 512 case 4 => 256 case 5 => 128 case 6 => 64 case 7 => 32 case 8 => 16
    case 9 => 8 case 10 => 4 case _ => 2
  }

  /** The chunks at the start of a page that hold its bitmap; ReservedIs has the source's
      formula. */
  function Reserved(shift: nat): (r: nat) {
    match shift
    case 3 => 8 case 4 => 2 case 5 => 1 case _ => 0
  }

  predicate IsShift(shift: nat) { MIN_SHIFT <= shift <= MAX_SHIFT }

  /** Chunks fill a page, and the bitmap of a page of small chunks fits in the reserved
      ones. */
  lemma ChunkFacts(shift: nat, k: nat)
    requires IsShift(shift) && k < ChunkCount(shift)
    ensures ChunkSize(shift) * ChunkCount(shift) == PAGE
    ensures 0 <= k * ChunkSize(shift) <= PAGE - ChunkSize(shift)
    ensures (k * ChunkSize(shift)) / ChunkSize(shift) == k && (k * ChunkSize(shift)) % ChunkSize(shift) == 0
    ensures Reserved(shift) + 1 < ChunkCount(shift) || shift == MAX_SHIFT
    ensures shift < EXACT_SHIFT ==> ChunkCount(shift) / 64 * 8 <= Reserved(shift) * ChunkSize(shift) && 1 <= Reserved(shift)
  {
    match shift
    case 3 => case 4 => case 5 => case 6 => case 7 => case 8 => case 9 => case 10 => case _ => assert shift == 11;
  }

  /** One bit for each chunk, in whole chunks, and at least one chunk. */
  lemma ReservedIs(shift: nat)
    requires MIN_SHIFT <= shift < EXACT_SHIFT
    ensures Reserved(shift) == var n := ChunkCount(shift) / 8 / ChunkSize(shift); if n == 0 then 1 else n
  {
    match shift
    case 3 => case 4 => case _ => assert shift == 5;
  }

  // ----- the invariant -----

  predicate IsHead(s: Slab) { s.Chunks? || (s.Pages? && s.n > 0) }

  function Length(s: Slab): nat { if s.Pages? then s.n else 1 }

  predicate IsFree(s: Slab) { s.Pages? && !s.start && s.n > 0 }

  function Tail(s: Slab): Slab { if IsFree(s) then Pages(0, false) else Busy }

  /** Page i belongs to the run that starts at page owner[i]. */
  ghost predicate Owned(p: Pool, i: nat)
    requires i < |p.slabs| == |p.owner|
  {
    var h := p.owner[i];
    && h <= i && p.owner[h] == h && IsHead(p.slabs[h])
    && i < h + Length(p.slabs[h]) <= |p.slabs|
    && (i != h ==> p.slabs[i] == Tail(p.slabs[h]))
  }

  /** A run owns all its pages. */
  ghost predicate Owns(p: Pool, h: nat)
    requires h < |p.slabs| == |p.owner|
  {
    IsHead(p.slabs[h]) ==> h + Length(p.slabs[h]) <= |p.slabs| && forall j :: h <= j < h + Length(p.slabs[h]) ==> p.owner[j] == h
  }

  ghost predicate Covered(p: Pool) {
    && |p.owner| == |p.slabs|
    && (forall i :: 0 <= i < |p.slabs| ==> Owned(p, i))
    && (forall h :: 0 <= h < |p.slabs| ==> Owns(p, h))
  }

  ghost predicate FreeListed(p: Pool) {
    && NoRepeats(p.free)
    && (forall k :: 0 <= k < |p.free| ==> p.free[k] < |p.slabs| && IsFree(p.slabs[p.free[k]]))
    && (forall i :: 0 <= i < |p.slabs| && IsFree(p.slabs[i]) ==> i in p.free)
  }

  predicate HasRoom(bits: seq<bool>) { exists k :: 0 <= k < |bits| && !bits[k] }

  /** The reserved chunks are taken, and some other chunk is. */
  ghost predicate ChunksOk(s: Slab) {
    s.Chunks? ==>
      && IsShift(s.shift) && |s.bits| == ChunkCount(s.shift)
      && (forall k :: 0 <= k < Reserved(s.shift) ==> s.bits[k])
      && (exists k :: Reserved(s.shift) <= k < |s.bits| && s.bits[k])
  }

  predicate Linked(s: Slab, slot: nat) { s.Chunks? && s.shift == slot + MIN_SHIFT && HasRoom(s.bits) }

  ghost predicate SlotListed(p: Pool, slot: nat)
    requires slot < |p.lists|
  {
    && NoRepeats(p.lists[slot])
    && (forall k :: 0 <= k < |p.lists[slot]| ==> p.lists[slot][k] < |p.slabs| && Linked(p.slabs[p.lists[slot][k]], slot))
    && (forall i :: 0 <= i < |p.slabs| && Linked(p.slabs[i], slot) ==> i in p.lists[slot])
  }

  ghost predicate Listed(p: Pool) { |p.lists| == SLOTS && forall s :: 0 <= s < SLOTS ==> SlotListed(p, s) }

  ghost predicate InOrder(p: Pool) {
    Covered(p) && FreeListed(p) && Listed(p) && forall i :: 0 <= i < |p.slabs| ==> ChunksOk(p.slabs[i])
  }

  /** The same behind a seal, the sizes outside it. */
  ghost predicate Kept(s: Seal, p: Pool) {
    match s
    case Bare => InOrder(p)
    case Wrapped(inner) => Kept(inner, p)
  }

  ghost predicate Ok(p: Pool) {
    && |p.owner| == |p.slabs| && |p.lists| == SLOTS && (forall k :: 0 <= k < |p.free| ==> p.free[k] < |p.slabs|)
    && Kept(SEAL, p)
  }

  lemma OkIs(p: Pool)
    ensures Ok(p) <==> InOrder(p)
  {
    assert Kept(Wrapped(Bare), p) <==> InOrder(p);
    assert Kept(Wrapped(Wrapped(Bare)), p) <==> InOrder(p);
  }

  lemma ChunkPageOk(p: Pool, h: nat)
    requires Ok(p) && h < |p.slabs|
    ensures ChunksOk(p.slabs[h])
  {
    OkIs(p);
  }

  // ----- pages -----

  function Filled<T>(s: seq<T>, lo: nat, hi: nat, v: T): (r: seq<T>)
    ensures |r| == |s|
  {
    seq(|s|, i requires 0 <= i < |s| => if lo <= i < hi then v else s[i])
  }

  /** The first free run of at least n pages, from the k-th on. */
  function FirstFit(p: Pool, n: nat, k: nat): (r: nat)
    requires k <= |p.free| && forall j :: 0 <= j < |p.free| ==> p.free[j] < |p.slabs|
    ensures k <= r <= |p.free| && (r < |p.free| ==> Length(p.slabs[p.free[r]]) >= n)
    ensures forall j :: k <= j < r ==> Length(p.slabs[p.free[j]]) < n
    decreases |p.free| - k
  {
    if k == |p.free| || Length(p.slabs[p.free[k]]) >= n then k else FirstFit(p, n, k + 1)
  }

  /** n pages are cut off the front of the k-th free run. */
  function Cut(p: Pool, k: nat, n: nat): Pool
    requires k < |p.free| && p.free[k] < |p.slabs| == |p.owner| && 1 <= n <= Length(p.slabs[p.free[k]])
    requires p.free[k] + Length(p.slabs[p.free[k]]) <= |p.slabs|
  {
    var h := p.free[k];
    var len := Length(p.slabs[h]);
    var slabs := Filled(p.slabs, h + 1, h + n, Busy)[h := Pages(n, true)];
    if len > n then
      p.(slabs := slabs[h + n := Pages(len - n, false)], owner := Filled(p.owner, h + n, h + len, h + n),
         free := p.free[k := h + n])
    else p.(slabs := slabs, free := p.free[..k] + p.free[k + 1..])
  }

  /** ngx_slab_alloc_pages */
  function AllocPages(p: Pool, n: nat): (Pool, Option<nat>)
    requires Ok(p) && 1 <= n
  {
    var k := FirstFit(p, n, 0);
    if k == |p.free| then (p, None)
    else
      OkIs(p);
      HeadFits(p, p.free[k]);
      (Cut(p, k, n), Some(p.free[k]))
  }

  lemma HeadFits(p: Pool, h: nat)
    requires Covered(p) && h < |p.slabs| && IsHead(p.slabs[h])
    ensures h + Length(p.slabs[h]) <= |p.slabs| && p.owner[h] == h
  {
    assert Owns(p, h);
  }

  /** ngx_slab_free_pages, after the page has left its slot list. */
  function FreePages(p: Pool, h: nat, n: nat): Pool
    requires h < |p.slabs| && 1 <= n
  {
    p.(slabs := Filled(p.slabs, h + 1, h + n, Pages(0, false))[h := Pages(n, false)], free := [h] + p.free)
  }

  lemma CutOwned(p: Pool, k: nat, n: nat, i: nat)
    requires Covered(p) && FreeListed(p) && k < |p.free| && 1 <= n <= Length(p.slabs[p.free[k]]) && i < |p.slabs|
    requires p.free[k] + Length(p.slabs[p.free[k]]) <= |p.slabs|
    ensures Owned(Cut(p, k, n), i)
  {
    assert Owns(p, p.free[k]);
    assert Owned(p, i);
  }

  lemma CutCovered(p: Pool, k: nat, n: nat)
    requires Covered(p) && FreeListed(p) && k < |p.free| && 1 <= n <= Length(p.slabs[p.free[k]])
    ensures p.free[k] + Length(p.slabs[p.free[k]]) <= |p.slabs| && Covered(Cut(p, k, n))
  {
    var h := p.free[k];
    HeadFits(p, h);
    var p' := Cut(p, k, n);
    assert Owns(p, h);
    forall i | 0 <= i < |p.slabs| ensures Owned(p', i) { CutOwned(p, k, n, i); }
    forall i | 0 <= i < |p.slabs| ensures Owns(p', i) { assert Owns(p, i) && Owned(p, i); }
  }

  /** Inside a run only its first page is a head. */
  lemma OneHead(p: Pool, h: nat, i: nat)
    requires Covered(p) && h < |p.slabs| && IsHead(p.slabs[h]) && h <= i < h + Length(p.slabs[h])
    ensures i < |p.slabs| && (i != h ==> !IsHead(p.slabs[i]))
  {
    assert Owns(p, h);
    assert Owned(p, i);
  }

  lemma CutListed(p: Pool, k: nat, n: nat)
    requires Covered(p) && FreeListed(p) && k < |p.free| && 1 <= n <= Length(p.slabs[p.free[k]])
    requires p.free[k] + Length(p.slabs[p.free[k]]) <= |p.slabs|
    ensures FreeListed(Cut(p, k, n))
  {
    var h := p.free[k];
    var len := Length(p.slabs[h]);
    var p' := Cut(p, k, n);
    assert forall i :: h < i < h + len ==> !IsHead(p.slabs[i]) by {
      forall i | h < i < h + len ensures !IsHead(p.slabs[i]) { OneHead(p, h, i); }
    }
    CutList(p.free, k, h + n, p'.free, len > n);
    forall i | 0 <= i < |p.slabs| && IsFree(p'.slabs[i]) ensures i in p'.free {
      if i == h + n && len > n {
        assert p'.free[k] == i;
      } else {
        assert IsFree(p.slabs[i]) && i != h;
      }
    }
  }

  /** An element of a list is replaced or removed; the others stay. */
  lemma CutList(q: seq<nat>, k: nat, x: nat, q': seq<nat>, replaced: bool)
    requires NoRepeats(q) && k < |q| && q' == if replaced then q[k := x] else q[..k] + q[k + 1..]
    requires replaced ==> x !in q
    ensures NoRepeats(q') && (forall y <- q :: y == q[k] || y in q')
    ensures forall j :: 0 <= j < |q'| ==> (q'[j] in q && q'[j] != q[k]) || (replaced && q'[j] == x)
  {
    forall y | y in q && y != q[k] ensures y in q' {
      var j :| 0 <= j < |q| && q[j] == y;
      assert q'[if replaced || j < k then j else j - 1] == y;
    }
    assert !replaced ==> forall j :: 0 <= j < |q'| ==> q'[j] == q[if j < k then j else j + 1];
  }

  /** Chunk pages keep their places when other pages change. */
  lemma SameChunks(p: Pool, p': Pool)
    requires Listed(p) && p'.lists == p.lists && |p'.slabs| == |p.slabs|
    requires forall i :: 0 <= i < |p.slabs| && (p.slabs[i].Chunks? || p'.slabs[i].Chunks?) ==> p'.slabs[i] == p.slabs[i]
    ensures Listed(p')
  {
    forall s | 0 <= s < SLOTS ensures SlotListed(p', s) { assert SlotListed(p, s); }
  }

  /** n pages leave the free runs and become a run of their own. */
  lemma CutOk(p: Pool, k: nat, n: nat)
    requires Ok(p) && k < |p.free| && 1 <= n <= Length(p.slabs[p.free[k]])
    ensures p.free[k] + Length(p.slabs[p.free[k]]) <= |p.slabs| && Ok(Cut(p, k, n))
    ensures Cut(p, k, n).slabs[p.free[k]] == Pages(n, true)
  {
    OkIs(p);
    CutCovered(p, k, n);
    CutListed(p, k, n);
    CutChunks(p, k, n);
    OkIs(Cut(p, k, n));
  }

  lemma CutChunks(p: Pool, k: nat, n: nat)
    requires Ok(p) && k < |p.free| && 1 <= n <= Length(p.slabs[p.free[k]])
    requires p.free[k] + Length(p.slabs[p.free[k]]) <= |p.slabs|
    ensures Listed(Cut(p, k, n)) && forall i :: 0 <= i < |p.slabs| ==> ChunksOk(Cut(p, k, n).slabs[i])
  {
    OkIs(p);
    var h := p.free[k];
    var p' := Cut(p, k, n);
    forall i | 0 <= i < |p.slabs| && h <= i < h + Length(p.slabs[h]) ensures !p.slabs[i].Chunks? && !p'.slabs[i].Chunks? {
      OneHead(p, h, i);
    }
    SameChunks(p, p');
  }

  /** A run goes back to the head of the free list. */
  lemma FreedCovered(p: Pool, h: nat)
    requires Covered(p) && h < |p.slabs| && IsHead(p.slabs[h])
    ensures Covered(FreePages(p, h, Length(p.slabs[h])))
  {
    var p' := FreePages(p, h, Length(p.slabs[h]));
    assert Owns(p, h);
    forall i | 0 <= i < |p.slabs| ensures Owned(p', i) { assert Owned(p, i); }
    forall i | 0 <= i < |p.slabs| ensures Owns(p', i) { assert Owns(p, i) && Owned(p, i); }
  }

  lemma FreedListed(p: Pool, h: nat)
    requires Covered(p) && FreeListed(p) && h < |p.slabs| && IsHead(p.slabs[h]) && !IsFree(p.slabs[h])
    ensures FreeListed(FreePages(p, h, Length(p.slabs[h])))
  {
    var p' := FreePages(p, h, Length(p.slabs[h]));
    forall i | h < i < h + Length(p.slabs[h]) ensures i < |p.slabs| && !IsFree(p.slabs[i]) { OneHead(p, h, i); }
    assert h !in p.free;
    assert forall k :: 0 < k < |p'.free| ==> p'.free[k] == p.free[k - 1];
    forall i | 0 <= i < |p.slabs| && IsFree(p'.slabs[i]) ensures i in p'.free {
      if i == h { assert p'.free[0] == h; } else { assert i in p.free; }
    }
  }
}
