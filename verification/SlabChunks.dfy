/** Allocation and release in nginx/src/core/ngx_slab.c, as functions on the pool, and
    what they do to the live blocks. */
module SlabChunks {
  import opened Lists
  import opened SlabPool

  // ----- operations -----

  function FirstClear(bits: seq<bool>, k: nat): (r: nat)
    requires k <= |bits|
    ensures k <= r <= |bits| && (forall j :: k <= j < r ==> bits[j]) && (r < |bits| ==> !bits[r])
    decreases |bits| - k
  {
    if k == |bits| || !bits[k] then k else FirstClear(bits, k + 1)
  }

  /** A chunk of the first page in the slot's list; a page that is now full leaves the
      list. */
  function Take(p: Pool, slot: nat): (Pool, Option<nat>)
    requires slot < |p.lists| && p.lists[slot] != [] && p.lists[slot][0] < |p.slabs| && Linked(p.slabs[p.lists[slot][0]], slot)
  {
    var h := p.lists[slot][0];
    var s := p.slabs[h];
    var k := FirstClear(s.bits, 0);
    var bits := s.bits[k := true];
    (p.(slabs := p.slabs[h := Chunks(s.shift, bits)],
        lists := if HasRoom(bits) then p.lists else p.lists[slot := p.lists[slot][1..]]),
     Some(h * PAGE + k * ChunkSize(s.shift)))
  }

  function FreshBits(shift: nat): (r: seq<bool>)
    ensures |r| == ChunkCount(shift) && forall i :: 0 <= i < |r| ==> r[i] == (i <= Reserved(shift))
  {
    seq(ChunkCount(shift), i => i <= Reserved(shift))
  }

  /** A page just allocated becomes the only page of its slot with room. */
  function Enlist(p: Pool, h: nat, shift: nat): Pool
    requires h < |p.slabs| && MIN_SHIFT <= shift && shift - MIN_SHIFT < |p.lists|
  {
    p.(slabs := p.slabs[h := Chunks(shift, FreshBits(shift))], lists := p.lists[shift - MIN_SHIFT := [h]])
  }

  function AllocChunk(p: Pool, shift: nat): (Pool, Option<nat>)
    requires Ok(p) && IsShift(shift)
  {
    var slot := shift - MIN_SHIFT;
    OkIs(p);
    assert SlotListed(p, slot);
    if p.lists[slot] != [] then Take(p, slot)
    else
      var (p1, h) := AllocPages(p, 1);
      AllocPagesOk(p, 1);
      if h.None? then (p, None)
      else (Enlist(p1, h.value, shift), Some(h.value * PAGE + Reserved(shift) * ChunkSize(shift)))
  }

  /** The size class of a request: the shift loop of ngx_slab_alloc_locked. */
  function ShiftFor(size: nat): (r: nat)
    ensures IsShift(r)
    ensures size <= MAX_SIZE ==> size <= ChunkSize(r) && (r == MIN_SHIFT || ChunkSize(r - 1) < size)
  {
    if size <= 8 then 3 else if size <= 16 then 4 else if size <= 32 then 5 else if size <= 64 then 6
    else if size <= 128 then 7 else if size <= 256 then 8 else if size <= 512 then 9 else if size <= 1024 then 10 else 11
  }

  function PagesFor(size: nat): (r: nat)
    ensures (r - 1) * PAGE < size <= r * PAGE
  {
    size / PAGE + if size % PAGE != 0 then 1 else 0
  }

  /** ngx_slab_alloc_locked, with addresses counted from pool->start. */
  function Alloc(p: Pool, size: nat): (Pool, Option<nat>)
    requires Ok(p)
  {
    if size >= MAX_SIZE then
      var (p', h) := AllocPages(p, PagesFor(size));
      (p', if h.None? then None else Some(h.value * PAGE))
    else AllocChunk(p, ShiftFor(size))
  }

  lemma AllocPagesOk(p: Pool, n: nat)
    requires Ok(p) && 1 <= n
    ensures var (p', h) := AllocPages(p, n);
      && Ok(p') && |p'.slabs| == |p.slabs| && p'.lists == p.lists
      && (h.None? ==> p' == p)
      && (h.Some? ==> h.value < |p.slabs| && IsFree(p.slabs[h.value]) && p'.slabs[h.value] == Pages(n, true))
  {
    var k := FirstFit(p, n, 0);
    if k < |p.free| {
      OkIs(p);
      CutOk(p, k, n);
    }
  }

  /** Some chunk other than the reserved ones is taken. */
  predicate InUse(bits: seq<bool>, shift: nat) { exists k :: Reserved(shift) <= k < |bits| && bits[k] }

  /** A chunk is given back: a page that was full is linked again, one that is now
      unused is freed. */
  function FreeChunk(p: Pool, h: nat, k: nat): Pool
    requires h < |p.slabs| && p.slabs[h].Chunks? && k < |p.slabs[h].bits|
    requires MIN_SHIFT <= p.slabs[h].shift < MIN_SHIFT + |p.lists|
  {
    var s := p.slabs[h];
    var slot := s.shift - MIN_SHIFT;
    var linked := if HasRoom(s.bits) then p.lists[slot] else [h] + p.lists[slot];
    var bits := s.bits[k := false];
    if InUse(bits, s.shift) then p.(slabs := p.slabs[h := Chunks(s.shift, bits)], lists := p.lists[slot := linked])
    else FreePages(p.(lists := p.lists[slot := Without(linked, h)]), h, 1)
  }

  /** ngx_slab_free_pages on the start of a free run: the run leaves its place in the free
      list and comes first. */
  function MoveFront(p: Pool, h: nat): Pool { p.(free := [h] + Without(p.free, h)) }

  /** A descriptor by which ngx_slab_free_locked finds a pointer to be wrong. */
  predicate Noticed(s: Slab, off: nat) {
    match s
    case Pages(n, _) => off != 0 || n == 0
    case Busy => true
    case Chunks(shift, bits) =>
      var k := off / ChunkSize(shift);
      off % ChunkSize(shift) != 0 || k >= |bits| || !bits[k]
  }

  /** ngx_slab_free_locked for a pointer into the pages; one that it can tell to be wrong
      changes nothing. */
  function Free(p: Pool, a: nat): Pool
    requires Ok(p) && a / PAGE < |p.slabs|
  {
    var h, off := a / PAGE, a % PAGE;
    if Noticed(p.slabs[h], off) then p
    else
      match p.slabs[h]
      case Pages(n, start) => if start then FreePages(p, h, n) else MoveFront(p, h)
      case Busy => p
      case Chunks(shift, _) =>
        ChunkPageOk(p, h);
        FreeChunk(p, h, off / ChunkSize(shift))
  }

  /** What memory holds where the descriptor after the last would be, whether its `next`
      is set, and whether it ends before the pages start. */
  datatype Reading = Reading(slab: Slab, linked: bool, apart: bool)

  /** One that has the form of a descriptor; the tag goes with the shift. */
  type Stray = d: Reading | Formed(d.slab) witness Reading(Pages(0, false), false, true)

  predicate Formed(s: Slab) {
    match s
    case Pages(n, start) => start ==> n > 0
    case Busy => true
    case Chunks(shift, bits) => IsShift(shift) && |bits| == ChunkCount(shift)
  }

  /** Whether ngx_slab_free_locked puts the page of a taken chunk in its slot's list: a page
      of the exact size when its bitmap is all ones, others when `next` is null. */
  predicate Joins(d: Stray)
    requires d.slab.Chunks?
  {
    if d.slab.shift == EXACT_SHIFT then !HasRoom(d.slab.bits) else !d.linked
  }

  /** A pointer to no page that the test against pool->end lets through; top is the
      distance of pool->end from pool->start. */
  predicate Strays(p: Pool, a: nat, top: nat) { |p.slabs| <= a / PAGE && a <= top }

  /** ngx_slab_free_locked for every pointer from pool->start on; d is what is read as the
      descriptor of a pointer that strays.  One that is written to must not reach into the
      pages. */
  function Release(p: Pool, a: nat, top: nat, d: Stray): Pool
    requires Ok(p) && |p.slabs| * PAGE <= top && (Strays(p, a, top) ==> d.apart || Noticed(d.slab, a % PAGE))
  {
    var h, off := a / PAGE, a % PAGE;
    if a > top then p
    else if h < |p.slabs| then Free(p, a)
    else if Noticed(d.slab, off) then p
    else
      match d.slab
      case Pages(_, _) => p.(free := [h] + p.free)
      case Busy => p
      case Chunks(shift, bits) =>
        var linked := if Joins(d) then [h] + p.lists[shift - MIN_SHIFT] else p.lists[shift - MIN_SHIFT];
        if InUse(bits[off / ChunkSize(shift) := false], shift) then p.(lists := p.lists[shift - MIN_SHIFT := linked])
        else p.(free := [h] + p.free, lists := p.lists[shift - MIN_SHIFT := Without(linked, h)])
  }

  // ----- live blocks -----

  /** An allocated block starts at this address. */
  predicate LiveAt(p: Pool, a: nat) {
    && a / PAGE < |p.slabs|
    && match p.slabs[a / PAGE]
       case Pages(n, start) => start && n > 0 && a % PAGE == 0
       case Busy => false
       case Chunks(shift, bits) =>
         && (a % PAGE) % ChunkSize(shift) == 0
         && Reserved(shift) <= (a % PAGE) / ChunkSize(shift) < |bits| && bits[(a % PAGE) / ChunkSize(shift)]
  }

  function SizeAt(p: Pool, a: nat): nat
    requires LiveAt(p, a)
  {
    match p.slabs[a / PAGE]
    case Pages(n, _) => n * PAGE
    case Chunks(shift, _) => ChunkSize(shift)
  }

  /** A live block lies in the pool, is aligned to its size class, and stays clear of the
      bitmap at the start of its page. */
  lemma BlockFacts(p: Pool, a: nat)
    requires Ok(p) && LiveAt(p, a)
    ensures 0 < SizeAt(p, a) && a + SizeAt(p, a) <= |p.slabs| * PAGE
    ensures match p.slabs[a / PAGE]
      case Chunks(shift, _) => (a % PAGE) % SizeAt(p, a) == 0 && a % PAGE + SizeAt(p, a) <= PAGE
        && (shift < EXACT_SHIFT ==> a % PAGE >= ChunkCount(shift) / 64 * 8)
      case _ => a % PAGE == 0
  {
    OkIs(p);
    var h := a / PAGE;
    assert ChunksOk(p.slabs[h]);
    match p.slabs[h]
    case Pages(n, _) => HeadFits(p, h);
    case Chunks(shift, bits) =>
      var off := a % PAGE;
      var k := off / ChunkSize(shift);
      ChunkFacts(shift, k);
      ChunkAt(shift, off);
  }

  lemma ChunkAt(shift: nat, off: nat)
    requires IsShift(shift) && off < PAGE && off % ChunkSize(shift) == 0
    ensures off == off / ChunkSize(shift) * ChunkSize(shift) && off / ChunkSize(shift) < ChunkCount(shift)
    ensures shift < EXACT_SHIFT && Reserved(shift) <= off / ChunkSize(shift) ==> ChunkCount(shift) / 64 * 8 <= off
  {
    match shift
    case 3 => case 4 => case 5 => case 6 => case 7 => case 8 => case 9 => case 10 => case _ => assert shift == 11;
  }

  /** Live blocks do not overlap. */
  lemma Disjoint(p: Pool, a: nat, b: nat)
    requires Ok(p) && LiveAt(p, a) && LiveAt(p, b) && a < b
    ensures a + SizeAt(p, a) <= b
  {
    OkIs(p);
    var h, g := a / PAGE, b / PAGE;
    BlockFacts(p, a);
    if h == g {
      assert p.slabs[h].Chunks?;
      var shift := p.slabs[h].shift;
      assert ChunksOk(p.slabs[h]);
      Apart(shift, a % PAGE, b % PAGE);
    } else if !p.slabs[h].Chunks? && g < h + Length(p.slabs[h]) {
      OneHead(p, h, g);
    }
  }

  lemma Apart(shift: nat, a: nat, b: nat)
    requires IsShift(shift) && a % ChunkSize(shift) == 0 && b % ChunkSize(shift) == 0 && a < b
    ensures a + ChunkSize(shift) <= b
  {
    match shift
    case 3 => case 4 => case 5 => case 6 => case 7 => case 8 => case 9 => case 10 => case _ => assert shift == 11;
  }

  // ----- what the operations keep -----

  /** One page that is not free changes into another. */
  lemma PageChanged(p: Pool, p': Pool, h: nat, s: Slab)
    requires Covered(p) && FreeListed(p) && h < |p.slabs|
    requires IsHead(p.slabs[h]) && !IsFree(p.slabs[h]) && Length(p.slabs[h]) == 1
    requires IsHead(s) && !IsFree(s) && Length(s) == 1
    requires p'.slabs == p.slabs[h := s] && p'.owner == p.owner && p'.free == p.free
    ensures Covered(p') && FreeListed(p')
  {
    assert Owned(p, h);
    forall i | 0 <= i < |p.slabs| ensures Owned(p', i) { assert Owned(p, i); }
    forall i | 0 <= i < |p.slabs| ensures Owns(p', i) { assert Owns(p, i); }
  }

  /** One page and the list of one slot change together. */
  lemma SlotChanged(p: Pool, p': Pool, h: nat, slot: nat, q: seq<nat>)
    requires Listed(p) && h < |p.slabs| && slot < SLOTS
    requires |p'.slabs| == |p.slabs| && forall i :: 0 <= i < |p.slabs| && i != h ==> p'.slabs[i] == p.slabs[i]
    requires forall t :: 0 <= t < SLOTS && t != slot ==> !Linked(p.slabs[h], t) && !Linked(p'.slabs[h], t)
    requires p'.lists == p.lists[slot := q] && NoRepeats(q)
    requires forall k :: 0 <= k < |q| ==> if q[k] == h then Linked(p'.slabs[h], slot) else q[k] in p.lists[slot]
    requires forall x <- p.lists[slot] :: x != h ==> x in q
    requires Linked(p'.slabs[h], slot) ==> h in q
    ensures Listed(p')
  {
    forall t | 0 <= t < SLOTS ensures SlotListed(p', t) { assert SlotListed(p, t); }
  }

  lemma TakeOk(p: Pool, slot: nat)
    requires Ok(p) && slot < SLOTS && p.lists[slot] != []
    ensures p.lists[slot][0] < |p.slabs| && Linked(p.slabs[p.lists[slot][0]], slot) && Ok(Take(p, slot).0)
  {
    OkIs(p);
    assert SlotListed(p, slot);
    var h := p.lists[slot][0];
    assert ChunksOk(p.slabs[h]);
    var p' := Take(p, slot).0;
    var s, s' := p.slabs[h], p'.slabs[h];
    PageChanged(p, p', h, s');
    assert ChunksOk(s') by {
      var k :| Reserved(s.shift) <= k < |s.bits| && s.bits[k];
      assert s'.bits[k];
    }
    var q := if HasRoom(s'.bits) then p.lists[slot] else p.lists[slot][1..];
    assert forall k :: 0 <= k < |q| ==> q[k] in p.lists[slot];
    SlotChanged(p, p', h, slot, q);
    OkIs(Take(p, slot).0);
  }

  lemma EnlistOk(p: Pool, h: nat, shift: nat)
    requires Ok(p) && IsShift(shift) && p.lists[shift - MIN_SHIFT] == []
    requires h < |p.slabs| && p.slabs[h] == Pages(1, true)
    ensures Ok(Enlist(p, h, shift))
  {
    OkIs(p);
    var p' := Enlist(p, h, shift);
    ChunkFacts(shift, 0);
    var s := p'.slabs[h];
    PageChanged(p, p', h, s);
    assert ChunksOk(s) by { assert s.bits[Reserved(shift)]; }
    assert HasRoom(s.bits) by { assert !s.bits[|s.bits| - 1]; }
    SlotChanged(p, p', h, shift - MIN_SHIFT, [h]);
    OkIs(Enlist(p, h, shift));
  }

  /** A run of pages is freed. */
  lemma FreeRunOk(p: Pool, h: nat)
    requires Ok(p) && h < |p.slabs| && p.slabs[h].Pages? && p.slabs[h].start && p.slabs[h].n > 0
    ensures Ok(FreePages(p, h, p.slabs[h].n))
  {
    OkIs(p);
    var p' := FreePages(p, h, p.slabs[h].n);
    FreedCovered(p, h);
    FreedListed(p, h);
    forall i | 0 <= i < |p.slabs| && h <= i < h + p.slabs[h].n ensures !p.slabs[i].Chunks? && !p'.slabs[i].Chunks? {
      OneHead(p, h, i);
    }
    SameChunks(p, p');
    OkIs(FreePages(p, h, p.slabs[h].n));
  }

  /** The list of a slot once a page that was full is back in it. */
  lemma Relinked(p: Pool, h: nat, slot: nat, q: seq<nat>)
    requires h < |p.slabs| && p.slabs[h].Chunks? && slot == p.slabs[h].shift - MIN_SHIFT
    requires slot < |p.lists| && SlotListed(p, slot) && q == if HasRoom(p.slabs[h].bits) then p.lists[slot] else [h] + p.lists[slot]
    ensures NoRepeats(q) && h in q && (forall x <- p.lists[slot] :: x in q)
    ensures forall k :: 0 <= k < |q| ==> q[k] == h || q[k] in p.lists[slot]
  {
    if !HasRoom(p.slabs[h].bits) {
      assert h !in p.lists[slot];
      assert forall k :: 0 < k < |q| ==> q[k] == p.lists[slot][k - 1];
      assert q[0] == h;
      forall x | x in p.lists[slot] ensures x in q {
        var k :| 0 <= k < |p.lists[slot]| && p.lists[slot][k] == x;
        assert q[k + 1] == x;
      }
    }
  }

  lemma FreeChunkOk(p: Pool, h: nat, k: nat)
    requires Ok(p) && h < |p.slabs| && p.slabs[h].Chunks? && Reserved(p.slabs[h].shift) <= k < |p.slabs[h].bits|
    ensures IsShift(p.slabs[h].shift) && Ok(FreeChunk(p, h, k))
  {
    OkIs(p);
    var s := p.slabs[h];
    assert ChunksOk(s);
    var slot := s.shift - MIN_SHIFT;
    var q := if HasRoom(s.bits) then p.lists[slot] else [h] + p.lists[slot];
    assert SlotListed(p, slot);
    Relinked(p, h, slot, q);
    var bits := s.bits[k := false];
    if InUse(bits, s.shift) {
      var p' := FreeChunk(p, h, k);
      PageChanged(p, p', h, p'.slabs[h]);
      assert ChunksOk(p'.slabs[h]);
      assert HasRoom(bits) by { assert !bits[k]; }
      SlotChanged(p, p', h, slot, q);
    } else {
      EmptyPageOk(p, h, slot, q);
    }
    OkIs(FreeChunk(p, h, k));
  }

  /** A page of chunks that nobody uses any more goes back to the free runs. */
  lemma EmptyPageOk(p: Pool, h: nat, slot: nat, q: seq<nat>)
    requires Ok(p) && h < |p.slabs| && p.slabs[h].Chunks? && slot == p.slabs[h].shift - MIN_SHIFT && slot < SLOTS
    requires NoRepeats(q) && h in q && (forall x <- p.lists[slot] :: x in q)
    requires forall k :: 0 <= k < |q| ==> q[k] == h || q[k] in p.lists[slot]
    ensures Ok(FreePages(p.(lists := p.lists[slot := Without(q, h)]), h, 1))
  {
    OkIs(p);
    var r := Without(q, h);
    var p' := FreePages(p.(lists := p.lists[slot := r]), h, 1);
    FreedCovered(p, h);
    FreedListed(p, h);
    SameButLists(FreePages(p, h, 1), p');
    WithoutRepeats(q, h);
    forall x | x in p.lists[slot] && x != h ensures x in r { WithoutMember(q, h, x); }
    forall k | 0 <= k < |r| ensures r[k] in p.lists[slot] { WithoutMember(q, h, r[k]); }
    SlotChanged(p, p', h, slot, r);
    OkIs(FreePages(p.(lists := p.lists[slot := Without(q, h)]), h, 1));
  }

  lemma SameButLists(p: Pool, p': Pool)
    requires Covered(p) && FreeListed(p) && p' == p.(lists := p'.lists)
    ensures Covered(p') && FreeListed(p')
  {
    forall i | 0 <= i < |p.slabs| ensures Owned(p', i) && Owns(p', i) { assert Owned(p, i) && Owns(p, i); }
  }

  /** Moving a free run to the front keeps the pool in order. */
  lemma MoveFrontOk(p: Pool, h: nat)
    requires Ok(p) && h < |p.slabs| && IsFree(p.slabs[h])
    ensures Ok(MoveFront(p, h))
  {
    OkIs(p);
    var q, p' := Without(p.free, h), MoveFront(p, h);
    WithoutRepeats(p.free, h);
    forall x | x in q ensures x in p.free { WithoutMember(p.free, h, x); }
    forall k | 0 <= k < |p'.free| ensures p'.free[k] < |p.slabs| && IsFree(p.slabs[p'.free[k]]) {
      if k > 0 { assert p'.free[k] == q[k - 1] && q[k - 1] in q; }
    }
    assert forall k :: 0 < k < |p'.free| ==> p'.free[k] == q[k - 1];
    assert p'.free[0] == h;
    forall i | 0 <= i < |p.slabs| && IsFree(p.slabs[i]) ensures i in p'.free {
      if i != h { WithoutMember(p.free, h, i); }
    }
    MovedOk(p, p');
    OkIs(MoveFront(p, h));
  }

  /** Only the order of the free list changes. */
  lemma MovedOk(p: Pool, p': Pool)
    requires Ok(p) && p' == p.(free := p'.free) && FreeListed(p')
    ensures Ok(p')
  {
    OkIs(p);
    forall i | 0 <= i < |p.slabs| ensures Owned(p', i) && Owns(p', i) { assert Owned(p, i) && Owns(p, i); }
    SameChunks(p, p');
    OkIs(p');
  }
}
