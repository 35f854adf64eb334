/** Over every run of allocations and releases: which blocks are live, when a request
    fails, and which wrong releases go unnoticed. */
module SlabSafety {
  import opened Lists
  import opened SlabPool
  import opened SlabChunks

  /** p' has the live blocks of p and one more, at address a. */
  ghost predicate Gains(p: Pool, p': Pool, a: nat) {
    && !LiveAt(p, a) && LiveAt(p', a)
    && forall b: nat | b != a :: LiveAt(p', b) == LiveAt(p, b) && (LiveAt(p, b) ==> SizeAt(p', b) == SizeAt(p, b))
  }

  ghost predicate Grants(p: Pool, p': Pool, a: nat, size: nat) { Gains(p, p', a) && SizeAt(p', a) == size }

  lemma SamePage(p: Pool, p': Pool, b: nat)
    requires |p'.slabs| == |p.slabs| && (b / PAGE < |p.slabs| ==> p'.slabs[b / PAGE] == p.slabs[b / PAGE])
    ensures LiveAt(p', b) == LiveAt(p, b) && (LiveAt(p, b) ==> SizeAt(p', b) == SizeAt(p, b))
  {
  }

  /** Where a page and an offset in it come from. */
  lemma Address(h: nat, off: nat)
    requires off < PAGE
    ensures (h * PAGE + off) / PAGE == h && (h * PAGE + off) % PAGE == off
  {
  }

  /** Setting one bit of a chunk page makes one more block. */
  lemma BitGains(p: Pool, p': Pool, h: nat, k: nat)
    requires h < |p.slabs| == |p'.slabs| && p.slabs[h].Chunks? && p'.slabs[h].Chunks? && ChunksOk(p.slabs[h])
    requires Reserved(p.slabs[h].shift) <= k < |p.slabs[h].bits| && !p.slabs[h].bits[k]
    requires p'.slabs[h] == Chunks(p.slabs[h].shift, p.slabs[h].bits[k := true])
    requires forall i :: 0 <= i < |p.slabs| && i != h ==> p'.slabs[i] == p.slabs[i]
    ensures Gains(p, p', h * PAGE + k * ChunkSize(p.slabs[h].shift))
  {
    var shift := p.slabs[h].shift;
    var a := h * PAGE + k * ChunkSize(shift);
    ChunkFacts(shift, k);
    Address(h, k * ChunkSize(shift));
    forall b: nat | b != a ensures LiveAt(p', b) == LiveAt(p, b) && (LiveAt(p, b) ==> SizeAt(p', b) == SizeAt(p, b)) {
      if b / PAGE != h {
        SamePage(p, p', b);
      } else if (b % PAGE) % ChunkSize(shift) == 0 {
        ChunkAt(shift, b % PAGE);
        assert b == h * PAGE + b % PAGE;
      }
    }
  }

  /** The first free chunk is not one of the reserved ones. */
  lemma FirstFree(s: Slab)
    requires s.Chunks? && ChunksOk(s) && HasRoom(s.bits)
    ensures var k := FirstClear(s.bits, 0); Reserved(s.shift) <= k < |s.bits| && !s.bits[k]
  {
    var j :| 0 <= j < |s.bits| && !s.bits[j];
  }

  lemma TakeGains(p: Pool, slot: nat)
    requires Ok(p) && slot < SLOTS && p.lists[slot] != []
    requires p.lists[slot][0] < |p.slabs| && Linked(p.slabs[p.lists[slot][0]], slot)
    ensures var (p', a) := Take(p, slot); Grants(p, p', a.value, ChunkSize(slot + MIN_SHIFT))
  {
    var h := p.lists[slot][0];
    ChunkPageOk(p, h);
    FirstFree(p.slabs[h]);
    var p' := Take(p, slot).0;
    assert |p'.slabs| == |p.slabs| && forall i :: 0 <= i < |p.slabs| && i != h ==> p'.slabs[i] == p.slabs[i];
    TakenBit(p, p', h, FirstClear(p.slabs[h].bits, 0));
  }

  lemma TakenBit(p: Pool, p': Pool, h: nat, k: nat)
    requires h < |p.slabs| == |p'.slabs| && p.slabs[h].Chunks? && ChunksOk(p.slabs[h])
    requires Reserved(p.slabs[h].shift) <= k < |p.slabs[h].bits| && !p.slabs[h].bits[k]
    requires p'.slabs[h] == Chunks(p.slabs[h].shift, p.slabs[h].bits[k := true])
    requires forall i :: 0 <= i < |p.slabs| && i != h ==> p'.slabs[i] == p.slabs[i]
    ensures Grants(p, p', h * PAGE + k * ChunkSize(p.slabs[h].shift), ChunkSize(p.slabs[h].shift))
  {
    BitGains(p, p', h, k);
    ChunkFacts(p.slabs[h].shift, k);
    Address(h, k * ChunkSize(p.slabs[h].shift));
  }

  /** Pages of a free run carry no live block. */
  lemma NothingLive(p: Pool, h: nat, b: nat)
    requires Ok(p) && h < |p.slabs| && IsFree(p.slabs[h]) && h <= b / PAGE < h + Length(p.slabs[h])
    ensures !LiveAt(p, b)
  {
    OkIs(p);
    OneHead(p, h, b / PAGE);
  }

  /** Only pages of a free run change, and the block at its start is the only new one. */
  lemma CutGains(p: Pool, k: nat, n: nat)
    requires Ok(p) && k < |p.free| && 1 <= n <= Length(p.slabs[p.free[k]])
    requires p.free[k] + Length(p.slabs[p.free[k]]) <= |p.slabs|
    ensures var a := p.free[k] * PAGE; Grants(p, Cut(p, k, n), a, n * PAGE)
  {
    OkIs(p);
    var h, p' := p.free[k], Cut(p, k, n);
    var a := h * PAGE;
    Address(h, 0);
    NothingLive(p, h, a);
    CutOk(p, k, n);
    OkIs(p');
    forall b: nat | b != a ensures LiveAt(p', b) == LiveAt(p, b) && (LiveAt(p, b) ==> SizeAt(p', b) == SizeAt(p, b)) {
      if h <= b / PAGE < h + Length(p.slabs[h]) {
        NothingLive(p, h, b);
        if b / PAGE < h + n { OneHead(p', h, b / PAGE); } else if b / PAGE > h + n { OneHead(p', h + n, b / PAGE); }
      } else {
        SamePage(p, p', b);
      }
    }
  }

  /** A page of chunks starts with one live chunk. */
  lemma EnlistGains(p: Pool, p1: Pool, h: nat, shift: nat)
    requires h < |p.slabs| && IsShift(shift) && |p1.lists| == SLOTS
    requires Gains(p, p1, h * PAGE) && h < |p1.slabs| && p1.slabs[h] == Pages(1, true)
    ensures var a := h * PAGE + Reserved(shift) * ChunkSize(shift); var p' := Enlist(p1, h, shift);
      Grants(p, p', a, ChunkSize(shift))
  {
    var p' := Enlist(p1, h, shift);
    ChunkFacts(shift, Reserved(shift));
    var a := h * PAGE + Reserved(shift) * ChunkSize(shift);
    Address(h, Reserved(shift) * ChunkSize(shift));
    Address(h, 0);
    forall b: nat | b / PAGE == h ensures !LiveAt(p, b) {
      if b != h * PAGE { assert b % PAGE != 0; }
    }
    forall b: nat | b != a ensures LiveAt(p', b) == LiveAt(p, b) && (LiveAt(p, b) ==> SizeAt(p', b) == SizeAt(p, b)) {
      if b / PAGE != h {
        SamePage(p1, p', b);
      } else if (b % PAGE) % ChunkSize(shift) == 0 {
        ChunkAt(shift, b % PAGE);
        assert b == h * PAGE + b % PAGE;
      }
    }
  }

  /** No free run is long enough. */
  ghost predicate NoRun(p: Pool, n: nat) {
    forall k :: 0 <= k < |p.free| ==> p.free[k] < |p.slabs| && Length(p.slabs[p.free[k]]) < n
  }

  /** The free runs before this one are too short. */
  ghost predicate FirstThatFits(p: Pool, n: nat, h: nat) {
    exists k :: 0 <= k < |p.free| && p.free[k] == h < |p.slabs| && Length(p.slabs[h]) >= n
      && forall j :: 0 <= j < k ==> p.free[j] < |p.slabs| && Length(p.slabs[p.free[j]]) < n
  }

  /** A request for pages fails exactly when no single free run is long enough, and
      otherwise takes the first that fits. */
  lemma PagesFirstFit(p: Pool, n: nat)
    requires Ok(p) && 1 <= n
    ensures var (p', h) := AllocPages(p, n);
      && (h.None? <==> NoRun(p, n))
      && (h.Some? ==> FirstThatFits(p, n, h.value) && Grants(p, p', h.value * PAGE, n * PAGE))
  {
    var k := FirstFit(p, n, 0);
    if k < |p.free| {
      CutOk(p, k, n);
      CutGains(p, k, n);
    }
  }

  /** Allocation keeps the pool in order and adds one live block of sufficient size and
      of the smallest class that will do, or changes nothing; it fails exactly when
      neither a page with room nor a long enough free run is left. */
  lemma AllocGives(p: Pool, size: nat)
    requires Ok(p)
    ensures var (p', a) := Alloc(p, size);
      && Ok(p') && |p'.slabs| == |p.slabs|
      && (a.None? <==> if size >= MAX_SIZE then NoRun(p, PagesFor(size))
                       else p.lists[ShiftFor(size) - MIN_SHIFT] == [] && NoRun(p, 1))
      && (a.None? ==> p' == p)
      && (a.Some? ==> Grants(p, p', a.value, if size >= MAX_SIZE then PagesFor(size) * PAGE else ChunkSize(ShiftFor(size))))
  {
    if size >= MAX_SIZE {
      AllocPagesOk(p, PagesFor(size));
      PagesFirstFit(p, PagesFor(size));
    } else {
      ChunkGives(p, ShiftFor(size));
    }
  }

  lemma ChunkGives(p: Pool, shift: nat)
    requires Ok(p) && IsShift(shift)
    ensures var (p', a) := AllocChunk(p, shift);
      && Ok(p') && |p'.slabs| == |p.slabs|
      && (a.None? <==> p.lists[shift - MIN_SHIFT] == [] && NoRun(p, 1)) && (a.None? ==> p' == p)
      && (a.Some? ==> Grants(p, p', a.value, ChunkSize(shift)))
  {
    var slot := shift - MIN_SHIFT;
    if p.lists[slot] != [] {
      TakeOk(p, slot);
      TakeGains(p, slot);
    } else {
      NewPageGives(p, shift);
    }
  }

  lemma NewPageGives(p: Pool, shift: nat)
    requires Ok(p) && IsShift(shift) && p.lists[shift - MIN_SHIFT] == []
    ensures var (p', a) := AllocChunk(p, shift);
      && Ok(p') && |p'.slabs| == |p.slabs| && (a.None? <==> NoRun(p, 1)) && (a.None? ==> p' == p)
      && (a.Some? ==> Grants(p, p', a.value, ChunkSize(shift)))
  {
    AllocPagesOk(p, 1);
    PagesFirstFit(p, 1);
    var (p1, h) := AllocPages(p, 1);
    if h.Some? { Started(p, p1, h.value, shift, Enlist(p1, h.value, shift)); }
  }

  lemma Started(p: Pool, p1: Pool, h: nat, shift: nat, p': Pool)
    requires Ok(p1) && IsShift(shift) && p1.lists[shift - MIN_SHIFT] == [] && h < |p.slabs| == |p1.slabs|
    requires p1.slabs[h] == Pages(1, true) && Gains(p, p1, h * PAGE) && p' == Enlist(p1, h, shift)
    ensures Ok(p') && Grants(p, p', h * PAGE + Reserved(shift) * ChunkSize(shift), ChunkSize(shift))
  {
    EnlistOk(p1, h, shift);
    EnlistGains(p, p1, h, shift);
  }

  // ----- release -----

  /** A pointer to a chunk that holds a page's bitmap; ngx_slab_free_locked takes it for a
      block. */
  predicate HoldsBitmap(p: Pool, a: nat) {
    && a / PAGE < |p.slabs| && p.slabs[a / PAGE].Chunks?
    && var shift := p.slabs[a / PAGE].shift;
    (a % PAGE) % ChunkSize(shift) == 0 && (a % PAGE) / ChunkSize(shift) < Reserved(shift)
  }

  /** A pointer to the start of a free run. */
  predicate StartsFree(p: Pool, a: nat) { a / PAGE < |p.slabs| && a % PAGE == 0 && IsFree(p.slabs[a / PAGE]) }

  lemma FreeRunLoses(p: Pool, h: nat)
    requires Ok(p) && h < |p.slabs| && p.slabs[h].Pages? && p.slabs[h].start && p.slabs[h].n > 0
    ensures Gains(FreePages(p, h, p.slabs[h].n), p, h * PAGE)
  {
    OkIs(p);
    var n := p.slabs[h].n;
    var p' := FreePages(p, h, n);
    var a := h * PAGE;
    Address(h, 0);
    FreeRunOk(p, h);
    OkIs(p');
    forall b: nat | b != a ensures LiveAt(p', b) == LiveAt(p, b) && (LiveAt(p, b) ==> SizeAt(p', b) == SizeAt(p, b)) {
      if h <= b / PAGE < h + n {
        OneHead(p, h, b / PAGE);
        OneHead(p', h, b / PAGE);
      } else {
        SamePage(p, p', b);
      }
    }
  }

  lemma BitCleared(s: Slab, k: nat)
    requires s.Chunks? && ChunksOk(s) && Reserved(s.shift) <= k < |s.bits| && InUse(s.bits[k := false], s.shift)
    ensures ChunksOk(Chunks(s.shift, s.bits[k := false]))
  {
    var j :| Reserved(s.shift) <= j < |s.bits| && s.bits[k := false][j];
  }

  lemma FreeChunkLoses(p: Pool, h: nat, k: nat)
    requires h < |p.slabs| && p.slabs[h].Chunks? && ChunksOk(p.slabs[h]) && |p.lists| == SLOTS
    requires Reserved(p.slabs[h].shift) <= k < |p.slabs[h].bits| && p.slabs[h].bits[k]
    ensures Gains(FreeChunk(p, h, k), p, h * PAGE + k * ChunkSize(p.slabs[h].shift))
  {
    var s := p.slabs[h];
    var p' := FreeChunk(p, h, k);
    var bits := s.bits[k := false];
    if InUse(bits, s.shift) {
      UsedChunk(p, p', h, k);
    } else {
      assert p'.slabs[h] == Pages(1, false);
      LastChunk(p, p', h, k);
    }
  }

  /** Other chunks of the page stay in use. */
  lemma UsedChunk(p: Pool, p': Pool, h: nat, k: nat)
    requires h < |p.slabs| && p.slabs[h].Chunks? && ChunksOk(p.slabs[h])
    requires Reserved(p.slabs[h].shift) <= k < |p.slabs[h].bits| && p.slabs[h].bits[k]
    requires InUse(p.slabs[h].bits[k := false], p.slabs[h].shift)
    requires p'.slabs == p.slabs[h := Chunks(p.slabs[h].shift, p.slabs[h].bits[k := false])]
    ensures Gains(p', p, h * PAGE + k * ChunkSize(p.slabs[h].shift))
  {
    var s := p.slabs[h];
    BitCleared(s, k);
    assert s.bits == s.bits[k := false][k := true];
    BitGains(p', p, h, k);
  }

  /** The page of the last live chunk is free afterwards. */
  lemma LastChunk(p: Pool, p': Pool, h: nat, k: nat)
    requires h < |p.slabs| == |p'.slabs| && p.slabs[h].Chunks? && ChunksOk(p.slabs[h]) && p'.slabs[h] == Pages(1, false)
    requires Reserved(p.slabs[h].shift) <= k < |p.slabs[h].bits| && p.slabs[h].bits[k]
    requires !InUse(p.slabs[h].bits[k := false], p.slabs[h].shift)
    requires forall i :: 0 <= i < |p.slabs| && i != h ==> p'.slabs[i] == p.slabs[i]
    ensures Gains(p', p, h * PAGE + k * ChunkSize(p.slabs[h].shift))
  {
    var shift, bits := p.slabs[h].shift, p.slabs[h].bits;
    var a := h * PAGE + k * ChunkSize(shift);
    ChunkFacts(shift, k);
    Address(h, k * ChunkSize(shift));
    forall j | Reserved(shift) <= j < |bits| && j != k ensures !bits[j] { assert !bits[k := false][j]; }
    forall b: nat | b != a ensures LiveAt(p', b) == LiveAt(p, b) && (LiveAt(p, b) ==> SizeAt(p', b) == SizeAt(p, b)) {
      if b / PAGE != h {
        SamePage(p, p', b);
      } else if (b % PAGE) % ChunkSize(shift) == 0 {
        ChunkAt(shift, b % PAGE);
        assert b == h * PAGE + b % PAGE;
        assert (b % PAGE) / ChunkSize(shift) != k;
      }
    }
  }

  /** Releasing a live block takes away exactly that block. */
  lemma FreeTakes(p: Pool, a: nat)
    requires Ok(p) && LiveAt(p, a)
    ensures Ok(Free(p, a)) && Gains(Free(p, a), p, a) && |Free(p, a).slabs| == |p.slabs|
  {
    var h, off := a / PAGE, a % PAGE;
    match p.slabs[h]
    case Pages(n, _) => FreeRunOk(p, h); FreeRunLoses(p, h);
    case Chunks(shift, bits) =>
      ChunkPageOk(p, h);
      var k := off / ChunkSize(shift);
      ChunkAt(shift, off);
      FreeChunkOk(p, h, k);
      FreeChunkLoses(p, h, k);
  }

  /** A pointer that strays to a descriptor by which a page that is not there would get
      into a list. */
  predicate TakenAstray(p: Pool, a: nat, top: nat, d: Stray) {
    && Strays(p, a, top) && !Noticed(d.slab, a % PAGE)
    && (d.slab.Chunks? ==> Joins(d) || !InUse(d.slab.bits[a % PAGE / ChunkSize(d.slab.shift) := false], d.slab.shift))
  }

  /** Releasing keeps the pool in order exactly when the pointer is neither to a chunk that
      holds a bitmap nor one taken astray.  A pointer to no block then changes nothing,
      except that the start of a free run, also taken for a block, brings that run to the
      front of the list. */
  lemma FreeSafe(p: Pool, a: nat, top: nat, d: Stray)
    requires Ok(p) && |p.slabs| * PAGE <= top && (Strays(p, a, top) ==> d.apart || Noticed(d.slab, a % PAGE))
    ensures Ok(Release(p, a, top, d)) <==> !HoldsBitmap(p, a) && !TakenAstray(p, a, top, d)
    ensures !LiveAt(p, a) && !HoldsBitmap(p, a) && !TakenAstray(p, a, top, d) ==>
      Release(p, a, top, d) == if StartsFree(p, a) then MoveFront(p, a / PAGE) else p
  {
    if a / PAGE < |p.slabs| {
      FreeInside(p, a);
    } else if TakenAstray(p, a, top, d) {
      AstrayBreaks(p, a, top, d);
    } else {
      AstrayIgnored(p, a, top, d);
    }
  }

  lemma AstrayBreaks(p: Pool, a: nat, top: nat, d: Stray)
    requires Ok(p) && |p.slabs| * PAGE <= top && d.apart && TakenAstray(p, a, top, d)
    ensures !Ok(Release(p, a, top, d))
  {
    var h, p' := a / PAGE, Release(p, a, top, d);
    if p'.free == [h] + p.free {
      FreeOutside(p, p', h);
    } else {
      ListedOutside(p, p', h, d.slab.shift - MIN_SHIFT);
    }
  }

  lemma AstrayIgnored(p: Pool, a: nat, top: nat, d: Stray)
    requires Ok(p) && |p.slabs| * PAGE <= top && (Strays(p, a, top) ==> d.apart || Noticed(d.slab, a % PAGE))
    requires a / PAGE >= |p.slabs| && !TakenAstray(p, a, top, d)
    ensures Release(p, a, top, d) == p
  {
    if d.slab.Chunks? {
      var t := d.slab.shift - MIN_SHIFT;
      assert p.lists[t := p.lists[t]] == p.lists;
    }
  }

  /** All ones behind the last descriptor, read as a page of the exact size: releasing the
      end of the last page puts the missing page in the list of that size, whatever `next`
      is. */
  lemma FullAstray(p: Pool, top: nat, d: Stray)
    requires Ok(p) && |p.slabs| * PAGE <= top && d.apart && d.slab == Chunks(EXACT_SHIFT, seq(64, _ => true))
    ensures var n, a := |p.slabs|, |p.slabs| * PAGE;
      && !LiveAt(p, a) && !HoldsBitmap(p, a) && TakenAstray(p, a, top, d)
      && Release(p, a, top, d).lists[EXACT_SHIFT - MIN_SHIFT] == [n] + p.lists[EXACT_SHIFT - MIN_SHIFT]
      && !Ok(Release(p, a, top, d))
  {
    var a := |p.slabs| * PAGE;
    Address(|p.slabs|, 0);
    var cleared := d.slab.bits[0 := false];
    assert cleared[1];
    AstrayBreaks(p, a, top, d);
  }

  /** No list of a pool in order holds a page that is not there. */
  lemma FreeOutside(p: Pool, p': Pool, h: nat)
    requires h >= |p'.slabs| && p'.free == [h] + p.free
    ensures !Ok(p')
  {
    assert p'.free[0] == h;
  }

  lemma ListedOutside(p: Pool, p': Pool, h: nat, t: nat)
    requires h >= |p'.slabs| && t < SLOTS && |p.lists| == |p'.lists| == SLOTS && p'.lists[t] == [h] + p.lists[t]
    ensures !Ok(p')
  {
    OkIs(p');
    assert p'.lists[t][0] == h;
    assert !SlotListed(p', t);
  }

  lemma FreeInside(p: Pool, a: nat)
    requires Ok(p) && a / PAGE < |p.slabs|
    ensures Ok(Free(p, a)) <==> !HoldsBitmap(p, a)
    ensures !LiveAt(p, a) && !HoldsBitmap(p, a) ==> Free(p, a) == if StartsFree(p, a) then MoveFront(p, a / PAGE) else p
  {
    var h, off := a / PAGE, a % PAGE;
    if LiveAt(p, a) {
      FreeTakes(p, a);
    } else if HoldsBitmap(p, a) {
      ChunkPageOk(p, h);
      BitmapFree(p, h, off / ChunkSize(p.slabs[h].shift));
    } else if StartsFree(p, a) {
      MoveFrontOk(p, h);
    }
  }

  /** Releasing the start of a free run touches no live block. */
  lemma FreeRunAgain(p: Pool, a: nat)
    requires Ok(p) && StartsFree(p, a)
    ensures !LiveAt(p, a) && |Free(p, a).slabs| == |p.slabs|
    ensures forall b: nat :: LiveAt(Free(p, a), b) == LiveAt(p, b) && (LiveAt(p, b) ==> SizeAt(Free(p, a), b) == SizeAt(p, b))
  {
  }

  /** Clearing the bit of a reserved chunk does not make the page unused. */
  lemma StillInUse(s: Slab, k: nat)
    requires s.Chunks? && ChunksOk(s) && k < Reserved(s.shift) && k < |s.bits|
    ensures InUse(s.bits[k := false], s.shift)
  {
    var j :| Reserved(s.shift) <= j < |s.bits| && s.bits[j];
    assert s.bits[k := false][j];
  }

  lemma BitmapFree(p: Pool, h: nat, k: nat)
    requires Ok(p) && h < |p.slabs| && p.slabs[h].Chunks? && k < Reserved(p.slabs[h].shift) && IsShift(p.slabs[h].shift)
    requires k < |p.slabs[h].bits|
    ensures !Ok(FreeChunk(p, h, k))
  {
    OkIs(p);
    var s := p.slabs[h];
    var bits := s.bits[k := false];
    StillInUse(s, k);
    assert !ChunksOk(FreeChunk(p, h, k).slabs[h]) by { assert !bits[k]; }
    OkIs(FreeChunk(p, h, k));
  }

  // ----- whole runs -----

  /** The pool and what its clients hold: for each address the size they asked for. */
  datatype World = World(pool: Pool, blocks: map<nat, nat>)

  datatype Event = Allocate(size: nat) | Return(address: nat)

  /** The pool of n pages that ngx_slab_init makes: one free run. */
  function Init(n: nat): Pool
    requires 1 <= n
  {
    Pool(Filled(seq(n, _ => Pages(0, false)), 0, 1, Pages(n, false)), seq(n, _ => 0), [0], seq(SLOTS, _ => []))
  }

  lemma InitOk(n: nat)
    requires 1 <= n
    ensures Ok(Init(n)) && |Init(n).slabs| == n && forall a: nat :: !LiveAt(Init(n), a)
  {
    var p := Init(n);
    OkIs(p);
    forall i | 0 <= i < n ensures Owned(p, i) && Owns(p, i) { assert i > 0 ==> p.slabs[i] == Pages(0, false); }
    forall t | 0 <= t < SLOTS ensures SlotListed(p, t) { assert p.lists[t] == []; }
    assert p.free[0] == 0;
  }

  /** Clients may release any pointer into the pages, also one twice, that is not to a
      chunk with a bitmap. */
  predicate Possible(w: World, e: Event) {
    e.Return? ==> e.address / PAGE < |w.pool.slabs| && !HoldsBitmap(w.pool, e.address)
  }

  function Step(w: World, e: Event): World
    requires Ok(w.pool) && Possible(w, e)
  {
    match e
    case Allocate(size) =>
      var (p, a) := Alloc(w.pool, size);
      World(p, if a.None? then w.blocks else w.blocks[a.value := size])
    case Return(a) => World(Free(w.pool, a), w.blocks - {a})
  }

  /** Clients hold exactly the live blocks, each at least as long as they asked. */
  ghost predicate Agree(w: World, n: nat) {
    && Ok(w.pool) && |w.pool.slabs| == n
    && (forall a: nat :: a in w.blocks <==> LiveAt(w.pool, a))
    && forall a <- w.blocks :: w.blocks[a] <= SizeAt(w.pool, a)
  }

  lemma StepAgrees(w: World, e: Event, n: nat)
    requires Agree(w, n) && Possible(w, e)
    ensures Agree(Step(w, e), n)
  {
    match e
    case Allocate(size) => AllocGives(w.pool, size);
    case Return(a) =>
      FreeInside(w.pool, a);
      if LiveAt(w.pool, a) {
        FreeTakes(w.pool, a);
      } else if StartsFree(w.pool, a) {
        FreeRunAgain(w.pool, a);
      }
  }

  ghost predicate Run(w: World, n: nat, es: seq<Event>, w': World)
    requires Agree(w, n)
    decreases |es|
  {
    if es == [] then w' == w
    else Possible(w, es[0]) && (StepAgrees(w, es[0], n); Run(Step(w, es[0]), n, es[1..], w'))
  }

  ghost predicate Reachable(n: nat, es: seq<Event>, w: World)
    requires 1 <= n
  {
    InitOk(n);
    Run(World(Init(n), map[]), n, es, w)
  }

  lemma {:induction false} RunAgrees(w: World, n: nat, es: seq<Event>, w': World)
    requires Agree(w, n) && Run(w, n, es, w')
    ensures Agree(w', n)
    decreases |es|
  {
    if es != [] {
      StepAgrees(w, es[0], n);
      RunAgrees(Step(w, es[0]), n, es[1..], w');
    }
  }

  lemma ReachableAgrees(n: nat, es: seq<Event>, w: World)
    requires 1 <= n && Reachable(n, es, w)
    ensures Agree(w, n)
  {
    InitOk(n);
    RunAgrees(World(Init(n), map[]), n, es, w);
  }

  /** In every run a block that a client holds is at least as long as was asked for, lies
      in the pool, is aligned to its size class and clear of its page's bitmap. */
  lemma EveryBlock(n: nat, es: seq<Event>, w: World, a: nat)
    requires 1 <= n && Reachable(n, es, w) && a in w.blocks
    ensures LiveAt(w.pool, a) && w.blocks[a] <= SizeAt(w.pool, a) && a + SizeAt(w.pool, a) <= n * PAGE && ClearOfMap(w.pool, a)
  {
    ReachableAgrees(n, es, w);
    BlockFacts(w.pool, a);
  }

  /** And no two of them overlap. */
  lemma EveryRun(n: nat, es: seq<Event>, w: World, a: nat, b: nat)
    requires 1 <= n && Reachable(n, es, w) && a in w.blocks && b in w.blocks && a < b
    ensures LiveAt(w.pool, a) && LiveAt(w.pool, b) && a + SizeAt(w.pool, a) <= b && a + w.blocks[a] <= b
  {
    ReachableAgrees(n, es, w);
    Disjoint(w.pool, a, b);
  }

  /** The block starts at a multiple of its size in its page, after the words of the
      page's bitmap if the bitmap is kept there. */
  predicate ClearOfMap(p: Pool, a: nat) {
    && LiveAt(p, a)
    && match p.slabs[a / PAGE]
       case Chunks(shift, _) =>
         (a % PAGE) % SizeAt(p, a) == 0 && (shift < EXACT_SHIFT ==> a % PAGE >= ChunkCount(shift) / 64 * 8)
       case _ => a % PAGE == 0
  }

  /** In every run a page is in a slot's list exactly when it is a page of that slot with
      a free chunk, so the search for a chunk ends at the first page of the list. */
  lemma EveryListedPageHasRoom(n: nat, es: seq<Event>, w: World, slot: nat, h: nat)
    requires 1 <= n && Reachable(n, es, w) && slot < SLOTS && h < n
    ensures |w.pool.slabs| == n && |w.pool.lists| == SLOTS
    ensures h in w.pool.lists[slot] <==> Linked(w.pool.slabs[h], slot)
  {
    ReachableAgrees(n, es, w);
    OkIs(w.pool);
    assert SlotListed(w.pool, slot);
  }

  // ----- conservation of pages -----

  function Range(lo: nat, hi: nat): (r: set<nat>)
    requires lo <= hi
    ensures |r| == hi - lo && forall i :: i in r <==> lo <= i < hi
    decreases hi - lo
  {
    if lo == hi then {} else {lo} + Range(lo + 1, hi)
  }

  predicate InFreeRun(p: Pool, i: nat) { i < |p.owner| && p.owner[i] < |p.slabs| && IsFree(p.slabs[p.owner[i]]) }

  /** The pages of the first k free runs. */
  function FreeSet(p: Pool, k: nat): set<nat>
    requires |p.owner| == |p.slabs| && k <= |p.free|
  {
    OwnedBy(p.owner, p.free[..k])
  }

  /** The pages of the runs that start at one of q. */
  function OwnedBy(owner: seq<nat>, q: seq<nat>): set<nat> { set i | i in Range(0, |owner|) && owner[i] in q }

  /** The lengths of the first k free runs. */
  function FreeTotal(p: Pool, k: nat): nat
    requires k <= |p.free|
  {
    if k == 0 then 0 else FreeTotal(p, k - 1) + if p.free[k - 1] < |p.slabs| then Length(p.slabs[p.free[k - 1]]) else 0
  }

  /** The k-th free run adds its pages to those before. */
  ghost predicate Grows(p: Pool, k: nat)
    requires |p.owner| == |p.slabs| && k < |p.free|
  {
    var h := p.free[k];
    h < |p.slabs| && |FreeSet(p, k + 1)| == |FreeSet(p, k)| + Length(p.slabs[h])
  }

  lemma FreeSetGrows(p: Pool, k: nat)
    requires Covered(p) && FreeListed(p) && k < |p.free|
    ensures Grows(p, k)
  {
    var h := p.free[k];
    RunOf(p, h);
    assert p.free[..k + 1] == p.free[..k] + [h];
    assert h !in p.free[..k];
    OneMoreOwner(p.owner, p.free[..k], h, Range(h, h + Length(p.slabs[h])));
  }

  lemma OneMoreOwner(owner: seq<nat>, q: seq<nat>, h: nat, run: set<nat>)
    requires h !in q && run == OwnedBy(owner, [h])
    ensures |OwnedBy(owner, q + [h])| == |OwnedBy(owner, q)| + |run|
  {
    UnionSize(OwnedBy(owner, q), run, OwnedBy(owner, q + [h]));
  }

  /** The pages that belong to the run at h. */
  lemma RunOf(p: Pool, h: nat)
    requires Covered(p) && h < |p.slabs| && IsHead(p.slabs[h])
    ensures OwnedBy(p.owner, [h]) == Range(h, h + Length(p.slabs[h]))
  {
    assert Owns(p, h);
    forall i | i in Range(0, |p.slabs|) ensures p.owner[i] == h <==> h <= i < h + Length(p.slabs[h]) { assert Owned(p, i); }
  }

  lemma UnionSize(a: set<nat>, b: set<nat>, c: set<nat>)
    requires a !! b && c == a + b
    ensures |c| == |a| + |b|
  {
  }

  lemma {:induction false} FreeSetSize(p: Pool, k: nat)
    requires |p.owner| == |p.slabs| && k <= |p.free| && forall j :: 0 <= j < k ==> Grows(p, j)
    ensures |FreeSet(p, k)| == FreeTotal(p, k)
  {
    if k == 0 {
      assert FreeSet(p, 0) == {};
    } else {
      FreeSetSize(p, k - 1);
      assert Grows(p, k - 1);
    }
  }

  function BusyPages(p: Pool): set<nat> { set i | i in Range(0, |p.slabs|) && !InFreeRun(p, i) }

  /** The lengths of the free runs and the other pages always add up to the pool. */
  lemma PagesConserved(p: Pool)
    requires Ok(p)
    ensures FreeTotal(p, |p.free|) + |BusyPages(p)| == |p.slabs|
  {
    OkIs(p);
    forall j | 0 <= j < |p.free| ensures Grows(p, j) { FreeSetGrows(p, j); }
    FreeSetSize(p, |p.free|);
    assert p.free[..|p.free|] == p.free;
    forall i | i in Range(0, |p.slabs|) ensures i in FreeSet(p, |p.free|) <==> i !in BusyPages(p) { assert Owned(p, i); }
    assert Range(0, |p.slabs|) == FreeSet(p, |p.free|) + BusyPages(p);
  }
}
