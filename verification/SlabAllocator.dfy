/** nginx/src/core/ngx_slab.c: the allocator itself, working in place on the page
    descriptors and on the bitmaps kept in pages of small chunks. */
module SlabAllocator {
  import opened Lists
  import opened SlabPool
  import opened SlabChunks
  import opened SlabNodes
  import opened SlabLinks
  import opened SlabRep
  import opened SlabSafety

  // ----- the search loops -----

  /** The word w of a bitmap is all ones. */
  predicate WordBusy(bits: seq<bool>, w: nat)
    requires w * 64 + 64 <= |bits|
  {
    forall i :: w * 64 <= i < w * 64 + 64 ==> bits[i]
  }

  /** The search through the words of a page of small chunks: the first free chunk, and
      whether the page is full once it is taken. */
  method FindSmall(bits: seq<bool>) returns (k: nat, full: bool)
    requires |bits| % 64 == 0 && HasRoom(bits)
    ensures k < |bits| && !bits[k] && (forall j :: 0 <= j < k ==> bits[j])
    ensures full == !HasRoom(bits[k := true])
  {
    var words := |bits| / 64;
    var w := 0;
    while w < words && WordBusy(bits, w)
      invariant w <= words && forall j :: 0 <= j < w * 64 ==> bits[j]
    {
      w := w + 1;
    }
    assert w < words;
    var i := 0;
    while bits[w * 64 + i]
      invariant 0 <= i < 64 && forall j :: 0 <= j < w * 64 + i ==> bits[j]
      decreases 64 - i
    {
      i := i + 1;
    }
    k := w * 64 + i;
    var taken := bits[k := true];
    full := WordBusy(taken, w);
    w := w + 1;
    while full && w < words
      invariant w <= words && (full ==> forall j :: 0 <= j < w * 64 ==> taken[j]) && (!full ==> HasRoom(taken))
      decreases words - w
    {
      full := WordBusy(taken, w);
      w := w + 1;
    }
  }

  /** The search through a single word. */
  method FindBit(bits: seq<bool>) returns (k: nat, full: bool)
    requires HasRoom(bits)
    ensures k < |bits| && !bits[k] && (forall j :: 0 <= j < k ==> bits[j])
    ensures full == !HasRoom(bits[k := true])
  {
    k := 0;
    while bits[k]
      invariant k < |bits| && forall j :: 0 <= j < k ==> bits[j]
      decreases |bits| - k
    {
      k := k + 1;
    }
    var taken := bits[k := true];
    full := forall j :: 0 <= j < |bits| ==> taken[j];
  }

  method FindChunk(bits: seq<bool>, shift: nat) returns (k: nat, full: bool)
    requires IsShift(shift) && |bits| == ChunkCount(shift) && HasRoom(bits)
    ensures k < |bits| && k == FirstClear(bits, 0) && full == !HasRoom(bits[k := true])
  {
    if shift < EXACT_SHIFT {
      k, full := FindSmall(bits);
    } else {
      k, full := FindBit(bits);
    }
    FirstClearIs(bits, 0, k);
  }

  lemma {:induction false} FirstClearIs(bits: seq<bool>, from: nat, k: nat)
    requires from <= k < |bits| && !bits[k] && forall j :: from <= j < k ==> bits[j]
    ensures FirstClear(bits, from) == k
    decreases k - from
  {
    if from < k { FirstClearIs(bits, from + 1, k); }
  }

  /** Whether chunks other than the reserved ones are taken: the test of bitmap[0] and of
      the other words. */
  method SmallInUse(bits: seq<bool>, shift: nat) returns (r: bool)
    requires MIN_SHIFT <= shift < EXACT_SHIFT && |bits| == ChunkCount(shift)
    ensures r == InUse(bits, shift)
  {
    r := exists i :: Reserved(shift) <= i < 64 && bits[i];
    var w := 1;
    while !r && w < |bits| / 64
      invariant 1 <= w <= |bits| / 64
      invariant r ==> InUse(bits, shift)
      invariant !r ==> forall i :: Reserved(shift) <= i < w * 64 ==> !bits[i]
      decreases |bits| / 64 - w
    {
      r := exists i :: w * 64 <= i < w * 64 + 64 && bits[i];
      w := w + 1;
    }
  }

  method PageInUse(bits: seq<bool>, shift: nat) returns (r: bool)
    requires IsShift(shift) && |bits| == ChunkCount(shift)
    ensures r == InUse(bits, shift)
  {
    if shift < EXACT_SHIFT {
      r := SmallInUse(bits, shift);
    } else {
      r := exists i :: 0 <= i < |bits| && bits[i];
    }
  }

  function Pow2(k: nat): nat { if k == 0 then 1 else 2 * Pow2(k - 1) }

  /** What is left of size - 1 after `shift` halvings. */
  predicate Halved(size: nat, shift: nat, s: nat) {
    1 <= shift && Pow2(shift) * s < size <= Pow2(shift) * (s + 1)
  }

  lemma Halve(size: nat, shift: nat, s: nat)
    requires Halved(size, shift, s)
    ensures Halved(size, shift + 1, s / 2) && (s > 0 ==> Pow2(shift) < size)
  {
    var p, h := Pow2(shift), s / 2;
    Grows(p, 2 * h, s);
    Grows(p, s + 1, 2 * (h + 1));
    Regroup(p, h);
    Regroup(p, h + 1);
    if s > 0 { Grows(p, 1, s); }
    assert Pow2(shift + 1) == 2 * p;
  }

  lemma Grows(p: nat, a: nat, b: nat)
    requires a <= b
    ensures p * a <= p * b
  {
  }

  lemma Regroup(p: nat, h: nat)
    ensures p * (2 * h) == 2 * p * h
  {
  }

  /** for (s = size - 1; s >>= 1; shift++) */
  method FindShift(size: nat) returns (shift: nat)
    requires ChunkSize(MIN_SHIFT) < size < MAX_SIZE
    ensures shift == ShiftFor(size)
  {
    shift := 1;
    var s := (size - 1) / 2;
    assert Pow2(1) == 2;
    while s != 0
      invariant 1 <= shift && 0 <= s && Halved(size, shift, s) && Pow2(shift - 1) < size
      decreases s
    {
      Halve(size, shift, s);
      shift := shift + 1;
      s := s / 2;
    }
    ShiftIs(size, shift);
  }

  lemma {:induction false} PowersGrow(a: nat, b: nat)
    requires a <= b
    ensures Pow2(a) <= Pow2(b)
    decreases b
  {
    if a < b { PowersGrow(a, b - 1); }
  }

  lemma ShiftIs(size: nat, shift: nat)
    requires ChunkSize(MIN_SHIFT) < size < MAX_SIZE && 1 <= shift && Pow2(shift - 1) < size <= Pow2(shift)
    ensures shift == ShiftFor(size)
  {
    var r := ShiftFor(size);
    Sizes(r);
    Sizes(r - 1);
    if shift < r { PowersGrow(shift, r - 1); }
    if r < shift { PowersGrow(r, shift - 1); }
  }

  lemma Sizes(shift: nat)
    requires IsShift(shift)
    ensures Pow2(shift) == ChunkSize(shift)
  {
    assert Pow2(3) == 8;
    if shift > MIN_SHIFT { Sizes(shift - 1); }
  }

  // ----- the pool -----

  /** How ngx_slab_init lays out the memory from `base`, after the pool's header, to `end`:
      the slots, `laid` zeroed descriptors, and from `start` on the pages.  A descriptor
      takes 24 bytes. */
  datatype Layout = Layout(pages: nat, laid: nat, start: nat, end: nat)

  /** The pages that fit between start and end, by a division without sign. */
  function Available(start: nat, end: nat): (r: int)
    requires start <= end + 0x1_0000_0000_0000_0000
    ensures r >= 0
  {
    (if start <= end then end - start else 0x1_0000_0000_0000_0000 - (start - end)) / PAGE
  }

  function LayOut(base: nat, end: nat): Layout
    requires base <= end
  {
    var pages := (end - base) / (PAGE + 24);
    var p := base + SLOTS * 24 + pages * 24;
    var start := (p + PAGE - 1) / PAGE * PAGE;
    var m := pages - Available(start, end);
    Layout(if m > 0 then pages - m else pages, pages, start, end)
  }

  /** Slots and descriptors never overlap the pages, which lie in the memory exactly when
      it does not end before they start; three pages of memory are enough for one. */
  lemma LayOutFits(base: nat, end: nat)
    requires base <= end
    ensures var l := LayOut(base, end);
      && l.start % PAGE == 0 && base + SLOTS * 24 + l.pages * 24 <= l.start
      && (l.start + l.pages * PAGE <= end <==> l.start <= end)
      && (base + 3 * PAGE <= end ==> 1 <= l.pages && l.start <= end)
  {
  }

  /** Where the descriptor after the last would be. */
  function Behind(base: nat, l: Layout): nat { base + SLOTS * 24 + l.pages * 24 }

  /** The test against pool->end lets through pointers to no page: those to the rest of the
      memory behind the last one.  All of them lead to the one descriptor behind the last.
      If pages were taken off again it is one of those zeroed, which tells that the pointer
      is wrong; otherwise it lies before the pages only if there are 24 bytes left. */
  lemma StrayDescriptor(base: nat, end: nat, a: nat)
    requires base <= end
    requires var l := LayOut(base, end); l.start <= l.end && l.pages <= a / PAGE && a <= l.end - l.start
    ensures var l := LayOut(base, end);
      && a / PAGE == l.pages
      && (l.laid > l.pages ==> Behind(base, l) + 24 <= base + SLOTS * 24 + l.laid * 24 <= l.start)
      && (l.laid == l.pages ==> 0 <= l.start - Behind(base, l) < PAGE)
      && l.laid >= l.pages && Noticed(Pages(0, false), a % PAGE)
  {
  }

  /** Releasing any pointer in a memory where the descriptor after the last, if it is not one
      of those zeroed, ends before the pages. */
  lemma ReleaseSafe(p: Pool, base: nat, end: nat, a: nat, d: Stray)
    requires base <= end && Ok(p)
    requires var l := LayOut(base, end);
      && |p.slabs| == l.pages && l.start <= end && Behind(base, l) + 24 <= l.start && d.apart
      && (l.laid > l.pages ==> d.slab == Pages(0, false))
    ensures var l := LayOut(base, end);
      && l.pages * PAGE <= end - l.start
      && (Ok(Release(p, a, end - l.start, d)) <==> !HoldsBitmap(p, a) && !TakenAstray(p, a, end - l.start, d))
      && (l.laid > l.pages ==> !TakenAstray(p, a, end - l.start, d))
  {
    LayOutFits(base, end);
    FreeSafe(p, a, end - LayOut(base, end).start, d);
  }

  /** In this memory the descriptor after the last is the first 24 bytes of the first page,
      and releasing the end of the last page reads it. */
  lemma StrayLayout()
    ensures var l := LayOut(208, 634687);
      && l.pages == 153 && l.start <= l.end && l.pages * PAGE <= l.end - l.start
      && l.start == Behind(208, l)
  {
  }

  function InitNode(n: nat, i: nat): Node {
    if i == 0 then Node(Count(n, false), n + SLOTS, Link(n + SLOTS, PageTag))
    else if i < n then ZERO
    else Node(Count(0, false), if i < n + SLOTS then i else 0, Link(NULL, PageTag))
  }

  lemma InitShows(nodes: seq<Node>, maps: seq<seq<bool>>, n: nat)
    requires 1 <= n && |nodes| == n + SLOTS + 1 && |maps| == n
    requires forall i :: 0 <= i < |nodes| ==> nodes[i] == InitNode(n, i)
    ensures Shows(nodes, maps, Init(n))
  {
    var p := Init(n);
    var all := All(p);
    assert all[SLOTS] == [0] && forall s :: 0 <= s < SLOTS ==> all[s] == [];
    forall s | 0 <= s <= SLOTS ensures OneList(nodes, n, s, all[s]) {
      if s == SLOTS { assert all[s][0] == 0; }
    }
    assert 0 in all[SLOTS];
    ShowsIs(nodes, maps, p);
  }

  class Slabs {
    const n: nat                          // pages
    const top: nat                        // from the first page to the end of the memory
    const nodes: array<Node>              // their descriptors, the slots, pool->free
    const maps: array<seq<bool>>          // the bitmap at the start of each page
    ghost var pool: Pool

    ghost predicate Valid()
      reads this, nodes, maps
    {
      && nodes.Length == n + SLOTS + 1 && maps.Length == n && |pool.slabs| == n && n * PAGE <= top
      && Rep(nodes[..], maps[..], pool)
    }

    /** The memory stands for the pool, in order or not. */
    ghost predicate Represents()
      reads this, nodes, maps
    {
      && nodes.Length == n + SLOTS + 1 && maps.Length == n && |pool.slabs| == n && n * PAGE <= top
      && Shows(nodes[..], maps[..], pool)
    }

    /** ngx_slab_init on the memory from base to end, if a page fits. */
    constructor (base: nat, end: nat)
      requires base <= end && 1 <= LayOut(base, end).pages && LayOut(base, end).start <= end
      ensures var l := LayOut(base, end); n == l.pages && top == l.end - l.start
      ensures Valid() && pool == Init(n) && fresh(nodes) && fresh(maps)
    {
      LayOutFits(base, end);
      var l := LayOut(base, end);
      var n := l.pages;
      this.n, top := n, l.end - l.start;
      nodes := new Node[n + SLOTS + 1](i => InitNode(n, i));
      maps := new seq<bool>[n](_ => []);
      pool := Init(n);
      new;
      InitOk(n);
      InitShows(nodes[..], maps[..], n);
    }

    /** A page leaves the list it is in. */
    method Unlink(x: nat)
      requires x < nodes.Length && 0 <= nodes[x].prev.to < nodes.Length && 0 <= nodes[x].next < nodes.Length
      modifies nodes
      ensures nodes[..] == Unlinked(old(nodes[..]), x)
    {
      var prev, next := nodes[x].prev, nodes[x].next;
      nodes[prev.to] := nodes[prev.to].(next := next);
      nodes[next] := nodes[next].(prev := prev);
    }

    /** A page is linked at the front of a list. */
    method Push(head: nat, x: nat, tag: Tag)
      requires x < nodes.Length && head < nodes.Length && 0 <= nodes[head].next < nodes.Length && x != head
      modifies nodes
      ensures nodes[..] == Pushed(old(nodes[..]), head, x, tag)
    {
      var next := nodes[head].next;
      nodes[x] := nodes[x].(next := next, prev := Link(head, tag));
      nodes[head] := nodes[head].(next := x);
      nodes[next] := nodes[next].(prev := Link(x, tag));
    }

    /** The descriptors of a run that is taken. */
    method Mark(h: nat, cnt: nat)
      requires 1 <= cnt && h + cnt <= nodes.Length
      modifies nodes
      ensures nodes[..] == Marked(old(nodes[..]), h, cnt)
    {
      nodes[h] := StartNode(cnt);
      var i := 1;
      while i < cnt
        invariant 1 <= i <= cnt
        invariant nodes[..] == Filled(old(nodes[..]), h + 1, h + i, TAKEN)[h := StartNode(cnt)]
      {
        nodes[h + i] := TAKEN;
        i := i + 1;
      }
    }

    /** The free list loses the first cnt pages of the run at h. */
    method Shorten(h: nat, len: nat, cnt: nat)
      requires h + len < nodes.Length && 1 <= cnt <= len && nodes[h].slab == Count(len, false)
      requires 0 <= nodes[h].prev.to < nodes.Length && 0 <= nodes[h].next < nodes.Length
      modifies nodes
      ensures nodes[..] == Shortened(old(nodes[..]), h, len, cnt)
    {
      if len > cnt {
        var prev, next := nodes[h].prev, nodes[h].next;
        nodes[h + cnt] := Node(Count(len - cnt, false), next, prev);
        nodes[prev.to] := nodes[prev.to].(next := h + cnt);
        nodes[next] := nodes[next].(prev := Link(h + cnt, PageTag));
      } else {
        Unlink(h);
      }
    }

    /** The search loop of ngx_slab_alloc_pages. */
    method FindRun(cnt: nat) returns (page: int, ghost k: nat)
      requires Valid()
      ensures k == FirstFit(pool, cnt, 0) && page == At(n + SLOTS, pool.free, k + 1) && (page == n + SLOTS <==> k == |pool.free|)
    {
      k := 0;
      FreeWalk(nodes[..], maps[..], pool, 0);
      page := nodes[n + SLOTS].next;
      while page != n + SLOTS
        invariant k <= |pool.free| && page == At(n + SLOTS, pool.free, k + 1) && (page == n + SLOTS <==> k == |pool.free|)
        invariant FirstFit(pool, cnt, 0) == FirstFit(pool, cnt, k)
        decreases |pool.free| - k
      {
        FreeWalk(nodes[..], maps[..], pool, k);
        if nodes[page].slab.n >= cnt { return; }
        page := nodes[page].next;
        k := k + 1;
        FreeWalk(nodes[..], maps[..], pool, k);
      }
    }

    /** ngx_slab_alloc_pages */
    method TakePages(cnt: nat) returns (r: Option<nat>)
      requires Valid() && 1 <= cnt
      modifies this, nodes
      ensures Valid() && (pool, r) == AllocPages(old(pool), cnt)
    {
      var page, k := FindRun(cnt);
      if page == n + SLOTS { return None; }
      FreeWalk(nodes[..], maps[..], pool, k);
      CutRep(nodes[..], maps[..], pool, k, cnt);
      Shorten(page, nodes[page].slab.n, cnt);
      Mark(page, cnt);
      pool := Cut(pool, k, cnt);
      return Some(page);
    }

    /** The bits of a chunk page are written back to where they are kept. */
    method WriteBits(h: nat, ghost shift: nat, bits: seq<bool>)
      requires h < nodes.Length && h < maps.Length && nodes[h].prev.tag == TagFor(shift)
      requires shift < EXACT_SHIFT ==> nodes[h].slab == Shift(shift)
      requires shift > EXACT_SHIFT ==> nodes[h].slab.Both? && nodes[h].slab.shift == shift
      modifies nodes, maps
      ensures nodes[..] == old(nodes[..])[h := old(nodes[h]).(slab := WordFor(shift, bits))]
      ensures maps[..] == old(maps[..])[h := MapFor(shift, bits, old(maps[h]))]
    {
      if nodes[h].prev.tag == SmallTag {
        maps[h] := bits;
      } else if nodes[h].prev.tag == ExactTag {
        nodes[h] := nodes[h].(slab := Bits(bits));
      } else {
        nodes[h] := nodes[h].(slab := Both(bits, nodes[h].slab.shift));
      }
    }

    /** The part of ngx_slab_alloc_locked for a slot that has a page with room.  Every
        listed page has room, so its loop over pages ends with the first. */
    method TakeChunk(slot: nat) returns (a: nat)
      requires Valid() && slot < SLOTS && pool.lists[slot] != []
      requires pool.lists[slot][0] < n && Linked(pool.slabs[pool.lists[slot][0]], slot)
      modifies this, nodes, maps
      ensures Valid() && (pool, Some(a)) == Take(old(pool), slot)
    {
      SlotFirst(nodes[..], maps[..], pool, slot);
      var h := nodes[n + slot].next;
      var shift := slot + MIN_SHIFT;
      var bits := if shift < EXACT_SHIFT then maps[h] else nodes[h].slab.bits;
      var k, full := FindChunk(bits, shift);
      ghost var p, before, maps0 := pool, nodes[..], maps[..];
      WriteBits(h, shift, bits[k := true]);
      TakeRep(before, maps0, p, slot, nodes[..], maps[..], bits[k := true]);
      if full {
        Unlink(h);
        nodes[h] := nodes[h].(next := NULL, prev := Link(NULL, TagFor(shift)));
      }
      pool := Take(p, slot).0;
      a := h * PAGE + k * ChunkSize(shift);
    }

    /** A page becomes the only page of its slot with room. */
    method StartChunks(h: nat, shift: nat)
      requires Valid() && IsShift(shift) && pool.lists[shift - MIN_SHIFT] == [] && h < n && pool.slabs[h] == Pages(1, true)
      modifies this, nodes, maps
      ensures Valid() && pool == Enlist(old(pool), h, shift)
    {
      EnlistRep(nodes[..], maps[..], pool, h, shift);
      WriteChunks(h, shift);
      pool := Enlist(pool, h, shift);
    }

    method WriteChunks(h: nat, shift: nat)
      requires IsShift(shift) && h < n == maps.Length && nodes.Length == n + SLOTS + 1
      modifies nodes, maps
      ensures nodes[..] == Enlisted(old(nodes[..]), n, h, shift - MIN_SHIFT, WordFor(shift, FreshBits(shift)), TagFor(shift))
      ensures maps[..] == old(maps[..])[h := MapFor(shift, FreshBits(shift), old(maps[h]))]
    {
      var slot := shift - MIN_SHIFT;
      if shift < EXACT_SHIFT {
        maps[h] := FreshBits(shift);
        nodes[h] := Node(Shift(shift), n + slot, Link(n + slot, SmallTag));
      } else if shift == EXACT_SHIFT {
        nodes[h] := Node(Bits(FreshBits(shift)), n + slot, Link(n + slot, ExactTag));
      } else {
        nodes[h] := Node(Both(FreshBits(shift), shift), n + slot, Link(n + slot, BigTag));
      }
      nodes[n + slot] := nodes[n + slot].(next := h);
    }

    /** The part of ngx_slab_alloc_locked for a slot without a page with room. */
    method NewChunkPage(shift: nat) returns (a: Option<nat>)
      requires Valid() && IsShift(shift) && pool.lists[shift - MIN_SHIFT] == []
      modifies this, nodes, maps
      ensures Valid() && (pool, a) == AllocChunk(old(pool), shift)
    {
      AllocPagesOk(pool, 1);
      var page := TakePages(1);
      if page.None? { return None; }
      StartChunks(page.value, shift);
      return Some(page.value * PAGE + Reserved(shift) * ChunkSize(shift));
    }

    /** A chunk of a given size. */
    method AllocSlot(shift: nat) returns (a: Option<nat>)
      requires Valid() && IsShift(shift)
      modifies this, nodes, maps
      ensures Valid() && (pool, a) == AllocChunk(old(pool), shift)
    {
      var slot := shift - MIN_SHIFT;
      SlotFirst(nodes[..], maps[..], pool, slot);
      var page := nodes[n + slot].next;
      if nodes[page].next != page {
        var x := TakeChunk(slot);
        return Some(x);
      }
      a := NewChunkPage(shift);
    }

    /** ngx_slab_alloc_locked */
    method AllocLocked(size: nat) returns (a: Option<nat>)
      requires Valid()
      modifies this, nodes, maps
      ensures Valid() && (pool, a) == Alloc(old(pool), size)
    {
      if size >= MAX_SIZE {
        var page := TakePages(size / PAGE + if size % PAGE != 0 then 1 else 0);
        return if page.None? then None else Some(page.value * PAGE);
      }
      var shift := MIN_SHIFT;
      if size > ChunkSize(MIN_SHIFT) { shift := FindShift(size); }
      a := AllocSlot(shift);
    }

    /** ngx_slab_free_pages */
    method ReturnPages(h: nat, cnt: nat)
      requires h < n && nodes.Length == n + SLOTS + 1 && 1 <= cnt && h + cnt <= n
      requires nodes[h].next != NULL ==> 0 <= nodes[h].prev.to < nodes.Length && 0 <= nodes[h].next < nodes.Length
      requires nodes[h].next != NULL ==> 0 <= Unlinked(Cleared(nodes[..], h, cnt), h)[n + SLOTS].next < nodes.Length
      requires nodes[h].next == NULL ==> 0 <= Cleared(nodes[..], h, cnt)[n + SLOTS].next < nodes.Length
      modifies nodes
      ensures nodes[..] == Returned(old(nodes[..]), n, h, cnt)
    {
      nodes[h] := nodes[h].(slab := Count(cnt, false));
      var i := 1;
      while i < cnt
        invariant 1 <= i <= cnt
        invariant nodes[..] == Filled(old(nodes[..]), h + 1, h + i, ZERO)[h := old(nodes[h]).(slab := Count(cnt, false))]
      {
        nodes[h + i] := ZERO;
        i := i + 1;
      }
      assert nodes[..] == Cleared(old(nodes[..]), h, cnt);
      if nodes[h].next != NULL { Unlink(h); }
      Push(n + SLOTS, h, PageTag);
    }

    /** The page of a chunk that is released is in its slot's list, again or still. */
    method EnsureLinked(h: nat, slot: nat)
      requires Valid() && h < n && pool.slabs[h].Chunks? && slot == pool.slabs[h].shift - MIN_SHIFT && slot < SLOTS
      modifies nodes
      ensures var p1 := pool.(lists := pool.lists[slot := LinkedList(pool, h, slot)]);
        Shows(nodes[..], maps[..], p1) && Tagged(nodes[..], p1, slot, h)
      ensures nodes[h].slab == old(nodes[h].slab) && nodes[h].prev.tag == old(nodes[h].prev.tag)
    {
      NextNull(nodes[..], maps[..], pool, h);
      ListedWhere(pool, h);
      ghost var before, p1 := nodes[..], pool.(lists := pool.lists[slot := LinkedList(pool, h, slot)]);
      ReadsAt(nodes[..], maps[..], pool, h);
      if (if nodes[h].prev.tag == ExactTag then !HasRoom(nodes[h].slab.bits) else nodes[h].next == NULL) {
        RelinkShows(nodes[..], maps[..], pool, h, slot, p1);
        Push(n + slot, h, nodes[h].prev.tag);
      }
      LinkedShows(before, maps[..], pool, h, slot, p1, nodes[..]);
    }

    /** The first half of a release: the page is linked and the chunk's bit cleared. */
    method ClearBit(h: nat, shift: nat, bits: seq<bool>, k: nat, ghost p2: Pool)
      requires Valid() && h < n && pool.slabs[h] == Chunks(shift, bits) && k < |bits| && IsShift(shift)
      requires var slot := shift - MIN_SHIFT;
        p2 == pool.(lists := pool.lists[slot := LinkedList(pool, h, slot)], slabs := pool.slabs[h := Chunks(shift, bits[k := false])])
      modifies nodes, maps
      ensures Shows(nodes[..], maps[..], p2) && Tagged(nodes[..], p2, shift - MIN_SHIFT, h)
    {
      ghost var slot := shift - MIN_SHIFT;
      ReadsAt(nodes[..], maps[..], pool, h);
      EnsureLinked(h, shift - MIN_SHIFT);
      ghost var p1, before := pool.(lists := pool.lists[slot := LinkedList(pool, h, slot)]), nodes[..];
      BitsShow(nodes[..], maps[..], p1, h, bits[k := false]);
      WriteBits(h, shift, bits[k := false]);
      SameTags(before, nodes[..], p1, p2, slot, h);
    }

    /** The part of ngx_slab_free_locked for a chunk whose bit is set. */
    method ReturnChunk(h: nat, shift: nat, bits: seq<bool>, k: nat)
      requires Valid() && h < n && pool.slabs[h] == Chunks(shift, bits) && k < |bits| && IsShift(shift)
      modifies this, nodes, maps
      ensures Represents() && pool == FreeChunk(old(pool), h, k) && (Reserved(shift) <= k ==> Valid())
    {
      ghost var p, slot := pool, shift - MIN_SHIFT;
      ChunkPageOk(pool, h);
      var cleared := bits[k := false];
      ghost var p2 := p.(lists := p.lists[slot := LinkedList(p, h, slot)], slabs := p.slabs[h := Chunks(shift, cleared)]);
      ClearBit(h, shift, bits, k, p2);
      var used := PageInUse(cleared, shift);
      pool := FreeChunk(p, h, k);
      if k < Reserved(shift) { StillInUse(p.slabs[h], k); } else { FreeChunkOk(p, h, k); }
      if !used {
        EmptyRep(nodes[..], maps[..], p, p2, slot, h, k);
        ReturnPages(h, 1);
      }
    }

    /** The case NGX_SLAB_PAGE: an allocated run, or a free one given back again. */
    method FreeRun(h: nat, cnt: nat)
      requires Valid() && h < n && pool.slabs[h].Pages? && pool.slabs[h].n == cnt && 1 <= cnt
      modifies this, nodes
      ensures Valid() && pool == if old(pool).slabs[h].start then FreePages(old(pool), h, cnt) else MoveFront(old(pool), h)
    {
      assert h + cnt <= n by {
        OkIs(pool);
        HeadFits(pool, h);
      }
      if pool.slabs[h].start {
        FreeRunRep(nodes[..], maps[..], pool, h, cnt);
      } else {
        MoveFrontRep(nodes[..], maps[..], pool, h, cnt);
      }
      ReturnPages(h, cnt);
      pool := if pool.slabs[h].start then FreePages(pool, h, cnt) else MoveFront(pool, h);
    }

    /** The cases NGX_SLAB_SMALL, NGX_SLAB_EXACT and NGX_SLAB_BIG. */
    method FreeInPage(h: nat, off: nat)
      requires Valid() && h < n && pool.slabs[h].Chunks? && off < PAGE
      modifies this, nodes, maps
      ensures Represents() && pool == Free(old(pool), h * PAGE + off) && (!HoldsBitmap(old(pool), h * PAGE + off) ==> Valid())
    {
      Address(h, off);
      ChunkPageOk(pool, h);
      ReadsAt(nodes[..], maps[..], pool, h);
      var shift := if nodes[h].prev.tag == ExactTag then EXACT_SHIFT else nodes[h].slab.shift;
      if off % ChunkSize(shift) != 0 { return; }
      var bits := if nodes[h].prev.tag == SmallTag then maps[h] else nodes[h].slab.bits;
      var k := off / ChunkSize(shift);
      if k < |bits| && bits[k] { ReturnChunk(h, shift, bits, k); }
    }

    /** ngx_slab_free_locked.  It stops where the source would go on with a descriptor d that
        is none of the pool's. */
    method FreeLocked(a: nat, d: Stray) returns (astray: bool)
      requires Valid()
      modifies this, nodes, maps
      ensures astray <==> Strays(old(pool), a, top) && !Noticed(d.slab, a % PAGE)
      ensures pool == if astray then old(pool) else Release(old(pool), a, top, d)
      ensures Represents() && (Valid() <==> !HoldsBitmap(old(pool), a))
    {
      astray := false;
      if a > top { return; }
      var h, off := a / PAGE, a % PAGE;
      if h >= n { return !Noticed(d.slab, off); }
      FreeInside(pool, a);
      ReadsAt(nodes[..], maps[..], pool, h);
      if nodes[h].prev.tag == PageTag {
        if off != 0 || nodes[h].slab == Ones || nodes[h].slab.n == 0 { return; }
        FreeRun(h, nodes[h].slab.n);
      } else {
        FreeInPage(h, off);
      }
    }
  }

  /** Walking along the free list. */
  lemma FreeWalk(nodes: seq<Node>, maps: seq<seq<bool>>, p: Pool, k: nat)
    requires Rep(nodes, maps, p) && k <= |p.free|
    ensures var n := |p.slabs|;
      && nodes[n + SLOTS].next == At(n + SLOTS, p.free, 1)
      && (k < |p.free| ==>
            && At(n + SLOTS, p.free, k + 1) == p.free[k] < n && p.free[k] + Length(p.slabs[p.free[k]]) <= n
            && nodes[p.free[k]].slab == Count(Length(p.slabs[p.free[k]]), false)
            && nodes[p.free[k]].next == At(n + SLOTS, p.free, k + 2))
  {
    OkIs(p);
    ShowsIs(nodes, maps, p);
    var n := |p.slabs|;
    assert All(p)[SLOTS] == p.free;
    assert OneList(nodes, n, SLOTS, p.free);
    First(nodes, n + SLOTS, p.free);
    if k < |p.free| {
      Neighbours(nodes, n + SLOTS, p.free, k);
      var h := p.free[k];
      assert Reads(nodes[h], maps[h], p.slabs[h]);
      HeadFits(p, h);
    }
  }

  lemma SameTags(nodes: seq<Node>, nodes': seq<Node>, p: Pool, p': Pool, slot: nat, h: nat)
    requires slot < |p.lists| && Tagged(nodes, p, slot, h) && |nodes'| == |nodes|
    requires p' == p.(slabs := p'.slabs) && |p'.slabs| == |p.slabs|
    requires forall i :: 0 <= i < |nodes| ==> nodes'[i].prev == nodes[i].prev
    ensures Tagged(nodes', p', slot, h)
  {
  }
}
