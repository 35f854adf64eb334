/** The book-keeping of nginx/src/core/ngx_open_file_cache.c as one value: the cached
    entries, the name index, the expire queue, the descriptors the process holds open
    for the cache, and the users each entry has. */
module FileStore {
  import opened Lists
  import opened Sealing

  type Handle = nat      // the address of an entry
  type Name = string

  const INVALID := -1    // NGX_INVALID_FILE

  /** ngx_cached_open_file_t */
  datatype File = File(
    name: Name, fd: int, uniq: int, err: int, isDir: bool,
    created: int, accessed: int, uses: nat, count: nat, close: bool)

  datatype Store = Store(
    files: map<Handle, File>,     // the entries allocated and not freed
    index: map<Name, Handle>,     // the red-black tree
    queue: seq<Handle>,           // the expire queue, most recently used first
    current: int,
    fds: set<int>,                // descriptors opened and not yet closed
    users: multiset<Handle>,      // one for each request that holds an entry
    clock: int,
    sound: bool)                  // every close so far was of an open descriptor that nobody used

  predicate Indexed(st: Store, h: Handle)
    requires h in st.files
  {
    st.files[h].name in st.index && st.index[st.files[h].name] == h
  }

  /** Index and queue hold the same entries, except for one entry `out` that an
      operation has taken off the queue for a moment. */
  ghost predicate IndexOk(st: Store, out: set<Handle>) {
    && (forall n <- st.index :: st.index[n] in st.files && st.files[st.index[n]].name == n)
    && NoRepeats(st.queue)
    && (forall h <- st.queue :: h in st.files && Indexed(st, h) && h !in out)
    && (forall n <- st.index :: st.index[n] in st.queue || st.index[n] in out)
    && (forall h <- out :: h in st.files && Indexed(st, h))
  }

  predicate FileOk(f: File) {
    && (f.count > 0 ==> f.fd != INVALID)
    && (f.err != 0 || f.isDir ==> f.fd == INVALID && f.count == 0)
  }

  /** Counts are right; a detached entry is one that is marked for closing and still
      in use, unless it is in `doomed`, about to be freed. */
  ghost predicate CountsOk(st: Store, doomed: set<Handle>) {
    && (forall h <- st.users :: h in st.files)
    && forall h <- st.files :: EntryOk(st, h, doomed)
  }

  ghost predicate EntryOk(st: Store, h: Handle, doomed: set<Handle>)
    requires h in st.files
  {
    && FileOk(st.files[h]) && st.files[h].count == st.users[h]
    && (if Indexed(st, h) then st.files[h].err == 0 ==> !st.files[h].close
        else st.files[h].close && (st.files[h].count > 0 || h in doomed))
  }

  /** Every open descriptor is held by exactly one entry, except those in `loose`,
      which an operation has just opened and not yet stored. */
  ghost predicate FdsOk(st: Store, loose: set<int>) {
    && loose <= st.fds && INVALID !in st.fds
    && (forall h <- st.files :: st.files[h].fd != INVALID ==> st.files[h].fd in st.fds - loose)
    && (forall g, h :: g in st.files && h in st.files && st.files[g].fd == st.files[h].fd != INVALID ==> g == h)
    && (forall d <- st.fds :: d in loose || exists h :: h in st.files && st.files[h].fd == d)
  }

  /** The queue is ordered by last access. */
  ghost predicate LruOk(st: Store) {
    && (forall h <- st.queue :: h in st.files && st.files[h].accessed <= st.clock)
    && forall i, j :: 0 <= i < j < |st.queue| ==> st.files[st.queue[j]].accessed <= st.files[st.queue[i]].accessed
  }

  /** The invariant, with the exceptions an operation in progress may make. */
  ghost predicate Intact(st: Store, out: set<Handle>, loose: set<int>, doomed: set<Handle>) {
    && IndexOk(st, out) && CountsOk(st, doomed) && FdsOk(st, loose) && LruOk(st)
    && st.current == |st.queue| + (if out == {} then 0 else 1) && st.sound
  }

  /** The same behind a seal. */
  ghost predicate Sealed(s: Seal, st: Store, out: set<Handle>, loose: set<int>, doomed: set<Handle>) {
    match s
    case Bare => Intact(st, out, loose, doomed)
    case Wrapped(inner) => Sealed(inner, st, out, loose, doomed)
  }

  ghost predicate Ok(st: Store, out: set<Handle>, loose: set<int>, doomed: set<Handle>) {
    Sealed(SEAL, st, out, loose, doomed)
  }

  lemma Seals(st: Store, out: set<Handle>, loose: set<int>, doomed: set<Handle>)
    ensures Ok(st, out, loose, doomed) <==> Intact(st, out, loose, doomed)
  {
    assert Sealed(Wrapped(Bare), st, out, loose, doomed) <==> Intact(st, out, loose, doomed);
    assert Sealed(Wrapped(Wrapped(Bare)), st, out, loose, doomed) <==> Intact(st, out, loose, doomed);
  }

  // ----- the queue -----

  lemma DequeuedIndex(st: Store, h: Handle)
    requires IndexOk(st, {}) && h in st.queue
    ensures IndexOk(st.(queue := Without(st.queue, h)), {h}) && |Without(st.queue, h)| == |st.queue| - 1
  {
    var st' := st.(queue := Without(st.queue, h));
    WithoutRepeats(st.queue, h);
    forall g | g in st'.queue ensures g in st.files && Indexed(st', g) && g != h {
      WithoutMember(st.queue, h, g);
    }
    forall n | n in st.index ensures st.index[n] in st'.queue || st.index[n] == h {
      WithoutMember(st.queue, h, st.index[n]);
    }
  }

  lemma DequeuedLru(st: Store, h: Handle)
    requires LruOk(st) && h in st.queue
    ensures LruOk(st.(queue := Without(st.queue, h)))
  {
    var st' := st.(queue := Without(st.queue, h));
    var k := WithoutSplit(st.queue, h);
    forall g | g in st'.queue ensures g in st.files && st.files[g].accessed <= st.clock {
      WithoutMember(st.queue, h, g);
    }
    forall i, j | 0 <= i < j < |st'.queue|
      ensures st.files[st'.queue[j]].accessed <= st.files[st'.queue[i]].accessed
    {
      WithoutAt(st.queue, h, k, i);
      WithoutAt(st.queue, h, k, j);
    }
  }

  /** Taking an entry off the queue. */
  lemma Dequeued(st: Store, h: Handle, loose: set<int>)
    requires Ok(st, {}, loose, {}) && h in st.queue
    ensures Ok(st.(queue := Without(st.queue, h)), {h}, loose, {})
  {
    Seals(st, {}, loose, {});
    Seals(st.(queue := Without(st.queue, h)), {h}, loose, {});
    var st' := st.(queue := Without(st.queue, h));
    DequeuedIndex(st, h);
    DequeuedLru(st, h);
    SameFiles(st, st', loose, {});
  }

  /** Counts and descriptors do not depend on queue and clock. */
  lemma SameFiles(st: Store, st': Store, loose: set<int>, doomed: set<Handle>)
    requires CountsOk(st, doomed) && FdsOk(st, loose)
    requires st'.files == st.files && st'.index == st.index && st'.fds == st.fds && st'.users == st.users
    ensures CountsOk(st', doomed) && FdsOk(st', loose)
  {
    forall g | g in st'.files ensures EntryOk(st', g, doomed) { assert EntryOk(st, g, doomed); }
  }

  /** Putting it back at the head, with new contents. */
  lemma Requeued(st: Store, st': Store, h: Handle, f: File)
    requires IndexOk(st, {h}) && LruOk(st) && h in st.files && f.name == st.files[h].name
    requires st'.files == st.files[h := f] && st'.index == st.index && st'.queue == [h] + st.queue
    requires st.clock <= st'.clock == f.accessed
    ensures IndexOk(st', {}) && LruOk(st')
  {
    assert forall i :: 0 < i < |st'.queue| ==> st'.queue[i] == st.queue[i - 1] && st'.queue[i] in st.queue;
    assert st'.queue[0] == h;
    forall n | n in st'.index ensures st'.index[n] in st'.queue {
      if st'.index[n] != h { assert st'.index[n] in st.queue; }
    }
  }

  /** One entry changes, its name and place do not. */
  lemma EntryChanged(st: Store, st': Store, h: Handle, f: File, doomed: set<Handle>)
    requires CountsOk(st, doomed) && h in st.files && f.name == st.files[h].name
    requires st'.files == st.files[h := f] && st'.index == st.index
    requires st'.users[h] == f.count && st'.users - multiset{h} <= st.users
    requires forall g <- st.files :: g != h ==> st'.users[g] == st.users[g]
    requires EntryOk(st', h, doomed)
    ensures CountsOk(st', doomed)
  {
    forall g | g in st'.files ensures EntryOk(st', g, doomed) {
      if g != h { assert EntryOk(st, g, doomed); }
    }
  }

  /** The descriptor of h is closed. */
  lemma FdClosed(st: Store, st': Store, h: Handle, f: File, loose: set<int>)
    requires FdsOk(st, loose) && h in st.files && f.fd == INVALID
    requires st'.files == st.files[h := f] && st'.fds == st.fds - {st.files[h].fd}
    ensures FdsOk(st', loose)
  {
    forall d | d in st'.fds && d !in loose ensures exists g :: g in st'.files && st'.files[g].fd == d {
      var g :| g in st.files && st.files[g].fd == d;
      assert g in st'.files && st'.files[g].fd == d;
    }
  }

  /** An entry and its descriptor, if it has one, disappear together. */
  lemma FdFreed(st: Store, st': Store, h: Handle, loose: set<int>)
    requires FdsOk(st, loose) && h in st.files
    requires st'.files == st.files - {h} && st'.fds == st.fds - {st.files[h].fd}
    ensures FdsOk(st', loose)
  {
    forall d | d in st'.fds && d !in loose ensures exists g :: g in st'.files && st'.files[g].fd == d {
      var g :| g in st.files && st.files[g].fd == d;
      assert g in st'.files && st'.files[g].fd == d;
    }
  }

  /** A loose descriptor, or none, goes into an entry that holds none. */
  lemma FdStored(st: Store, st': Store, h: Handle, f: File)
    requires FdsOk(st, Loose(f.fd)) && (h in st.files ==> st.files[h].fd == INVALID)
    requires st'.files == st.files[h := f] && st'.fds == st.fds
    ensures FdsOk(st', {})
  {
    forall d | d in st'.fds ensures exists g :: g in st'.files && st'.files[g].fd == d {
      if d == f.fd {
        assert h in st'.files && st'.files[h].fd == d;
      } else {
        var g :| g in st.files && st.files[g].fd == d;
        assert g in st'.files && st'.files[g].fd == d;
      }
    }
  }

  /** The entry changes and keeps its descriptor. */
  lemma FdKept(st: Store, st': Store, h: Handle, f: File, loose: set<int>)
    requires FdsOk(st, loose) && h in st.files && f.fd == st.files[h].fd
    requires st'.files == st.files[h := f] && st'.fds == st.fds
    ensures FdsOk(st', loose)
  {
    forall d | d in st'.fds && d !in loose ensures exists g :: g in st'.files && st'.files[g].fd == d {
      var g :| g in st.files && st.files[g].fd == d;
      assert g in st'.files && st'.files[g].fd == d;
    }
  }

  function Loose(fd: int): set<int> { if fd == INVALID then {} else {fd} }

  /** A doomed entry, off index and queue and without users, is freed. */
  lemma EntryFreed(st: Store, st': Store, h: Handle, loose: set<int>)
    requires Ok(st, {}, loose, {h}) && h in st.files && !Indexed(st, h) && st.files[h].count == 0
    requires st' == st.(files := st.files - {h}, fds := st.fds - {st.files[h].fd})
    ensures Ok(st', {}, loose, {})
  {
    Seals(st, {}, loose, {h});
    Seals(st', {}, loose, {});
    FdFreed(st, st', h, loose);
    FreedCounts(st, st', h);
    FreedIndex(st, st', h);
    LruOthers(st, st', h);
  }

  lemma FreedCounts(st: Store, st': Store, h: Handle)
    requires CountsOk(st, {h}) && h in st.files && st.files[h].count == 0
    requires st'.files == st.files - {h} && st'.index == st.index && st'.users == st.users
    ensures CountsOk(st', {})
  {
    assert h !in st.users by { assert EntryOk(st, h, {h}); }
    forall g | g in st'.files ensures EntryOk(st', g, {}) { assert EntryOk(st, g, {h}); }
  }

  lemma FreedIndex(st: Store, st': Store, h: Handle)
    requires IndexOk(st, {}) && h in st.files && !Indexed(st, h)
    requires st'.files == st.files - {h} && st'.index == st.index && st'.queue == st.queue
    ensures IndexOk(st', {}) && h !in st.queue
  {
    assert h !in st.queue;
  }

  /** The entry h leaves the index; what the other entries are does not change. */
  lemma OthersIndexed(st: Store, st': Store, h: Handle, g: Handle)
    requires h in st.files && Indexed(st, h) && g in st.files && g != h && g in st'.files
    requires st'.index == st.index - {st.files[h].name} && st'.files[g] == st.files[g]
    ensures Indexed(st', g) == Indexed(st, g)
  {
  }

  lemma CountsDetached(st: Store, st': Store, h: Handle, f: File)
    requires CountsOk(st, {}) && h in st.files && Indexed(st, h)
    requires st'.index == st.index - {st.files[h].name} && st'.users == st.users
    requires f == st.files[h].(close := true) && st'.files == st.files[h := f]
    ensures CountsOk(st', {h})
  {
    forall g | g in st'.files ensures EntryOk(st', g, {h}) {
      assert EntryOk(st, g, {});
      if g != h { OthersIndexed(st, st', h, g); }
    }
  }

  lemma CountsForgotten(st: Store, st': Store, h: Handle)
    requires CountsOk(st, {}) && h in st.files && Indexed(st, h) && st.files[h].count == 0
    requires st'.index == st.index - {st.files[h].name} && st'.users == st.users && st'.files == st.files - {h}
    ensures CountsOk(st', {})
  {
    assert EntryOk(st, h, {});
    forall g | g in st'.files ensures EntryOk(st', g, {}) {
      assert EntryOk(st, g, {});
      OthersIndexed(st, st', h, g);
    }
  }

  /** Index and queue after h left both, and changed or was freed. */
  lemma IndexDetached(st: Store, st': Store, h: Handle)
    requires IndexOk(st, {h}) && h in st.files
    requires st'.index == st.index - {st.files[h].name} && st'.queue == st.queue
    requires st.files.Keys - {h} <= st'.files.Keys && forall g <- st.files :: g != h ==> st'.files[g] == st.files[g]
    ensures IndexOk(st', {}) && (h in st'.files && st'.files[h].name == st.files[h].name ==> !Indexed(st', h))
  {
    forall g | g in st'.queue ensures g in st'.files && Indexed(st', g) {
      OthersIndexed(st, st', h, g);
    }
  }

  lemma LruOthers(st: Store, st': Store, h: Handle)
    requires LruOk(st) && h !in st.queue && st'.queue == st.queue && st'.clock == st.clock
    requires st.files.Keys - {h} <= st'.files.Keys && forall g <- st.files :: g != h ==> st'.files[g] == st.files[g]
    ensures LruOk(st')
  {
    assert forall i :: 0 <= i < |st.queue| ==> st.queue[i] in st.queue;
  }

  /** A file taken off the queue leaves the index and is marked for closing. */
  lemma Detached(st: Store, st': Store, h: Handle, loose: set<int>)
    requires Ok(st, {h}, loose, {}) && h in st.files
    requires st' == st.(index := st.index - {st.files[h].name}, current := st.current - 1,
                        files := st.files[h := st.files[h].(close := true)])
    ensures Ok(st', {}, loose, {h}) && !Indexed(st', h)
  {
    Seals(st, {h}, loose, {});
    Seals(st', {}, loose, {h});
    assert h !in st.queue;
    IndexDetached(st, st', h);
    LruOthers(st, st', h);
    FdKept(st, st', h, st.files[h].(close := true), loose);
    CountsDetached(st, st', h, st.files[h].(close := true));
  }

  /** An entry without users and descriptor is forgotten altogether. */
  lemma Forgotten(st: Store, st': Store, h: Handle, loose: set<int>)
    requires Ok(st, {h}, loose, {}) && h in st.files && st.files[h].count == 0 && st.files[h].fd !in loose
    requires st' == st.(index := st.index - {st.files[h].name}, current := st.current - 1,
                        files := st.files - {h}, fds := st.fds - {st.files[h].fd})
    ensures Ok(st', {}, loose, {})
  {
    Seals(st, {h}, loose, {});
    Seals(st', {}, loose, {});
    assert h !in st.queue;
    IndexDetached(st, st', h);
    LruOthers(st, st', h);
    FdFreed(st, st', h, loose);
    CountsForgotten(st, st', h);
  }

  /** Everything in the queue after position n was used no later than what precedes. */
  ghost predicate LeastRecent(st: Store, n: nat) {
    forall i, k :: 0 <= i < n <= k < |st.queue| ==>
      st.queue[i] in st.files && st.queue[k] in st.files
      && st.files[st.queue[k]].accessed <= st.files[st.queue[i]].accessed
  }

  lemma TailLeastRecent(st: Store, n: nat)
    requires LruOk(st)
    ensures LeastRecent(st, n)
  {
    assert forall i :: 0 <= i < |st.queue| ==> st.queue[i] in st.queue;
  }

  /** The entries between positions n and m have been idle longer than the limit. */
  ghost predicate IdleBetween(st: Store, n: nat, m: int, now: int, limit: int) {
    forall k :: n <= k < m && k < |st.queue| ==>
      st.queue[k] in st.files && now - st.files[st.queue[k]].accessed > limit
  }

  ghost predicate SameEntries(st: Store, st': Store, q: seq<Handle>) {
    forall g <- q :: g in st.files && g in st'.files && st'.files[g] == st.files[g]
  }

  // ----- what Ok says -----

  lemma EntryFacts(st: Store, h: Handle, out: set<Handle>, loose: set<int>, doomed: set<Handle>)
    requires Ok(st, out, loose, doomed) && h in st.files
    ensures EntryOk(st, h, doomed) && (st.files[h].fd != INVALID ==> st.files[h].fd in st.fds - loose)
    ensures Indexed(st, h) && h !in out ==> h in st.queue
    ensures INVALID !in st.fds && loose <= st.fds && st.sound
  {
    Seals(st, out, loose, doomed);
  }

  lemma QueueFacts(st: Store, h: Handle, out: set<Handle>, loose: set<int>, doomed: set<Handle>)
    requires Ok(st, out, loose, doomed) && h in st.queue
    ensures h in st.files && Indexed(st, h) && h !in out && st.files[h].accessed <= st.clock
  {
    Seals(st, out, loose, doomed);
  }

  lemma QueueSize(st: Store, out: set<Handle>, loose: set<int>, doomed: set<Handle>)
    requires Ok(st, out, loose, doomed)
    ensures st.current == |st.queue| + (if out == {} then 0 else 1) && NoRepeats(st.queue) && LruOk(st)
  {
    Seals(st, out, loose, doomed);
  }

  lemma NameFacts(st: Store, n: Name, loose: set<int>)
    requires Ok(st, {}, loose, {}) && n in st.index
    ensures st.index[n] in st.queue && st.index[n] in st.files && st.files[st.index[n]].name == n
  {
    Seals(st, {}, loose, {});
  }

  /** Back at the head of the queue, with new contents. */
  lemma Resettled(st: Store, st': Store, h: Handle, f: File, loose: set<int>, loose': set<int>)
    requires Ok(st, {h}, loose, {}) && h in st.files && f.name == st.files[h].name && f.accessed == st'.clock >= st.clock
    requires st'.files == st.files[h := f] && st'.index == st.index && st'.queue == [h] + st.queue
    requires st'.current == st.current && st'.sound
    requires st'.users[h] == f.count && st'.users - multiset{h} <= st.users
    requires forall g <- st.files :: g != h ==> st'.users[g] == st.users[g]
    requires EntryOk(st', h, {}) && FdsOk(st', loose')
    ensures Ok(st', {}, loose', {})
  {
    Seals(st, {h}, loose, {});
    Seals(st', {}, loose', {});
    Requeued(st, st', h, f);
    EntryChanged(st, st', h, f, {});
  }

  lemma OkFds(st: Store, out: set<Handle>, loose: set<int>, doomed: set<Handle>)
    requires Ok(st, out, loose, doomed)
    ensures FdsOk(st, loose)
  {
    Seals(st, out, loose, doomed);
  }

  lemma NotDoomed(st: Store, h: Handle, loose: set<int>)
    requires Ok(st, {}, loose, {h}) && h in st.files && st.files[h].count > 0
    ensures Ok(st, {}, loose, {})
  {
    Seals(st, {}, loose, {h});
    Seals(st, {}, loose, {});
    forall g | g in st.files ensures EntryOk(st, g, {}) { assert EntryOk(st, g, {h}); }
  }

  lemma SameNames(st: Store, st': Store, h: Handle, f: File, out: set<Handle>)
    requires IndexOk(st, out) && LruOk(st) && h in st.files
    requires f.name == st.files[h].name && f.accessed == st.files[h].accessed
    requires st'.files == st.files[h := f] && st'.index == st.index && st'.queue == st.queue && st'.clock == st.clock
    ensures IndexOk(st', out) && LruOk(st')
  {
    assert forall i :: 0 <= i < |st.queue| ==> st.queue[i] in st.queue;
  }
}
