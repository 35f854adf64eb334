/** The operations of nginx/src/core/ngx_open_file_cache.c as functions on the books,
    and what they keep. */
module FileOps {
  import opened Lists
  import opened FileStore

  /** ngx_close_file on the descriptor of h. */
  function CloseFd(st: Store, h: Handle): Store
    requires h in st.files
  {
    var fd := st.files[h].fd;
    st.(fds := st.fds - {fd}, sound := st.sound && fd in st.fds && st.files[h].count == 0)
  }

  /** ngx_close_cached_file */
  function CloseCached(st: Store, h: Handle, minUses: nat, now: int): Store
    requires h in st.files
  {
    var f := st.files[h];
    if !f.close then
      var f1 := f.(accessed := now);
      var st1 := st.(files := st.files[h := f1], queue := [h] + Without(st.queue, h), clock := now);
      if f.uses >= minUses || f.count > 0 then st1
      else if f.fd == INVALID then st1
      else CloseFd(st1, h).(files := st1.files[h := f1.(fd := INVALID)])
    else if f.count > 0 then st
    else if f.fd == INVALID then st.(files := st.files - {h})
    else CloseFd(st, h).(files := st.files - {h})
  }

  /** A detached entry stays while it is in use and goes with its last user. */
  lemma DetachedClosed(st: Store, h: Handle, minUses: nat, now: int, loose: set<int>)
    requires Ok(st, {}, loose, {h}) && h in st.files && !Indexed(st, h)
    ensures var st' := CloseCached(st, h, minUses, now);
      && Ok(st', {}, loose, {})
      && (if st.files[h].count > 0 then st' == st
          else st' == st.(files := st.files - {h}, fds := st.fds - {st.files[h].fd}))
  {
    var st' := CloseCached(st, h, minUses, now);
    EntryFacts(st, h, {}, loose, {h});
    if st.files[h].count > 0 {
      NotDoomed(st, h, loose);
    } else {
      assert st'.fds == st.fds - {st.files[h].fd};
      EntryFreed(st, st', h, loose);
    }
  }

  /** An indexed file becomes the most recently used, and gives up its descriptor if
      nobody uses it and it was not used often enough. */
  lemma IndexedClosed(st: Store, h: Handle, minUses: nat, now: int)
    requires Ok(st, {}, {}, {}) && h in st.queue && h in st.files && st.files[h].err == 0 && st.clock <= now
    ensures var st' := CloseCached(st, h, minUses, now);
      && Ok(st', {}, {}, {}) && st'.queue == [h] + Without(st.queue, h) && st'.clock == now
      && st'.users == st.users && st'.current == st.current
  {
    var st' := CloseCached(st, h, minUses, now);
    var mid := st.(queue := Without(st.queue, h));
    EntryFacts(st, h, {}, {}, {});
    QueueFacts(st, h, {}, {}, {});
    Dequeued(st, h, {});
    OkFds(st, {}, {}, {});
    if st'.files[h].fd == st.files[h].fd {
      FdKept(mid, st', h, st'.files[h], {});
    } else {
      FdClosed(mid, st', h, st'.files[h], {});
    }
    assert st'.files == mid.files[h := st'.files[h]];
    Resettled(mid, st', h, st'.files[h], {}, {});
  }

  // ----- eviction -----

  /** Whoever holds an entry still finds it, with its descriptor. */
  ghost predicate HoldersKept(st: Store, st': Store, us: multiset<Handle>) {
    forall g <- us :: g in st.files && g in st'.files && st'.files[g].fd == st.files[g].fd
  }

  lemma UsersSame(st: Store, out: set<Handle>, loose: set<int>, doomed: set<Handle>)
    requires Ok(st, out, loose, doomed)
    ensures HoldersKept(st, st, st.users)
  {
    Seals(st, out, loose, doomed);
  }

  /** One turn of the loop in ngx_expire_old_cached_files. */
  function Evict(st: Store, now: int): Store
    requires st.queue != [] && st.queue[|st.queue| - 1] in st.files
  {
    var h := st.queue[|st.queue| - 1];
    var f := st.files[h];
    var st1 := st.(queue := st.queue[..|st.queue| - 1], index := st.index - {f.name}, current := st.current - 1);
    if f.err == 0 && !f.isDir then CloseCached(st1.(files := st.files[h := f.(close := true)]), h, 0, now)
    else st1.(files := st.files - {h})
  }

  lemma EvictOk(st: Store, now: int, loose: set<int>)
    requires Ok(st, {}, loose, {}) && st.queue != []
    ensures st.queue[|st.queue| - 1] in st.files
    ensures var st' := Evict(st, now);
      && Ok(st', {}, loose, {}) && st'.queue == st.queue[..|st.queue| - 1] && st'.clock == st.clock && st'.users == st.users
      && SameEntries(st, st', st'.queue) && HoldersKept(st, st', st.users) && st'.index.Keys <= st.index.Keys
  {
    UsersSame(st, {}, loose, {});
    var h := st.queue[|st.queue| - 1];
    QueueFacts(st, h, {}, loose, {});
    EntryFacts(st, h, {}, loose, {});
    QueueSize(st, {}, loose, {});
    var f := st.files[h];
    var mid := st.(queue := st.queue[..|st.queue| - 1]);
    Dequeued(st, h, loose);
    WithoutLast(st.queue);
    if f.err == 0 && !f.isDir {
      var st1 := mid.(index := st.index - {f.name}, current := st.current - 1, files := st.files[h := f.(close := true)]);
      Detached(mid, st1, h, loose);
      DetachedClosed(st1, h, 0, now, loose);
    } else {
      assert st.fds == st.fds - {f.fd};
      Forgotten(mid, Evict(st, now), h, loose);
    }
    forall g | g in mid.queue ensures g in st.files && g != h { QueueFacts(mid, g, {h}, loose, {}); }
  }

  /** ngx_expire_old_cached_files; a queued entry is always allocated (EvictOk). */
  function Expire(st: Store, n: nat, now: int, inactive: int): Store
    decreases 3 - n
  {
    if n >= 3 || st.queue == [] || st.queue[|st.queue| - 1] !in st.files then st
    else if n != 0 && now - st.files[st.queue[|st.queue| - 1]].accessed <= inactive then st
    else Expire(Evict(st, now), n + 1, now, inactive)
  }

  lemma {:induction false} ExpireKeeps(st: Store, n: nat, now: int, inactive: int, loose: set<int>)
    requires Ok(st, {}, loose, {})
    ensures var st' := Expire(st, n, now, inactive);
      && Ok(st', {}, loose, {}) && st'.queue <= st.queue && st'.clock == st.clock && st'.users == st.users
      && (n == 0 && st.queue != [] ==> |st'.queue| < |st.queue|) && (n <= 3 ==> |st.queue| - |st'.queue| <= 3 - n)
      && SameEntries(st, st', st'.queue) && HoldersKept(st, st', st.users) && st'.index.Keys <= st.index.Keys
    decreases 3 - n
  {
    UsersSame(st, {}, loose, {});
    forall g | g in st.queue ensures g in st.files { QueueFacts(st, g, {}, loose, {}); }
    if n < 3 && st.queue != [] {
      EvictOk(st, now, loose);
      if !(n != 0 && now - st.files[st.queue[|st.queue| - 1]].accessed <= inactive) {
        ExpireKeeps(Evict(st, now), n + 1, now, inactive, loose);
      }
    }
  }

  lemma IdleStep(st: Store, mid: Store, size: nat, n: nat, now: int, inactive: int)
    requires st.queue != [] && mid.queue == st.queue[..|st.queue| - 1] && SameEntries(st, mid, mid.queue)
    requires IdleBetween(mid, size, |mid.queue|, now, inactive)
    requires st.queue[|st.queue| - 1] in st.files
    requires n != 0 ==> now - st.files[st.queue[|st.queue| - 1]].accessed > inactive
    ensures IdleBetween(st, size, if n == 0 then |st.queue| - 1 else |st.queue|, now, inactive)
  {
    forall k | size <= k < |mid.queue| ensures st.queue[k] in st.files && now - st.files[st.queue[k]].accessed > inactive {
      assert mid.queue[k] in mid.queue && mid.queue[k] == st.queue[k];
    }
  }

  /** All that goes had been idle too long, except one entry when n == 0. */
  lemma {:induction false} ExpireIdle(st: Store, n: nat, now: int, inactive: int, loose: set<int>)
    requires Ok(st, {}, loose, {})
    ensures IdleBetween(st, |Expire(st, n, now, inactive).queue|,
                        if n == 0 then |st.queue| - 1 else |st.queue|, now, inactive)
    decreases 3 - n
  {
    var st' := Expire(st, n, now, inactive);
    if n < 3 && st.queue != [] {
      EvictOk(st, now, loose);
      var h := st.queue[|st.queue| - 1];
      if !(n != 0 && now - st.files[h].accessed <= inactive) {
        var mid := Evict(st, now);
        ExpireIdle(mid, n + 1, now, inactive, loose);
        assert st' == Expire(mid, n + 1, now, inactive);
        IdleStep(st, mid, |st'.queue|, n, now, inactive);
      }
    }
  }

  /** What goes was used least recently: everything that stays was used no earlier. */
  lemma ExpireLeastRecent(st: Store, n: nat, now: int, inactive: int, loose: set<int>)
    requires Ok(st, {}, loose, {})
    ensures LeastRecent(st, |Expire(st, n, now, inactive).queue|)
  {
    QueueSize(st, {}, loose, {});
    TailLeastRecent(st, |Expire(st, n, now, inactive).queue|);
  }

  // ----- the end of a use -----

  /** ngx_open_file_cleanup */
  function Cleanup(st: Store, h: Handle, minUses: nat, now: int, inactive: int): Store
    requires h in st.users
  {
    Expire(Released(st, h, minUses, now), 1, now, inactive)
  }

  function Released(st: Store, h: Handle, minUses: nat, now: int): Store
    requires h in st.users
  {
    if h !in st.files || st.files[h].count == 0 then st
    else
      var f := st.files[h];
      CloseCached(st.(files := st.files[h := f.(count := f.count - 1)], users := st.users - multiset{h}), h, minUses, now)
  }

  /** One use ends: an indexed entry stays, a detached one is freed exactly when this was
      its last user. */
  lemma ReleasedOk(st: Store, h: Handle, minUses: nat, now: int)
    requires Ok(st, {}, {}, {}) && h in st.users && st.clock <= now
    ensures h in st.files && st.files[h].count > 0
    ensures var st' := Released(st, h, minUses, now);
      && Ok(st', {}, {}, {}) && st'.users == st.users - multiset{h} && st'.current == st.current
      && (Indexed(st, h) ==> h in st'.files)
      && (!Indexed(st, h) ==> (h in st'.files <==> st.users[h] > 1))
      && HoldersKept(st, st', st'.users)
  {
    UserFacts(st, h);
    EntryFacts(st, h, {}, {}, {});
    var f := st.files[h].(count := st.files[h].count - 1);
    var st1 := st.(files := st.files[h := f], users := st.users - multiset{h});
    OneLess(st, st1, h, f);
    if Indexed(st, h) {
      IndexedClosed(st1, h, minUses, now);
    } else {
      DetachedClosed(st1, h, minUses, now, {});
    }
    forall g | g in st1.users ensures g in st.files && (g == h ==> f.count > 0) { UserFacts(st, g); }
  }

  lemma CleanupOk(st: Store, h: Handle, minUses: nat, now: int, inactive: int)
    requires Ok(st, {}, {}, {}) && h in st.users && st.clock <= now
    ensures var st' := Cleanup(st, h, minUses, now, inactive);
      && Ok(st', {}, {}, {}) && st'.users == st.users - multiset{h} && st'.current <= st.current
      && HoldersKept(st, st', st'.users)
  {
    ReleasedOk(st, h, minUses, now);
    var mid := Released(st, h, minUses, now);
    ExpireKeeps(mid, 1, now, inactive, {});
    QueueSize(mid, {}, {}, {});
    QueueSize(Expire(mid, 1, now, inactive), {}, {}, {});
    forall g | g in mid.users ensures g in st.files { UserFacts(st, g); }
  }

  lemma UserFacts(st: Store, h: Handle)
    requires Ok(st, {}, {}, {}) && h in st.users
    ensures h in st.files
  {
    Seals(st, {}, {}, {});
  }

  lemma OneLess(st: Store, st1: Store, h: Handle, f: File)
    requires Ok(st, {}, {}, {}) && h in st.files && h in st.users && st.files[h].count > 0
    requires f == st.files[h].(count := st.files[h].count - 1)
    requires st1 == st.(files := st.files[h := f], users := st.users - multiset{h})
    ensures Ok(st1, {}, {}, if Indexed(st, h) then {} else {h}) && Indexed(st1, h) == Indexed(st, h)
  {
    var doomed := if Indexed(st, h) then {} else {h};
    Seals(st, {}, {}, {});
    Seals(st1, {}, {}, doomed);
    FdKept(st, st1, h, f, {});
    SameNames(st, st1, h, f, {});
    OneLessCounts(st, st1, h, f, doomed);
  }

  lemma OneLessCounts(st: Store, st1: Store, h: Handle, f: File, doomed: set<Handle>)
    requires CountsOk(st, {}) && h in st.files && h in st.users && st.files[h].count > 0
    requires f == st.files[h].(count := st.files[h].count - 1)
    requires st1.files == st.files[h := f] && st1.users == st.users - multiset{h} && st1.index == st.index
    requires doomed == if Indexed(st, h) then {} else {h}
    ensures CountsOk(st1, doomed)
  {
    forall g | g in st1.files ensures EntryOk(st1, g, doomed) { assert EntryOk(st, g, {}); }
  }
}
