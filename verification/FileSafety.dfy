/** What opening through the cache keeps: the proofs about FileOpen, and the exact
    condition on the operating system's answers under which it is safe. */
module FileSafety {
  import opened Lists
  import opened FileStore
  import opened FileOps
  import opened FileOpen

  /** What an opened file looks like: a descriptor exactly for a file, none otherwise. */
  predicate Sane(of: Of) { of.err != 0 || of.isDir <==> of.fd == INVALID }

  lemma TakenOk(st: Store, h: Handle)
    requires Ok(st, {}, {}, {}) && h in st.queue
    ensures h in st.files && Ok(Taken(st, h), {h}, {}, {}) && h !in Taken(st, h).queue
  {
    QueueFacts(st, h, {}, {}, {});
    Dequeued(st, h, {});
    var mid, st' := st.(queue := Without(st.queue, h)), Taken(st, h);
    Seals(mid, {h}, {}, {});
    Seals(st', {h}, {}, {});
    FdKept(mid, st', h, st'.files[h], {});
    SameNames(mid, st', h, st'.files[h], {h});
    assert EntryOk(mid, h, {});
    EntryChanged(mid, st', h, st'.files[h], {});
  }

  lemma FdOpened(st: Store, d: int, out: set<Handle>)
    requires Ok(st, out, {}, {}) && d !in st.fds && d != INVALID
    ensures Ok(st.(fds := st.fds + {d}), out, {d}, {})
  {
    var st' := st.(fds := st.fds + {d});
    Seals(st, out, {}, {});
    Seals(st', out, {d}, {});
    NewFd(st, st', d);
    OtherFds(st, st', out);
  }

  /** Only descriptors change. */
  lemma OtherFds(st: Store, st': Store, out: set<Handle>)
    requires IndexOk(st, out) && CountsOk(st, {}) && LruOk(st) && st' == st.(fds := st'.fds, sound := st'.sound)
    ensures IndexOk(st', out) && CountsOk(st', {}) && LruOk(st')
  {
    forall g | g in st'.files ensures EntryOk(st', g, {}) { assert EntryOk(st, g, {}); }
    forall g | g in st'.queue ensures g in st'.files && Indexed(st', g) { assert Indexed(st, g); }
  }

  lemma NewFd(st: Store, st': Store, d: int)
    requires FdsOk(st, {}) && d !in st.fds && d != INVALID && st' == st.(fds := st.fds + {d})
    ensures FdsOk(st', {d})
  {
  }

  /** A loose descriptor is closed again. */
  lemma GiveUpOk(st: Store, of: Of)
    requires Ok(st, {}, Loose(of.fd), {})
    ensures Ok(GiveUp(st, of).st, {}, {}, {})
  {
    if of.fd != INVALID {
      var st' := CloseLoose(st, of.fd);
      Seals(st, {}, {of.fd}, {});
      Seals(st', {}, {}, {});
      assert NotHeld(st, of.fd);
      LooseClosed(st, st', of.fd);
      OtherFds(st, st', {});
    }
  }

  lemma LooseClosed(st: Store, st': Store, d: int)
    requires FdsOk(st, {d}) && st'.files == st.files && st'.fds == st.fds - {d}
    ensures FdsOk(st', {})
  {
  }

  /** A request that fails takes the entry out of the cache. */
  lemma FailOk(st: Store, h: Handle, of: Of)
    requires Ok(st, {h}, {}, {}) && h in st.files && of.fd == INVALID
    ensures Ok(Fail(st, h, of).st, {}, {}, {}) && HoldersKept(st, Fail(st, h, of).st, st.users)
  {
    var st' := Fail(st, h, of).st;
    EntryFacts(st, h, {h}, {}, {});
    UsersSame(st, {h}, {}, {});
    if st.files[h].count > 0 {
      Detached(st, st', h, {});
      NotDoomed(st', h, {});
    } else {
      assert st'.fds == st.fds - {st.files[h].fd};
      Forgotten(st, st', h, {});
    }
  }

  /** The entry as it is after the labels `update` and `found`. */
  lemma UpdateParts(st: Store, h: Handle, f: File, of: Of, now: int)
    requires Ok(st, {h}, Loose(of.fd), {}) && h in st.files && f == st.files[h].(fd := f.fd)
    requires st.files[h].count == 0 && st.files[h].fd == INVALID && Sane(of) && st.clock <= now
    ensures var st' := Update(st, h, f, of, now).st;
      EntryOk(st', h, {}) && FdsOk(st', {}) && st'.users[h] == st'.files[h].count
  {
    var st' := Update(st, h, f, of, now).st;
    EntryFacts(st, h, {h}, Loose(of.fd), {});
    OkFds(st, {h}, Loose(of.fd), {});
    OutFacts(st, h, Loose(of.fd));
    FdStored(st, st', h, st'.files[h]);
  }

  lemma OutFacts(st: Store, h: Handle, loose: set<int>)
    requires Ok(st, {h}, loose, {})
    ensures h in st.files && Indexed(st, h) && h !in st.queue
  {
    Seals(st, {h}, loose, {});
  }

  /** An entry without a descriptor gets what was opened. */
  lemma UpdateOk(st: Store, h: Handle, f: File, of: Of, now: int)
    requires Ok(st, {h}, Loose(of.fd), {}) && h in st.files && f == st.files[h].(fd := f.fd)
    requires st.files[h].count == 0 && st.files[h].fd == INVALID && Sane(of) && st.clock <= now
    ensures Ok(Update(st, h, f, of, now).st, {}, {}, {})
  {
    var st' := Update(st, h, f, of, now).st;
    UpdateParts(st, h, f, of, now);
    EntryFacts(st, h, {h}, Loose(of.fd), {});
    assert st'.files == st.files[h := st'.files[h]];
    Resettled(st, st', h, st'.files[h], Loose(of.fd), {});
  }

  /** An entry keeps its descriptor and gets one more user, or none. */
  lemma FoundOk(st: Store, h: Handle, f: File, of: Of, now: int)
    requires Ok(st, {h}, {}, {}) && h in st.files && st.clock <= now
    requires f == st.files[h].(count := f.count, close := f.close, created := f.created)
    requires (f.close ==> st.files[h].close) && f.err == of.err && (f.err == 0 ==> f.isDir == of.isDir)
    requires f.count == st.files[h].count + if of.err == 0 && !of.isDir then 1 else 0
    requires of.err == 0 && !of.isDir ==> f.fd != INVALID
    ensures Ok(Found(st, h, f, of, now).st, {}, {}, {})
  {
    var st' := Found(st, h, f, of, now).st;
    EntryFacts(st, h, {h}, {}, {});
    OkFds(st, {h}, {}, {});
    OutFacts(st, h, {});
    FdKept(st, st', h, st'.files[h], {});
    Resettled(st, st', h, st'.files[h], {}, {});
  }

  /** A new entry enters the index; until it is filled in it holds nothing. */
  lemma Entered(st: Store, h: Handle, f: File, loose: set<int>)
    requires Ok(st, {}, loose, {}) && h !in st.files && f.name !in st.index
    requires f.count == 0 && f.fd == INVALID && f.err != 0
    ensures Ok(st.(files := st.files[h := f], index := st.index[f.name := h], current := st.current + 1), {h}, loose, {})
  {
    var st' := st.(files := st.files[h := f], index := st.index[f.name := h], current := st.current + 1);
    Seals(st, {}, loose, {});
    Seals(st', {h}, loose, {});
    EnteredIndex(st, st', h, f);
    EnteredCounts(st, st', h, f);
    EnteredFds(st, st', h, f, loose);
  }

  lemma EnteredIndex(st: Store, st': Store, h: Handle, f: File)
    requires IndexOk(st, {}) && LruOk(st) && h !in st.files && f.name !in st.index
    requires st'.files == st.files[h := f] && st'.index == st.index[f.name := h] && st'.queue == st.queue && st'.clock == st.clock
    ensures IndexOk(st', {h}) && LruOk(st')
  {
    assert forall i :: 0 <= i < |st.queue| ==> st.queue[i] in st.queue;
  }

  lemma EnteredCounts(st: Store, st': Store, h: Handle, f: File)
    requires CountsOk(st, {}) && h !in st.files && f.name !in st.index && f.count == 0 && f.fd == INVALID && f.err != 0
    requires st'.files == st.files[h := f] && st'.index == st.index[f.name := h] && st'.users == st.users
    ensures CountsOk(st', {})
  {
    assert h !in st.users;
    forall g | g in st'.files ensures EntryOk(st', g, {}) {
      if g != h { assert EntryOk(st, g, {}); }
    }
  }

  lemma EnteredFds(st: Store, st': Store, h: Handle, f: File, loose: set<int>)
    requires FdsOk(st, loose) && h !in st.files && f.fd == INVALID
    requires st'.files == st.files[h := f] && st'.fds == st.fds
    ensures FdsOk(st', loose)
  {
    forall d | d in st'.fds && d !in loose ensures exists g :: g in st'.files && st'.files[g].fd == d {
      var g :| g in st.files && st.files[g].fd == d;
      assert g in st'.files && st'.files[g].fd == d;
    }
  }

  // ----- the whole call -----

  /** What every call must do: the books stay in order, every earlier user keeps the
      descriptor it was given, a granted request becomes one more user of an open
      descriptor, and the cache does not outgrow its limit. */
  ghost predicate Good(st: Store, r: Outcome, name: Name, max: nat) {
    && Ok(r.st, {}, {}, {})
    && r.st.users == (if Granted(r) then st.users + multiset{r.handle} else st.users)
    && HoldersKept(st, r.st, st.users)
    && (Granted(r) ==> Holds(r, name))
    && (1 <= max && st.current <= max ==> r.st.current <= max)
  }

  ghost predicate Holds(r: Outcome, name: Name) {
    && r.handle in r.st.files && r.st.files[r.handle].fd == r.of.fd != INVALID && r.of.fd in r.st.fds
    && name in r.st.index && r.st.index[name] == r.handle
  }

  lemma HoldsNow(r: Outcome, name: Name)
    requires Ok(r.st, {}, {}, {}) && r.handle in r.st.files && r.st.files[r.handle].fd == r.of.fd != INVALID
    requires Indexed(r.st, r.handle) && r.st.files[r.handle].name == name
    ensures Holds(r, name)
  {
    EntryFacts(r.st, r.handle, {}, {}, {});
  }

  /** Filling in a new entry. */
  lemma FillOk(st: Store, name: Name, of: Of, mem: Memory, now: int)
    requires Ok(st, {}, Loose(of.fd), {}) && Sane(of) && st.clock <= now && name !in st.index
    requires mem.Room? && mem.handle !in st.files
    ensures var f := mem.junk.(name := name, uses := 1, count := 0);
      var r := Update(st.(index := st.index[name := mem.handle], current := st.current + 1), mem.handle, f, of, now);
      Ok(r.st, {}, {}, {}) && Indexed(r.st, mem.handle) && mem.handle !in st.users
  {
    var h := mem.handle;
    var f := mem.junk.(name := name, uses := 1, count := 0);
    var blank := f.(fd := INVALID, err := 1);
    var entered := st.(files := st.files[h := blank], index := st.index[name := h], current := st.current + 1);
    Entered(st, h, blank, Loose(of.fd));
    UpdateOk(entered, h, blank.(fd := f.fd), of, now);
    assert st.files[h := blank][h := Update(entered, h, blank.(fd := f.fd), of, now).st.files[h]]
        == st.files[h := Update(entered, h, blank.(fd := f.fd), of, now).st.files[h]];
    Users(st, Loose(of.fd), h);
  }

  lemma Users(st: Store, loose: set<int>, h: Handle)
    requires Ok(st, {}, loose, {}) && h !in st.files
    ensures h !in st.users
  {
    Seals(st, {}, loose, {});
  }

  lemma EnterOk(st: Store, name: Name, of: Of, mem: Memory, now: int)
    requires Ok(st, {}, Loose(of.fd), {}) && Sane(of) && st.clock <= now && name !in st.index && 0 <= st.current
    ensures Good(st, Enter(st, name, of, mem, now), name, st.current + 1)
  {
    UsersSame(st, {}, Loose(of.fd), {});
    if mem.Nothing? || mem.handle in st.files {
      GiveUpOk(st, of);
    } else {
      FillOk(st, name, of, mem, now);
      var r := Enter(st, name, of, mem, now);
      if Granted(r) { HoldsNow(r, name); }
    }
  }

  lemma RoomMade(st: Store, loose: set<int>, now: int, max: nat, inactive: int)
    requires Ok(st, {}, loose, {})
    ensures var st1 := if st.current >= max then Expire(st, 0, now, inactive) else st;
      && Ok(st1, {}, loose, {}) && st1.users == st.users && st1.clock == st.clock && HoldersKept(st, st1, st.users)
      && st1.index.Keys <= st.index.Keys && (1 <= max && st.current <= max ==> st1.current < max) && 0 <= st1.current
  {
    UsersSame(st, {}, loose, {});
    ExpireKeeps(st, 0, now, inactive, loose);
    QueueSize(st, {}, loose, {});
    QueueSize(Expire(st, 0, now, inactive), {}, loose, {});
  }

  lemma CreateOk(st: Store, name: Name, of: Of, mem: Memory, now: int, max: nat, inactive: int)
    requires Ok(st, {}, Loose(of.fd), {}) && Sane(of) && st.clock <= now && name !in st.index
    ensures Good(st, Create(st, name, of, mem, now, max, inactive), name, max)
  {
    var st1 := if st.current >= max then Expire(st, 0, now, inactive) else st;
    RoomMade(st, Loose(of.fd), now, max, inactive);
    EnterOk(st1, name, of, mem, now);
    GoodAfter(st, st1, Enter(st1, name, of, mem, now), name, max);
  }

  lemma GoodAfter(st: Store, mid: Store, r: Outcome, name: Name, max: nat)
    requires mid.users == st.users && HoldersKept(st, mid, st.users) && 0 <= mid.current
    requires 1 <= max && st.current <= max ==> mid.current < max
    requires Good(mid, r, name, mid.current + 1)
    ensures Good(st, r, name, max)
  {
  }

  /** An entry back on the queue, its books in order: the rest of what a call must do. */
  lemma FoundGood(st: Store, h: Handle, f: File, of: Of, now: int, loose: set<int>, max: nat)
    requires Ok(st, {h}, loose, {}) && h in st.files && Ok(Found(st, h, f, of, now).st, {}, {}, {})
    requires f.name == st.files[h].name && (f.fd == st.files[h].fd || st.files[h].count == 0)
    requires of.err == 0 && !of.isDir ==> f.fd == of.fd != INVALID
    ensures Good(st, Found(st, h, f, of, now), f.name, max)
  {
    var r := Found(st, h, f, of, now);
    OutFacts(st, h, loose);
    UsersSame(st, {h}, loose, {});
    EntryFacts(st, h, {h}, loose, {});
    if Granted(r) { HoldsNow(r, f.name); }
  }

  /** An entry without a descriptor is filled in. */
  lemma RefillGood(st: Store, h: Handle, f: File, of: Of, now: int, max: nat)
    requires Ok(st, {h}, Loose(of.fd), {}) && h in st.files && f == st.files[h].(fd := f.fd)
    requires st.files[h].count == 0 && st.files[h].fd == INVALID && Sane(of) && st.clock <= now
    ensures Good(st, Update(st, h, f, of, now), f.name, max)
  {
    UpdateOk(st, h, f, of, now);
    var f1 := f.(fd := of.fd, err := of.err, created := now);
    var f2 := if of.err != 0 then f1
          else f1.(uniq := of.uniq, close := false, isDir := of.isDir, count := if of.isDir then f.count else f.count + 1);
    FoundGood(st, h, f2, of, now, Loose(of.fd), max);
  }

  lemma HitGood(st: Store, h: Handle, of: Of, now: int, max: nat)
    requires Ok(st, {h}, {}, {}) && h in st.files && st.clock <= now && of.err == 0 && !of.isDir
    requires st.files[h].fd != INVALID || st.files[h].err != 0 || st.files[h].isDir
    ensures Good(st, Hit(st, h, st.files[h], of, now), st.files[h].name, max)
  {
    var f := st.files[h];
    EntryFacts(st, h, {h}, {}, {});
    if f.err != 0 {
      FoundOk(st, h, f, of.(err := f.err), now);
      FoundGood(st, h, f, of.(err := f.err), now, {}, max);
    } else if f.isDir {
      FoundOk(st, h, f, Of(f.fd, f.uniq, 0, true), now);
      FoundGood(st, h, f, Of(f.fd, f.uniq, 0, true), now, {}, max);
    } else {
      FoundOk(st, h, f.(count := f.count + 1), Of(f.fd, f.uniq, 0, false), now);
      FoundGood(st, h, f.(count := f.count + 1), Of(f.fd, f.uniq, 0, false), now, {}, max);
    }
  }

  /** The file is the one already open. */
  lemma SameGood(st: Store, h: Handle, of: Of, now: int, max: nat)
    requires Ok(st, {h}, {}, {}) && h in st.files && st.clock <= now
    requires st.files[h].fd == of.fd != INVALID && of.err == 0 && !of.isDir && of.uniq == st.files[h].uniq
    ensures Good(st, Update(st, h, st.files[h], of, now), st.files[h].name, max)
  {
    var f := st.files[h];
    EntryFacts(st, h, {h}, {}, {});
    var f1 := f.(created := now, close := false, count := f.count + 1);
    FoundOk(st, h, f1, of, now);
    FoundGood(st, h, f1, of, now, {}, max);
  }

  /** The file changed and nobody uses what is open: close that and take the new one. */
  lemma ReplaceGood(st: Store, h: Handle, of: Of, mem: Memory, now: int, max: nat, inactive: int)
    requires Ok(st, {h}, Loose(of.fd), {}) && h in st.files && st.clock <= now && Sane(of)
    requires st.files[h].fd != INVALID && st.files[h].count == 0
    ensures Good(st, Replace(st, h, st.files[h], of, mem, now, max, inactive), st.files[h].name, max)
  {
    var f := st.files[h];
    EntryFacts(st, h, {h}, Loose(of.fd), {});
    var shut := CloseFd(st, h).(files := st.files[h := f.(fd := INVALID)]);
    ShutOk(st, h, Loose(of.fd));
    RefillGood(shut, h, f, of, now, max);
    var r := Update(CloseFd(st, h), h, f, of, now);
    assert Update(shut, h, f, of, now).st.files == r.st.files;
    UsersSame(st, {h}, Loose(of.fd), {});
  }

  lemma ShutOk(st: Store, h: Handle, loose: set<int>)
    requires Ok(st, {h}, loose, {}) && h in st.files && st.files[h].fd != INVALID && st.files[h].count == 0
    ensures Ok(CloseFd(st, h).(files := st.files[h := st.files[h].(fd := INVALID)]), {h}, loose, {})
  {
    var f := st.files[h].(fd := INVALID);
    var st' := CloseFd(st, h).(files := st.files[h := f]);
    Seals(st, {h}, loose, {});
    Seals(st', {h}, loose, {});
    assert EntryOk(st, h, {});
    FdClosed(st, st', h, f, loose);
    SameNames(st, st', h, f, {h});
    EntryChanged(st, st', h, f, {});
  }

  /** The file changed while in use: the entry is detached and a new one made. */
  lemma MovedGood(st: Store, h: Handle, of: Of, mem: Memory, now: int, max: nat, inactive: int)
    requires Ok(st, {h}, Loose(of.fd), {}) && h in st.files && st.clock <= now && Sane(of) && st.files[h].count > 0
    ensures Good(st, Replace(st, h, st.files[h], of, mem, now, max, inactive), st.files[h].name, max)
  {
    var f := st.files[h];
    var st1 := Detach(st, h);
    Detached(st, st1, h, Loose(of.fd));
    NotDoomed(st1, h, Loose(of.fd));
    CreateOk(st1, f.name, of, mem, now, max, inactive);
    UsersSame(st, {h}, Loose(of.fd), {});
    GoodLater(st, st1, Create(st1, f.name, of, mem, now, max, inactive), f.name, max);
    assert Replace(st, h, f, of, mem, now, max, inactive) == Create(st1, f.name, of, mem, now, max, inactive);
  }

  lemma GoodLater(st: Store, mid: Store, r: Outcome, name: Name, max: nat)
    requires mid.users == st.users && HoldersKept(st, mid, st.users) && mid.current <= st.current
    requires Good(mid, r, name, max)
    ensures Good(st, r, name, max)
  {
  }

  /** The answers about an open file contradict each other: the name now has the
      identity of the open file and is a directory, or it had another identity when
      asked by name and the open file's identity again when it was opened. */
  predicate Contradictory(f: File, a: Answers) {
    match a.byName
    case None => false
    case Some(i) =>
      if i.uniq == f.uniq then i.isDir
      else a.fd != INVALID && a.byFd.Some? && a.byFd.value.uniq == f.uniq && !a.byFd.value.isDir
  }

  /** A retest that runs into such answers; the caller can tell from the cache, the
      request and the answers alone. */
  predicate Confused(st: Store, q: Request, a: Answers, now: int) {
    && q.name in st.index && st.index[q.name] in st.files
    && var f := st.files[st.index[q.name]];
    f.fd != INVALID && !Fresh(f, q, now) && Contradictory(f, a)
  }

  /** What OpenAndStat gives to a call that carries on. */
  lemma StatGood(st: Store, of: Of, testDir: bool, a: Answers, out: set<Handle>)
    requires Ok(st, out, {}, {}) && AnswersOk(st, a) && of.err == 0 && !of.isDir && of.fd == INVALID
    ensures var r := OpenAndStat(st, of, testDir, a);
      (r.ok || r.of.err != 0 ==> Sane(r.of)) && (!r.ok ==> r.of.fd == INVALID) && Ok(r.st, out, Loose(r.of.fd), {})
      && r.st == st.(fds := r.st.fds)
  {
    StatOutcome(st, of, testDir, a, out);
    var r := OpenAndStat(st, of, testDir, a);
    if r.of.fd != INVALID { FdOpened(st, r.of.fd, out); }
  }

  /** What asking again about an open file gives, when the answers agree. */
  lemma RestatGood(st: Store, h: Handle, testDir: bool, a: Answers)
    requires Ok(st, {h}, {}, {}) && h in st.files && AnswersOk(st, a)
    requires st.files[h].fd != INVALID && !Contradictory(st.files[h], a)
    ensures var f := st.files[h];
      var r := OpenAndStat(st, Of(f.fd, f.uniq, 0, false), testDir, a);
      && (!r.ok ==> r.of.fd == INVALID && r.st == st)
      && (if r.ok && !r.of.isDir && r.of.uniq == f.uniq then r.of.err == 0 && r.of.fd == f.fd && r.st == st
          else Ok(r.st, {h}, Loose(r.of.fd), {}) && (r.ok || r.of.err != 0 ==> Sane(r.of)) && r.st == st.(fds := r.st.fds))
  {
    var f := st.files[h];
    EntryFacts(st, h, {h}, {}, {});
    var of := Of(f.fd, f.uniq, 0, false);
    var r := OpenAndStat(st, of, testDir, a);
    StatOutcome(st, of, testDir, a, {h});
    if r.of.fd != INVALID && r.of.fd != f.fd { FdOpened(st, r.of.fd, {h}); }
  }

  /** Even contradictory answers leave the books in order up to the point where the entry is
      replaced. */
  lemma RestatAny(st: Store, h: Handle, testDir: bool, a: Answers)
    requires Ok(st, {h}, {}, {}) && h in st.files && AnswersOk(st, a) && st.files[h].fd != INVALID
    ensures var f := st.files[h];
      var r := OpenAndStat(st, Of(f.fd, f.uniq, 0, false), testDir, a);
      && r.st == st.(fds := r.st.fds)
      && ((r.ok && !r.of.isDir && r.of.err == 0 && r.of.uniq == f.uniq)
          || Ok(r.st, {h}, if Contradictory(f, a) then {} else Loose(r.of.fd), {}))
  {
    var f := st.files[h];
    if !Contradictory(f, a) {
      RestatGood(st, h, testDir, a);
    } else {
      EntryFacts(st, h, {h}, {}, {});
      StatOutcome(st, Of(f.fd, f.uniq, 0, false), testDir, a, {h});
    }
  }

  lemma ReplacedGood(st: Store, h: Handle, of: Of, mem: Memory, now: int, max: nat, inactive: int)
    requires Ok(st, {h}, Loose(of.fd), {}) && h in st.files && st.clock <= now && Sane(of) && st.files[h].fd != INVALID
    ensures Good(st, Replace(st, h, st.files[h], of, mem, now, max, inactive), st.files[h].name, max)
  {
    if st.files[h].count == 0 {
      ReplaceGood(st, h, of, mem, now, max, inactive);
    } else {
      MovedGood(st, h, of, mem, now, max, inactive);
    }
  }

  lemma RetestGood(st: Store, h: Handle, q: Request, a: Answers, mem: Memory, now: int, max: nat, inactive: int)
    requires Ok(st, {h}, {}, {}) && h in st.files && st.clock <= now && AnswersOk(st, a) && q.name == st.files[h].name
    requires st.files[h].fd != INVALID && !Contradictory(st.files[h], a)
    ensures Good(st, Retest(st, h, st.files[h], q, a, mem, now, max, inactive), q.name, max)
  {
    var f := st.files[h];
    EntryFacts(st, h, {h}, {}, {});
    var r := OpenAndStat(st, Of(f.fd, f.uniq, 0, false), q.testDir || f.isDir, a);
    RestatGood(st, h, q.testDir || f.isDir, a);
    if Refused(r, q) {
      FailGood(st, h, r.of, max);
    } else if !r.of.isDir && r.of.err == 0 && r.of.uniq == f.uniq {
      SameGood(st, h, r.of, now, max);
    } else {
      ReplacedGood(r.st, h, r.of, mem, now, max, inactive);
    }
  }

  /** A retest of a directory or of a cached error. */
  lemma ReaskGood(st: Store, h: Handle, q: Request, a: Answers, mem: Memory, now: int, max: nat, inactive: int)
    requires Ok(st, {h}, {}, {}) && h in st.files && st.clock <= now && AnswersOk(st, a) && q.name == st.files[h].name
    requires st.files[h].isDir || st.files[h].err != 0
    ensures Good(st, Retest(st, h, st.files[h], q, a, mem, now, max, inactive), q.name, max)
  {
    var f := st.files[h];
    EntryFacts(st, h, {h}, {}, {});
    var of := Of(f.fd, f.uniq, 0, false);
    var r := OpenAndStat(st, of, q.testDir || f.isDir, a);
    StatGood(st, of, q.testDir || f.isDir, a, {h});
    if Refused(r, q) {
      FailGood(r.st, h, r.of, max);
    } else {
      RefillGood(r.st, h, f, r.of, now, max);
    }
  }

  lemma FailGood(st: Store, h: Handle, of: Of, max: nat)
    requires Ok(st, {h}, {}, {}) && h in st.files && of.fd == INVALID
    ensures Good(st, Fail(st, h, of), st.files[h].name, max)
  {
    FailOk(st, h, of);
  }

  /** An open never confused by the system does all that it must. */
  lemma OpenGood(st: Store, q: Request, a: Answers, mem: Memory, now: int, max: nat, inactive: int)
    requires Ok(st, {}, {}, {}) && AnswersOk(st, a) && st.clock <= now && !Confused(st, q, a, now)
    ensures Good(st, Open(st, q, a, mem, now, max, inactive), q.name, max)
  {
    var of := Of(INVALID, q.uniq, 0, false);
    if q.name !in st.index {
      var r := OpenAndStat(st, of, q.testDir, a);
      StatGood(st, of, q.testDir, a, {});
      if Refused(r, q) {
        UsersSame(st, {}, {}, {});
      } else {
        CreateOk(r.st, q.name, r.of, mem, now, max, inactive);
      }
    } else {
      var h := st.index[q.name];
      NameFacts(st, q.name, {});
      TakenOk(st, h);
      UsersSame(st, {}, {}, {});
      var st1 := Taken(st, h);
      ReopenGood(st1, h, q, a, mem, now, max, inactive);
      GoodLater(st, st1, Reopen(st1, h, q, a, mem, now, max, inactive), q.name, max);
      assert Open(st, q, a, mem, now, max, inactive) == Reopen(st1, h, q, a, mem, now, max, inactive);
    }
  }

  lemma ReopenGood(st: Store, h: Handle, q: Request, a: Answers, mem: Memory, now: int, max: nat, inactive: int)
    requires Ok(st, {h}, {}, {}) && h in st.files && st.files[h].name == q.name && AnswersOk(st, a) && st.clock <= now
    requires st.files[h].fd != INVALID && !Fresh(st.files[h], q, now) ==> !Contradictory(st.files[h], a)
    ensures Good(st, Reopen(st, h, q, a, mem, now, max, inactive), q.name, max)
  {
    var of := Of(INVALID, q.uniq, 0, false);
    var f := st.files[h];
    if f.fd == INVALID && f.err == 0 && !f.isDir {
      var r := OpenAndStat(st, of, q.testDir, a);
      StatGood(st, of, q.testDir, a, {h});
      EntryFacts(st, h, {h}, {}, {});
      if Refused(r, q) {
        FailGood(r.st, h, r.of, max);
      } else {
        RefillGood(r.st, h, f, r.of, now, max);
      }
    } else if Fresh(f, q, now) {
      HitGood(st, h, of, now, max);
    } else if f.fd != INVALID {
      RetestGood(st, h, q, a, mem, now, max, inactive);
    } else {
      ReaskGood(st, h, q, a, mem, now, max, inactive);
    }
  }

  // ----- and when it is not safe -----

  lemma NotOk(st: Store, h: Handle)
    requires h in st.files && !FileOk(st.files[h])
    ensures !Ok(st, {}, {}, {})
  {
    if Ok(st, {}, {}, {}) { EntryFacts(st, h, {}, {}, {}); }
  }

  /** The second descriptor of a file overwrites the first, which nobody will close. */
  lemma Leaks(st: Store, h: Handle, f: File, of: Of, now: int)
    requires FdsOk(st, {of.fd}) && h in st.files && st.files[h].fd != INVALID
    requires of.err == 0 && !of.isDir && of.fd != INVALID
    ensures !Ok(Update(st, h, f, of, now).st, {}, {}, {})
  {
    var st' := Update(st, h, f, of, now).st;
    if Ok(st', {}, {}, {}) { OkFds(st', {}, {}, {}); }
  }

  /** A file that turned into a directory with the same identity: the descriptor is closed
      and kept in the entry, or closed while in use, or held by two entries. */
  lemma Mistaken(st: Store, h: Handle, of: Of, mem: Memory, now: int, max: nat, inactive: int)
    requires Ok(st, {h}, {}, {}) && h in st.files && st.files[h].fd == of.fd != INVALID && of.isDir && of.err == 0
    ensures !Ok(Replace(st, h, st.files[h], of, mem, now, max, inactive).st, {}, {}, {})
  {
    var f := st.files[h];
    var r := Replace(st, h, f, of, mem, now, max, inactive);
    if f.count == 0 {
      NotOk(r.st, h);
    } else {
      var st1 := Detach(st, h);
      Detached(st, st1, h, {});
      NotDoomed(st1, h, {});
      RoomMade(st1, {}, now, max, inactive);
      var st2 := if st1.current >= max then Expire(st1, 0, now, inactive) else st1;
      assert r == Enter(st2, f.name, of, mem, now);
      InUse(st1, h);
      MistakenEntry(st2, h, f.name, of, mem, now);
    }
  }

  lemma InUse(st: Store, h: Handle)
    requires Ok(st, {}, {}, {}) && h in st.files && st.files[h].count > 0
    ensures h in st.users
  {
    EntryFacts(st, h, {}, {}, {});
  }

  lemma MistakenEntry(st: Store, h: Handle, name: Name, of: Of, mem: Memory, now: int)
    requires h in st.files && st.files[h].fd == of.fd != INVALID && of.isDir && of.err == 0
    ensures !Ok(Enter(st, name, of, mem, now).st, {}, {}, {})
  {
    var r := Enter(st, name, of, mem, now);
    if mem.Nothing? || mem.handle in st.files {
      assert !NotHeld(st, of.fd);
      Seals(r.st, {}, {}, {});
    } else {
      NotOk(r.st, mem.handle);
    }
  }

  lemma ConfusedBreaks(st: Store, q: Request, a: Answers, mem: Memory, now: int, max: nat, inactive: int)
    requires Ok(st, {}, {}, {}) && AnswersOk(st, a) && Confused(st, q, a, now)
    ensures !Ok(Open(st, q, a, mem, now, max, inactive).st, {}, {}, {})
  {
    var h := st.index[q.name];
    NameFacts(st, q.name, {});
    TakenOk(st, h);
    var st1 := Taken(st, h);
    assert Open(st, q, a, mem, now, max, inactive) == Reopen(st1, h, q, a, mem, now, max, inactive);
    RetestBreaks(st1, h, q, a, mem, now, max, inactive);
  }

  lemma RetestBreaks(st: Store, h: Handle, q: Request, a: Answers, mem: Memory, now: int, max: nat, inactive: int)
    requires Ok(st, {h}, {}, {}) && h in st.files && AnswersOk(st, a)
    requires st.files[h].fd != INVALID && !Fresh(st.files[h], q, now) && Contradictory(st.files[h], a)
    ensures !Ok(Reopen(st, h, q, a, mem, now, max, inactive).st, {}, {}, {})
  {
    var f := st.files[h];
    EntryFacts(st, h, {h}, {}, {});
    var r := OpenAndStat(st, Of(f.fd, f.uniq, 0, false), q.testDir || f.isDir, a);
    if a.byName.value.uniq == f.uniq {
      Mistaken(st, h, r.of, mem, now, max, inactive);
    } else {
      FdOpened(st, a.fd, {h});
      OkFds(r.st, {h}, {a.fd}, {});
      Leaks(r.st, h, f, r.of, now);
    }
  }

  /** Opening keeps the books exactly when the system's answers do not contradict each
      other about a file the cache has open. */
  lemma OpenSafe(st: Store, q: Request, a: Answers, mem: Memory, now: int, max: nat, inactive: int)
    requires Ok(st, {}, {}, {}) && AnswersOk(st, a) && st.clock <= now
    ensures Ok(Open(st, q, a, mem, now, max, inactive).st, {}, {}, {}) <==> !Confused(st, q, a, now)
  {
    if Confused(st, q, a, now) {
      ConfusedBreaks(st, q, a, mem, now, max, inactive);
    } else {
      OpenGood(st, q, a, mem, now, max, inactive);
    }
  }

  // ----- whole runs -----

  datatype Event = Opens(q: Request, a: Answers, mem: Memory, now: int) | Ends(handle: Handle, minUses: nat, now: int)

  function Empty(clock: int): Store { Store(map[], map[], [], 0, {}, multiset{}, clock, true) }

  /** What can happen: time does not run back, only a user's use ends, and the system
      does not contradict itself. */
  ghost predicate Possible(st: Store, e: Event) {
    && st.clock <= e.now
    && match e
       case Opens(q, a, _, now) => AnswersOk(st, a) && !Confused(st, q, a, now)
       case Ends(h, _, _) => h in st.users
  }

  function Step(st: Store, e: Event, max: nat, inactive: int): Store {
    match e
    case Opens(q, a, mem, now) => Open(st, q, a, mem, now, max, inactive).st
    case Ends(h, minUses, now) => if h in st.users then Cleanup(st, h, minUses, now, inactive) else st
  }

  ghost predicate Run(st: Store, es: seq<Event>, st': Store, max: nat, inactive: int)
    decreases |es|
  {
    if es == [] then st' == st
    else Possible(st, es[0]) && Run(Step(st, es[0], max, inactive), es[1..], st', max, inactive)
  }

  ghost predicate InOrder(st: Store, max: nat) {
    Ok(st, {}, {}, {}) && (1 <= max ==> st.current <= max)
  }

  lemma StepKeeps(st: Store, e: Event, max: nat, inactive: int)
    requires InOrder(st, max) && Possible(st, e)
    ensures InOrder(Step(st, e, max, inactive), max)
  {
    match e
    case Opens(q, a, mem, now) => OpenGood(st, q, a, mem, now, max, inactive);
    case Ends(h, minUses, now) => CleanupOk(st, h, minUses, now, inactive);
  }

  lemma {:induction false} RunKeeps(st: Store, es: seq<Event>, st': Store, max: nat, inactive: int)
    requires InOrder(st, max) && Run(st, es, st', max, inactive)
    ensures InOrder(st', max)
    decreases |es|
  {
    if es != [] {
      StepKeeps(st, es[0], max, inactive);
      RunKeeps(Step(st, es[0], max, inactive), es[1..], st', max, inactive);
    }
  }

  /** Every run from an empty cache: each open descriptor is held by exactly one entry,
      nothing was closed twice or in use, uses are counted, detached entries are those
      still in use, and index, queue and `current` agree within the limit. */
  lemma EveryRun(clock: int, es: seq<Event>, st: Store, max: nat, inactive: int)
    requires Run(Empty(clock), es, st, max, inactive)
    ensures Intact(st, {}, {}, {}) && st.sound && st.current == |st.queue| == |st.index|
    ensures 1 <= max ==> st.current <= max
  {
    Seals(Empty(clock), {}, {}, {});
    RunKeeps(Empty(clock), es, st, max, inactive);
    Seals(st, {}, {}, {});
    IndexSize(st);
  }

  /** As many names as queued entries. */
  lemma IndexSize(st: Store)
    requires IndexOk(st, {})
    ensures |st.index| == |st.queue|
  {
    var names := set n | n in st.index;
    assert names == st.index.Keys && |names| == |st.index|;
    NamesOf(st, st.queue, names);
  }

  lemma {:induction false} NamesOf(st: Store, q: seq<Handle>, names: set<Name>)
    requires NoRepeats(q) && (forall h <- q :: h in st.files && st.files[h].name in names && Indexed(st, h))
    requires forall n <- names :: n in st.index && st.index[n] in q && st.index[n] in st.files && st.files[st.index[n]].name == n
    ensures |names| == |q|
  {
    if q == [] {
      assert names == {};
    } else {
      var h := q[0];
      var n := st.files[h].name;
      forall g | g in q[1..] ensures st.files[g].name in names - {n} { assert Indexed(st, g) && Indexed(st, h); }
      NamesOf(st, q[1..], names - {n});
      assert names == (names - {n}) + {n};
    }
  }
}
