/** What ngx_open_cached_file tells its callers: what the cache remembers, while that is
    recent enough, and otherwise what the operating system says. */
module FileAnswers {
  import opened Lists
  import opened FileStore
  import opened FileOps
  import opened FileOpen

  /** The cache knows the name, from no longer ago than the caller allows and with the
      identity that it expects, if any. */
  predicate Remembered(st: Store, q: Request, now: int) {
    && q.name in st.index && st.index[q.name] in st.files
    && var e := st.files[st.index[q.name]];
    && now - e.created < q.valid && (q.uniq == 0 || q.uniq == e.uniq)
    && (e.fd != INVALID || e.isDir || e.err != 0)
  }

  /** What is remembered is told, a file, a directory or an error; nothing is opened or
      closed, and only that entry's use and place in the queue change. */
  lemma RememberedAnswer(st: Store, q: Request, a: Answers, mem: Memory, now: int, max: nat, inactive: int)
    requires Ok(st, {}, {}, {}) && Remembered(st, q, now)
    ensures var h := st.index[q.name];
      var e, r := st.files[h], Open(st, q, a, mem, now, max, inactive);
      && r.handle == h && r.ok == (e.err == 0)
      && (r.ok ==> r.of == Of(e.fd, e.uniq, 0, e.isDir)) && (!r.ok ==> r.of.err == e.err && r.of.fd == INVALID)
      && r.st.fds == st.fds && r.st.index == st.index && r.st.current == st.current
      && r.st.files == st.files[h := e.(uses := e.uses + 1, accessed := now, count := if r.ok && !e.isDir then e.count + 1 else e.count)]
  {
    var h := st.index[q.name];
    EntryFacts(st, h, {}, {}, {});
  }

  // ----- asking the system -----

  /** What the system says is there. */
  predicate Reported(a: Answers, of: Of) {
    || a.byName == Some(Info(of.uniq, of.isDir))
    || (a.fd != INVALID && a.byFd == Some(Info(of.uniq, of.isDir)))
  }

  /** A file comes with the descriptor just opened, or with one that was open already and
      whose file the name still means. */
  predicate RightFd(a: Answers, had: int, hadUniq: int, of: Of) {
    || (of.fd == a.fd != INVALID && a.byFd == Some(Info(of.uniq, false)))
    || (of.fd == had != INVALID && of.uniq == hadUniq && a.byName == Some(Info(hadUniq, false)))
  }

  predicate Failed(a: Answers, err: int) {
    || (a.byName.None? && err == a.nameErr)
    || (a.fd == INVALID && err == a.openErr)
    || (a.fd != INVALID && a.byFd.None? && err == 0)
  }

  /** The outcome of ngx_open_and_stat_file, with what was open before: what the system says,
      or why there is no answer. */
  predicate Asked(a: Answers, had: int, hadUniq: int, r: Stat) {
    && (r.ok ==> r.of.err == 0 && Reported(a, r.of) && (!r.of.isDir ==> RightFd(a, had, hadUniq, r.of)))
    && (!r.ok ==> Failed(a, r.of.err) && r.of.fd == INVALID)
    && (a.byName.Some? && a.fd != INVALID && a.byFd.Some? ==> r.ok)
  }

  /** ngx_open_and_stat_file tells what the system says. */
  lemma StatTells(st: Store, of: Of, testDir: bool, a: Answers)
    requires of.err == 0
    ensures var r := OpenAndStat(st, of, testDir, a);
      && Asked(a, of.fd, of.uniq, r)
      && r.st.index == st.index && r.st.files == st.files && r.st.queue == st.queue && r.st.fds <= st.fds + {a.fd}
  {
  }

  // ----- what becomes of the entry -----

  /** The entry for the name says what the caller was told, as of now. */
  predicate Kept(st: Store, name: Name, of: Of, h: Handle, now: int) {
    && name in st.index && st.index[name] == h && h in st.files
    && var e := st.files[h];
    && e.err == of.err && e.fd == of.fd && e.created == now && (of.err == 0 ==> e.uniq == of.uniq && e.isDir == of.isDir)
  }

  lemma UpdateKept(st: Store, h: Handle, f: File, of: Of, now: int, name: Name)
    requires name in st.index && st.index[name] == h
    ensures var r := Update(st, h, f, of, now);
      r.of == of && r.ok == (of.err == 0) && Kept(r.st, name, of, r.handle, now) && r.st.fds == st.fds
  {
  }

  lemma EvictFiles(st: Store, now: int)
    requires st.queue != [] && st.queue[|st.queue| - 1] in st.files
    ensures var st' := Evict(st, now);
      st'.files.Keys <= st.files.Keys && st'.fds <= st.fds && st'.index.Keys <= st.index.Keys
  {
  }

  lemma {:induction false} ExpireFiles(st: Store, n: nat, now: int, inactive: int)
    ensures var st' := Expire(st, n, now, inactive);
      st'.files.Keys <= st.files.Keys && st'.fds <= st.fds && st'.index.Keys <= st.index.Keys
    decreases 3 - n
  {
    if n < 3 && st.queue != [] && st.queue[|st.queue| - 1] in st.files {
      EvictFiles(st, now);
      ExpireFiles(Evict(st, now), n + 1, now, inactive);
    }
  }

  /** Whether there is memory for a new entry. */
  predicate Available(st: Store, mem: Memory) { mem.Room? && mem.handle !in st.files }

  lemma CreateKept(st: Store, name: Name, of: Of, mem: Memory, now: int, max: nat, inactive: int)
    requires name !in st.index
    ensures var r := Create(st, name, of, mem, now, max, inactive);
      && r.of == of && r.st.fds <= st.fds && (r.ok ==> of.err == 0)
      && (if name in r.st.index then r.ok == (of.err == 0) && Kept(r.st, name, of, r.handle, now) else !r.ok)
      && (Available(st, mem) ==> name in r.st.index)
  {
    ExpireFiles(st, 0, now, inactive);
    var st1 := if st.current >= max then Expire(st, 0, now, inactive) else st;
    if !(mem.Nothing? || mem.handle in st1.files) {
      var st2 := st1.(index := st1.index[name := mem.handle], current := st1.current + 1);
      UpdateKept(st2, mem.handle, mem.junk.(name := name, uses := 1, count := 0), of, now, name);
    }
  }

  /** The outcome of a call that asked the system, with what was open before. */
  predicate Told(st: Store, q: Request, a: Answers, mem: Memory, now: int, had: int, hadUniq: int, r: Outcome) {
    && (r.ok ==> r.of.err == 0 && Reported(a, r.of) && (!r.of.isDir ==> RightFd(a, had, hadUniq, r.of)))
    && (!r.ok ==> (r.of.err == 0 && !Available(st, mem)) || Failed(a, r.of.err))
    && (a.byName.Some? && a.fd != INVALID && a.byFd.Some? && Available(st, mem) ==> r.ok)
    && (if q.name in r.st.index then (r.ok || (q.errors && r.of.err != 0)) && Kept(r.st, q.name, r.of, r.handle, now) else !r.ok)
    && (q.errors && r.of.err != 0 && Available(st, mem) ==> q.name in r.st.index)
    && r.st.fds <= st.fds + {a.fd}
  }

  /** A call that gives up. */
  lemma RefusedTold(st: Store, q: Request, a: Answers, mem: Memory, now: int, had: int, hadUniq: int, r: Stat, o: Outcome)
    requires Asked(a, had, hadUniq, r) && Refused(r, q) && o.of == r.of && !o.ok && q.name !in o.st.index && o.st.fds <= st.fds + {a.fd}
    ensures Told(st, q, a, mem, now, had, hadUniq, o)
  {
  }

  /** One that keeps what it was told, if there is memory. */
  lemma KeptTold(st: Store, q: Request, a: Answers, mem: Memory, now: int, had: int, hadUniq: int, r: Stat, o: Outcome)
    requires Asked(a, had, hadUniq, r) && !Refused(r, q) && o.of == r.of && (o.ok ==> r.of.err == 0) && o.st.fds <= st.fds + {a.fd}
    requires if q.name in o.st.index then o.ok == (r.of.err == 0) && Kept(o.st, q.name, r.of, o.handle, now) else !o.ok
    requires Available(st, mem) ==> q.name in o.st.index
    ensures Told(st, q, a, mem, now, had, hadUniq, o)
  {
  }

  lemma FailIs(st: Store, h: Handle, of: Of)
    requires h in st.files
    ensures var r := Fail(st, h, of);
      r.of == of && !r.ok && st.files[h].name !in r.st.index && r.st.fds <= st.fds
  {
  }

  lemma NewTold(st: Store, q: Request, a: Answers, mem: Memory, now: int, max: nat, inactive: int)
    requires q.name !in st.index
    ensures Told(st, q, a, mem, now, INVALID, q.uniq, Open(st, q, a, mem, now, max, inactive))
  {
    var of := Of(INVALID, q.uniq, 0, false);
    StatTells(st, of, q.testDir, a);
    var r := OpenAndStat(st, of, q.testDir, a);
    var o := Open(st, q, a, mem, now, max, inactive);
    if Refused(r, q) {
      RefusedTold(st, q, a, mem, now, INVALID, q.uniq, r, o);
    } else {
      CreateKept(r.st, q.name, r.of, mem, now, max, inactive);
      KeptTold(st, q, a, mem, now, INVALID, q.uniq, r, o);
    }
  }

  /** Asking again about an entry that is in the cache. */
  lemma KnownTold(st: Store, h: Handle, q: Request, a: Answers, mem: Memory, now: int, max: nat, inactive: int)
    requires q.name in st.index && st.index[q.name] == h && h in st.files && st.files[h].name == q.name
    requires var e := st.files[h];
      !(now - e.created < q.valid && (q.uniq == 0 || q.uniq == e.uniq) && (e.fd != INVALID || e.isDir || e.err != 0))
    ensures var e := st.files[h];
      Told(st, q, a, mem, now, e.fd, if e.fd == INVALID && e.err == 0 && !e.isDir then q.uniq else e.uniq,
           Reopen(st, h, q, a, mem, now, max, inactive))
  {
    var e := st.files[h];
    if e.fd == INVALID && e.err == 0 && !e.isDir {
      var of := Of(INVALID, q.uniq, 0, false);
      StatTells(st, of, q.testDir, a);
      UpdateTold(st, h, q, a, mem, now, INVALID, q.uniq, OpenAndStat(st, of, q.testDir, a));
    } else {
      RetestTold(st, h, q, a, mem, now, max, inactive);
    }
  }

  lemma UpdateTold(st: Store, h: Handle, q: Request, a: Answers, mem: Memory, now: int, had: int, hadUniq: int, r: Stat)
    requires q.name in st.index && st.index[q.name] == h && h in st.files && st.files[h].name == q.name
    requires Asked(a, had, hadUniq, r) && r.st.index == st.index && r.st.files == st.files && r.st.fds <= st.fds + {a.fd}
    ensures Told(st, q, a, mem, now, had, hadUniq, if Refused(r, q) then Fail(r.st, h, r.of) else Update(r.st, h, st.files[h], r.of, now))
  {
    if Refused(r, q) {
      FailIs(r.st, h, r.of);
      RefusedTold(st, q, a, mem, now, had, hadUniq, r, Fail(r.st, h, r.of));
    } else {
      UpdateKept(r.st, h, st.files[h], r.of, now, q.name);
      KeptTold(st, q, a, mem, now, had, hadUniq, r, Update(r.st, h, st.files[h], r.of, now));
    }
  }

  lemma RetestTold(st: Store, h: Handle, q: Request, a: Answers, mem: Memory, now: int, max: nat, inactive: int)
    requires q.name in st.index && st.index[q.name] == h && h in st.files && st.files[h].name == q.name
    ensures Told(st, q, a, mem, now, st.files[h].fd, st.files[h].uniq, Retest(st, h, st.files[h], q, a, mem, now, max, inactive))
  {
    var e := st.files[h];
    var of := Of(e.fd, e.uniq, 0, false);
    StatTells(st, of, q.testDir || e.isDir, a);
    var r := OpenAndStat(st, of, q.testDir || e.isDir, a);
    UpdateTold(st, h, q, a, mem, now, e.fd, e.uniq, r);
    if !Refused(r, q) { ReplaceTold(st, h, q, a, mem, now, max, inactive, r); }
  }

  lemma ReplaceTold(st: Store, h: Handle, q: Request, a: Answers, mem: Memory, now: int, max: nat, inactive: int, r: Stat)
    requires q.name in st.index && st.index[q.name] == h && h in st.files && st.files[h].name == q.name
    requires Asked(a, st.files[h].fd, st.files[h].uniq, r) && !Refused(r, q)
    requires r.st.index == st.index && r.st.files == st.files && r.st.fds <= st.fds + {a.fd}
    ensures Told(st, q, a, mem, now, st.files[h].fd, st.files[h].uniq, Replace(r.st, h, st.files[h], r.of, mem, now, max, inactive))
  {
    var e := st.files[h];
    var o := Replace(r.st, h, e, r.of, mem, now, max, inactive);
    if e.count == 0 {
      UpdateKept(CloseFd(r.st, h), h, e, r.of, now, q.name);
    } else {
      CreateKept(Detach(r.st, h), q.name, r.of, mem, now, max, inactive);
    }
    KeptTold(st, q, a, mem, now, e.fd, e.uniq, r, o);
  }

  /** What the cache had open for the name, and its identity. */
  function Had(st: Store, q: Request): (int, int) {
    if q.name in st.index && st.index[q.name] in st.files then
      var e := st.files[st.index[q.name]];
      (e.fd, if e.fd == INVALID && e.err == 0 && !e.isDir then q.uniq else e.uniq)
    else (INVALID, q.uniq)
  }

  /** Otherwise the system is asked and the caller told what it says: a file, a directory
      or an error.  Only shortage of memory keeps an answer back.  The cache then remembers
      what was told, an error only for callers that want errors kept. */
  lemma AskedAnswer(st: Store, q: Request, a: Answers, mem: Memory, now: int, max: nat, inactive: int)
    requires Ok(st, {}, {}, {}) && !Remembered(st, q, now)
    ensures Told(st, q, a, mem, now, Had(st, q).0, Had(st, q).1, Open(st, q, a, mem, now, max, inactive))
  {
    if q.name !in st.index {
      NewTold(st, q, a, mem, now, max, inactive);
    } else {
      var h := st.index[q.name];
      NameFacts(st, q.name, {});
      KnownTold(Taken(st, h), h, q, a, mem, now, max, inactive);
    }
  }

  /** What a caller was told just now is told again, without asking, for as long as the next
      caller allows. */
  lemma ToldAgain(st: Store, q: Request, a: Answers, mem: Memory, now: int,
                  q': Request, a': Answers, mem': Memory, now': int, max: nat, inactive: int)
    requires Ok(st, {}, {}, {}) && !Remembered(st, q, now)
    requires var r := Open(st, q, a, mem, now, max, inactive);
      && Ok(r.st, {}, {}, {}) && (r.ok || (q.name in r.st.index && r.of.err != 0)) && (r.ok ==> r.of.fd != INVALID || r.of.isDir)
      && q'.name == q.name && now' - now < q'.valid && (q'.uniq == 0 || (r.ok && q'.uniq == r.of.uniq))
    ensures var r := Open(st, q, a, mem, now, max, inactive);
      var r' := Open(r.st, q', a', mem', now', max, inactive);
      && r'.ok == r.ok && r'.of.err == r.of.err && (r.ok ==> r'.of == r.of)
      && r'.handle == r.handle && r'.st.fds == r.st.fds && r'.st.index == r.st.index
  {
    var r := Open(st, q, a, mem, now, max, inactive);
    AskedAnswer(st, q, a, mem, now, max, inactive);
    RememberedAnswer(r.st, q', a', mem', now', max, inactive);
  }

  // ----- what becomes of an entry after its use -----

  /** The books with one use less. */
  function OneUseLess(st: Store, h: Handle): Store
    requires h in st.files && st.files[h].count > 0
  {
    st.(files := st.files[h := st.files[h].(count := st.files[h].count - 1)], users := st.users - multiset{h})
  }

  lemma UserEntry(st: Store, h: Handle, minUses: nat, now: int)
    requires Ok(st, {}, {}, {}) && h in st.users && h in st.files
    ensures st.files[h].count > 0 && st.files[h].fd != INVALID && st.files[h].close == !Indexed(st, h)
    ensures Released(st, h, minUses, now) == CloseCached(OneUseLess(st, h), h, minUses, now)
  {
    EntryFacts(st, h, {}, {}, {});
  }

  /** A use of an indexed entry ends: it becomes the most recently used, and gives its
      descriptor back if nobody else uses it and it was asked for too seldom.  Nothing
      happens to any other entry. */
  lemma IndexedUseEnds(st: Store, h: Handle, minUses: nat, now: int)
    requires Ok(st, {}, {}, {}) && h in st.users && h in st.files && Indexed(st, h)
    ensures var st', e := Released(st, h, minUses, now), st.files[h];
      var stays := e.uses >= minUses || e.count > 1;
      && e.count > 0 && st'.index == st.index && st'.users == st.users - multiset{h}
      && st'.files == st.files[h := e.(count := e.count - 1, accessed := now, fd := if stays then e.fd else INVALID)]
      && st'.queue == [h] + Without(st.queue, h) && st'.fds == (if stays then st.fds else st.fds - {e.fd})
  {
    UserEntry(st, h, minUses, now);
    IndexedEnded(OneUseLess(st, h), h, minUses, now);
  }

  /** A use of a detached entry ends: it goes with its last user, and its descriptor is
      closed then. */
  lemma DetachedUseEnds(st: Store, h: Handle, minUses: nat, now: int)
    requires Ok(st, {}, {}, {}) && h in st.users && h in st.files && !Indexed(st, h)
    ensures var st', e := Released(st, h, minUses, now), st.files[h];
      && e.count > 0 && st'.index == st.index && st'.users == st.users - multiset{h} && st'.queue == st.queue
      && (if e.count > 1 then st'.files == st.files[h := e.(count := e.count - 1)] && st'.fds == st.fds
          else st'.files == st.files - {h} && st'.fds == st.fds - {e.fd})
  {
    UserEntry(st, h, minUses, now);
    DetachedEnded(OneUseLess(st, h), h, minUses, now);
    assert OneUseLess(st, h).files - {h} == st.files - {h};
  }

  lemma IndexedEnded(st: Store, h: Handle, minUses: nat, now: int)
    requires h in st.files && !st.files[h].close && st.files[h].fd != INVALID
    ensures var st', e := CloseCached(st, h, minUses, now), st.files[h];
      var stays := e.uses >= minUses || e.count > 0;
      && st'.index == st.index && st'.users == st.users
      && st'.files == st.files[h := e.(accessed := now, fd := if stays then e.fd else INVALID)]
      && st'.queue == [h] + Without(st.queue, h) && st'.fds == (if stays then st.fds else st.fds - {e.fd})
  {
  }

  lemma DetachedEnded(st: Store, h: Handle, minUses: nat, now: int)
    requires h in st.files && st.files[h].close && st.files[h].fd != INVALID
    ensures var st', e := CloseCached(st, h, minUses, now), st.files[h];
      && st'.index == st.index && st'.users == st.users && st'.queue == st.queue
      && (if e.count > 0 then st'.files == st.files && st'.fds == st.fds
          else st'.files == st.files - {h} && st'.fds == st.fds - {e.fd})
  {
  }

  /** Eviction goes on while the least recently used entry is idle, up to its limit. */
  lemma {:induction false} ExpireStops(st: Store, n: nat, now: int, inactive: int, loose: set<int>)
    requires Ok(st, {}, loose, {}) && n <= 3
    ensures Stopped(st, Expire(st, n, now, inactive), n, now, inactive)
    decreases 3 - n
  {
    if n < 3 && st.queue != [] {
      EvictOk(st, now, loose);
      if n == 0 || now - st.files[st.queue[|st.queue| - 1]].accessed > inactive {
        ExpireStops(Evict(st, now), n + 1, now, inactive, loose);
        EvictedStops(st, Evict(st, now), n, now, inactive, loose);
      }
    }
  }

  lemma EvictedStops(st: Store, mid: Store, n: nat, now: int, inactive: int, loose: set<int>)
    requires st.queue != [] && |mid.queue| == |st.queue| - 1 && n < 3 && Ok(mid, {}, loose, {})
    requires Stopped(mid, Expire(mid, n + 1, now, inactive), n + 1, now, inactive)
    ensures Stopped(st, Expire(mid, n + 1, now, inactive), n, now, inactive)
  {
    ExpireKeeps(mid, n + 1, now, inactive, loose);
    StoppedLater(st, mid, Expire(mid, n + 1, now, inactive), n, now, inactive);
  }

  /** Nothing is left, the limit of the call is reached, or the oldest entry left is not idle
      and, with n == 0, one was forced out. */
  predicate Stopped(st: Store, st': Store, n: nat, now: int, inactive: int) {
    || st'.queue == []
    || |st.queue| - |st'.queue| == 3 - n
    || (var last := st'.queue[|st'.queue| - 1];
        last in st'.files && now - st'.files[last].accessed <= inactive && (n == 0 ==> |st'.queue| < |st.queue|))
  }

  lemma StoppedLater(st: Store, mid: Store, st': Store, n: nat, now: int, inactive: int)
    requires st.queue != [] && |mid.queue| == |st.queue| - 1 && |st'.queue| <= |mid.queue| && Stopped(mid, st', n + 1, now, inactive)
    ensures Stopped(st, st', n, now, inactive)
  {
  }
}
