/** nginx/src/core/ngx_open_file_cache.c: the cache itself, updated in place.  Each method
    does to the fields what its function in FileOps and FileOpen does to the books. */
module FileCache {
  import opened Lists
  import opened FileStore
  import opened FileOps
  import opened FileOpen
  import opened FileSafety

  class OpenFileCache {
    var files: map<Handle, File>
    var index: map<Name, Handle>
    var queue: seq<Handle>
    var current: int
    const max: nat
    const inactive: int
    ghost var fds: set<int>              // what the operating system has open for the cache
    ghost var users: multiset<Handle>    // the requests that hold entries
    ghost var clock: int
    ghost var sound: bool

    /** ngx_open_file_cache_init */
    constructor (max: nat, inactive: int, ghost now: int)
      ensures Valid() && Books() == Empty(now) && this.max == max && this.inactive == inactive
    {
      files, index, queue, current := map[], map[], [], 0;
      this.max, this.inactive := max, inactive;
      fds, users, clock, sound := {}, multiset{}, now, true;
      new;
      Seals(Empty(now), {}, {}, {});
    }

    ghost function Books(): Store
      reads this
    {
      Store(files, index, queue, current, fds, users, clock, sound)
    }

    ghost predicate Valid()
      reads this
    {
      InOrder(Books(), max)
    }

    /** ngx_close_file; `idle` says that nobody uses the descriptor. */
    method CloseFile(fd: int, ghost idle: bool)
      modifies `fds, `sound
      ensures fds == old(fds) - {fd} && sound == (old(sound) && fd in old(fds) && idle)
    {
      sound := sound && fd in fds && idle;
      fds := fds - {fd};
    }

    /** ngx_close_cached_file */
    method CloseCachedFile(h: Handle, minUses: nat, now: int)
      requires h in files
      modifies this
      ensures Books() == CloseCached(old(Books()), h, minUses, now)
    {
      if !files[h].close {
        files := files[h := files[h].(accessed := now)];
        queue := [h] + Without(queue, h);
        clock := now;
        if files[h].uses >= minUses || files[h].count > 0 { return; }
      }
      if files[h].count > 0 { return; }
      if files[h].fd != INVALID {
        CloseFile(files[h].fd, files[h].count == 0);
        files := files[h := files[h].(fd := INVALID)];
      }
      if !files[h].close { return; }
      files := files - {h};
      assert files == old(files) - {h};
    }

    /** ngx_expire_old_cached_files */
    method ExpireOld(n0: nat, now: int, ghost loose: set<int>)
      requires Ok(Books(), {}, loose, {})
      modifies this
      ensures Books() == Expire(old(Books()), n0, now, inactive) && Ok(Books(), {}, loose, {})
    {
      var n := n0;
      ghost var end := Expire(Books(), n0, now, inactive);
      while n < 3
        invariant Ok(Books(), {}, loose, {}) && Expire(Books(), n, now, inactive) == end
        decreases if n < 3 then 3 - n else 0
      {
        if queue == [] { return; }
        EvictOk(Books(), now, loose);
        var h := queue[|queue| - 1];
        if n != 0 && now - files[h].accessed <= inactive { return; }
        n := n + 1;
        EvictLast(h, now);
      }
    }

    /** The body of that loop. */
    method EvictLast(h: Handle, now: int)
      requires queue != [] && h == queue[|queue| - 1] && h in files
      modifies this
      ensures Books() == Evict(old(Books()), now)
    {
      queue := queue[..|queue| - 1];
      index := index - {files[h].name};
      current := current - 1;
      if files[h].err == 0 && !files[h].isDir {
        files := files[h := files[h].(close := true)];
        CloseCachedFile(h, 0, now);
      } else {
        files := files - {h};
      }
    }

    /** ngx_open_file_cleanup */
    method CleanupUse(h: Handle, minUses: nat, now: int)
      requires Valid() && h in users && clock <= now
      modifies this
      ensures Valid() && Books() == Cleanup(old(Books()), h, minUses, now, inactive)
    {
      ghost var st := Books();
      CleanupReady(st, h, minUses, now);
      EndUse(h, minUses, now);
      ExpireOld(1, now, {});
    }

    lemma CleanupReady(st: Store, h: Handle, minUses: nat, now: int)
      requires InOrder(st, max) && h in st.users && st.clock <= now
      ensures h in st.files && st.files[h].count > 0 && Ok(Released(st, h, minUses, now), {}, {}, {})
      ensures InOrder(Cleanup(st, h, minUses, now, inactive), max)
    {
      ReleasedOk(st, h, minUses, now);
      CleanupOk(st, h, minUses, now, inactive);
    }

    /** Its first half. */
    method EndUse(h: Handle, minUses: nat, now: int)
      requires h in files && files[h].count > 0 && h in users
      modifies this
      ensures Books() == Released(old(Books()), h, minUses, now)
    {
      files := files[h := files[h].(count := files[h].count - 1)];
      users := users - multiset{h};
      CloseCachedFile(h, minUses, now);
    }
  
    // ----- ngx_open_cached_file -----

    /** ngx_open_and_stat_file */
    method StatFile(of0: Of, testDir: bool, a: Answers) returns (of: Of, ok: bool)
      modifies `fds, `sound
      ensures var r := OpenAndStat(old(Books()), of0, testDir, a); Books() == r.st && of == r.of && ok == r.ok
    {
      of := of0;
      if of.fd != INVALID {
        if a.byName.None? { return of.(fd := INVALID, err := a.nameErr), false; }
        if of.uniq == a.byName.value.uniq {
          return of.(uniq := a.byName.value.uniq, isDir := a.byName.value.isDir), true;
        }
      } else if testDir {
        if a.byName.None? { return of.(fd := INVALID, err := a.nameErr), false; }
        if a.byName.value.isDir {
          return of.(uniq := a.byName.value.uniq, isDir := true), true;
        }
      }
      if a.fd == INVALID { return of.(fd := INVALID, err := a.openErr), false; }
      fds := fds + {a.fd};
      if a.byFd.None? {
        CloseFile(a.fd, NotHeld(Books(), a.fd));
        return of.(fd := INVALID), false;
      }
      if a.byFd.value.isDir {
        CloseFile(a.fd, NotHeld(Books(), a.fd));
        of := of.(fd := INVALID);
      } else {
        of := of.(fd := a.fd);
      }
      return of.(uniq := a.byFd.value.uniq, isDir := a.byFd.value.isDir), true;
    }

    /** The labels `update` (when `fill`) and `found`. */
    method Finish(h: Handle, of: Of, fill: bool, now: int) returns (ok: bool)
      requires h in files
      modifies this
      ensures Outcome(Books(), of, ok, h) == (if fill then Update(old(Books()), h, old(files)[h], of, now)
                                              else Found(old(Books()), h, old(files)[h], of, now))
    {
      var f := files[h];
      if fill {
        f := f.(fd := of.fd, err := of.err);
        if of.err == 0 {
          f := f.(uniq := of.uniq, close := false, isDir := of.isDir);
          if !of.isDir { f := f.(count := f.count + 1); }
        }
        f := f.(created := now);
      }
      f := f.(accessed := now);
      files := files[h := f];
      queue := [h] + queue;
      clock := now;
      if of.err == 0 && !of.isDir { users := users + multiset{h}; }
      ok := of.err == 0;
    }

    /** The label `failed`, without an entry. */
    method Refuse(of: Of)
      modifies `fds, `sound
      ensures Books() == GiveUp(old(Books()), of).st
    {
      if of.fd != INVALID { CloseFile(of.fd, NotHeld(Books(), of.fd)); }
    }

    /** The label `failed`, with one. */
    method Drop(h: Handle, of: Of)
      requires h in files
      modifies this
      ensures Books() == Fail(old(Books()), h, of).st
    {
      index := index - {files[h].name};
      current := current - 1;
      if files[h].count == 0 {
        if files[h].fd != INVALID { CloseFile(files[h].fd, files[h].count == 0); }
        files := files - {h};
      } else {
        files := files[h := files[h].(close := true)];
      }
      Refuse(of);
    }

    /** The label `create`. */
    method CreateEntry(name: Name, of: Of, mem: Memory, now: int, ghost loose: set<int>) returns (ok: bool, h: Handle)
      requires Ok(Books(), {}, loose, {})
      modifies this
      ensures Outcome(Books(), of, ok, h) == Create(old(Books()), name, of, mem, now, max, inactive)
    {
      if current >= max { ExpireOld(0, now, loose); }
      ok, h := NewEntry(name, of, mem, now);
    }

    method NewEntry(name: Name, of: Of, mem: Memory, now: int) returns (ok: bool, h: Handle)
      modifies this
      ensures Outcome(Books(), of, ok, h) == Enter(old(Books()), name, of, mem, now)
    {
      if mem.Nothing? || mem.handle in files {
        Refuse(of);
        return false, 0;
      }
      h := mem.handle;
      ghost var before := files;
      index := index[name := h];
      current := current + 1;
      files := files[h := mem.junk.(name := name, uses := 1, count := 0)];
      ok := Finish(h, of, true, now);
      assert files == before[h := files[h]];
    }

    /** What is open is no longer what the name means. */
    method ReplaceEntry(h: Handle, of: Of, mem: Memory, now: int, ghost loose: set<int>) returns (ok: bool, h': Handle)
      requires Ok(Books(), {h}, loose, {}) && h in files
      modifies this
      ensures Outcome(Books(), of, ok, h') == Replace(old(Books()), h, old(files)[h], of, mem, now, max, inactive)
    {
      if files[h].count == 0 {
        CloseFile(files[h].fd, files[h].count == 0);
        ok := Finish(h, of, true, now);
        return ok, h;
      }
      ghost var st := Books();
      var name := files[h].name;
      index := index - {name};
      current := current - 1;
      files := files[h := files[h].(close := true)];
      Detached(st, Books(), h, loose);
      NotDoomed(Books(), h, loose);
      assert Books() == Detach(st, h);
      ok, h' := CreateEntry(name, of, mem, now, loose);
    }

    /** The retest of an entry that is not fresh. */
    method RetestEntry(h: Handle, q: Request, a: Answers, mem: Memory, now: int) returns (of: Of, ok: bool, h': Handle)
      requires Ok(Books(), {h}, {}, {}) && h in files && AnswersOk(Books(), a)
      requires files[h].fd != INVALID || files[h].err != 0 || files[h].isDir
      modifies this
      ensures Outcome(Books(), of, ok, h') == Retest(old(Books()), h, old(files)[h], q, a, mem, now, max, inactive)
    {
      var f := files[h];
      EntryFacts(Books(), h, {h}, {}, {});
      if f.fd != INVALID { RestatAny(Books(), h, q.testDir || f.isDir, a); }
      of, ok := StatFile(Of(f.fd, f.uniq, 0, false), q.testDir || f.isDir, a);
      if !ok && (of.err == 0 || !q.errors) {
        Drop(h, of);
        return of, false, 0;
      }
      if f.isDir || f.err != 0 || (!of.isDir && of.err == 0 && of.uniq == f.uniq) {
        ok := Finish(h, of, true, now);
        return of, ok, h;
      }
      ok, h' := ReplaceEntry(h, of, mem, now, if Contradictory(f, a) then {} else Loose(of.fd));
    }

    /** An entry that was found by its name. */
    method ReopenEntry(h: Handle, q: Request, a: Answers, mem: Memory, now: int) returns (of: Of, ok: bool, h': Handle)
      requires Ok(Books(), {h}, {}, {}) && h in files && AnswersOk(Books(), a)
      modifies this
      ensures Outcome(Books(), of, ok, h') == Reopen(old(Books()), h, q, a, mem, now, max, inactive)
    {
      var f := files[h];
      of := Of(INVALID, q.uniq, 0, false);
      if f.fd == INVALID && f.err == 0 && !f.isDir {
        of, ok := StatFile(of, q.testDir, a);
        if !ok && (of.err == 0 || !q.errors) {
          Drop(h, of);
          return of, false, 0;
        }
        ok := Finish(h, of, true, now);
        return of, ok, h;
      }
      if (q.uniq == 0 || q.uniq == f.uniq) && now - f.created < q.valid {
        if f.err == 0 {
          of := Of(f.fd, f.uniq, 0, f.isDir);
          if !f.isDir { files := files[h := f.(count := f.count + 1)]; }
        } else {
          of := of.(err := f.err);
        }
        ok := Finish(h, of, false, now);
        return of, ok, h;
      }
      of, ok, h' := RetestEntry(h, q, a, mem, now);
    }

    /** ngx_open_cached_file, whatever the system answers. */
    method OpenCachedFile(q: Request, a: Answers, mem: Memory, now: int) returns (of: Of, ok: bool, h: Handle)
      requires Valid() && AnswersOk(Books(), a) && clock <= now
      modifies this
      ensures Outcome(Books(), of, ok, h) == Open(old(Books()), q, a, mem, now, max, inactive)
      ensures Valid() <==> !Confused(old(Books()), q, a, now)
      ensures Valid() ==> Good(old(Books()), Outcome(Books(), of, ok, h), q.name, max)
    {
      ghost var st := Books();
      OpenSafe(st, q, a, mem, now, max, inactive);
      if !Confused(st, q, a, now) { OpenGood(st, q, a, mem, now, max, inactive); }
      if q.name in index {
        of, ok, h := OpenKnown(q, a, mem, now);
      } else {
        of, ok, h := OpenNew(q, a, mem, now);
      }
    }

    /** A name that is in the cache. */
    method OpenKnown(q: Request, a: Answers, mem: Memory, now: int) returns (of: Of, ok: bool, h: Handle)
      requires Ok(Books(), {}, {}, {}) && AnswersOk(Books(), a) && q.name in index
      modifies this
      ensures Outcome(Books(), of, ok, h) == Open(old(Books()), q, a, mem, now, max, inactive)
    {
      ghost var st := Books();
      NameFacts(st, q.name, {});
      h := index[q.name];
      TakenOk(st, h);
      files := files[h := files[h].(uses := files[h].uses + 1)];
      queue := Without(queue, h);
      assert Books() == Taken(st, h);
      of, ok, h := ReopenEntry(h, q, a, mem, now);
    }

    /** A name that is not in the cache. */
    method OpenNew(q: Request, a: Answers, mem: Memory, now: int) returns (of: Of, ok: bool, h: Handle)
      requires Ok(Books(), {}, {}, {}) && AnswersOk(Books(), a) && q.name !in index
      modifies this
      ensures Outcome(Books(), of, ok, h) == Open(old(Books()), q, a, mem, now, max, inactive)
    {
      StatGood(Books(), Of(INVALID, q.uniq, 0, false), q.testDir, a, {});
      of, ok := StatFile(Of(INVALID, q.uniq, 0, false), q.testDir, a);
      if !ok && (of.err == 0 || !q.errors) {
        Refuse(of);
        return of, false, 0;
      }
      ok, h := CreateEntry(q.name, of, mem, now, Loose(of.fd));
    }
  }
}
