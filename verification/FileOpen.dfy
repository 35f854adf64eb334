/** ngx_open_cached_file and ngx_open_and_stat_file of
    nginx/src/core/ngx_open_file_cache.c.  What the operating system answers and
    whether memory can be had are parameters. */
module FileOpen {
  import opened Lists
  import opened FileStore
  import opened FileOps

  datatype Option<T> = None | Some(value: T)

  /** The part of ngx_open_file_info_t that the call fills in. */
  datatype Of = Of(fd: int, uniq: int, err: int, isDir: bool)

  /** What the caller asks for. */
  datatype Request = Request(name: Name, uniq: int, valid: int, testDir: bool, errors: bool)

  datatype Info = Info(uniq: int, isDir: bool)

  /** stat by name, open, and fstat of what was opened. */
  datatype Answers = Answers(byName: Option<Info>, nameErr: int, fd: int, openErr: int, byFd: Option<Info>)

  /** The address ngx_alloc gives for a new entry and what that memory happens to hold,
      or nothing when memory for the entry or its name is short. */
  datatype Memory = Nothing | Room(handle: Handle, junk: File)

  /** A failing call has an error number, and a new descriptor is not already open. */
  predicate AnswersOk(st: Store, a: Answers) {
    a.nameErr != 0 && a.openErr != 0 && a.fd !in st.fds
  }

  predicate NotHeld(st: Store, d: int) { forall h <- st.files :: st.files[h].fd != d }

  function OpenFd(st: Store, d: int): Store { st.(fds := st.fds + {d}) }

  /** ngx_close_file on a descriptor that no entry holds. */
  function CloseLoose(st: Store, d: int): Store {
    st.(fds := st.fds - {d}, sound := st.sound && d in st.fds && NotHeld(st, d))
  }

  datatype Stat = Stat(st: Store, of: Of, ok: bool)

  function Opening(st: Store, of: Of, a: Answers): Stat {
    if a.fd == INVALID then Stat(st, of.(fd := INVALID, err := a.openErr), false)
    else
      var st1 := OpenFd(st, a.fd);
      match a.byFd
      case None => Stat(CloseLoose(st1, a.fd), of.(fd := INVALID), false)
      case Some(fi) =>
        if fi.isDir then Stat(CloseLoose(st1, a.fd), Of(INVALID, fi.uniq, of.err, fi.isDir), true)
        else Stat(st1, Of(a.fd, fi.uniq, of.err, fi.isDir), true)
  }

  /** ngx_open_and_stat_file */
  function OpenAndStat(st: Store, of: Of, testDir: bool, a: Answers): Stat {
    if of.fd == INVALID && !testDir then Opening(st, of, a)
    else
      match a.byName
      case None => Stat(st, of.(fd := INVALID, err := a.nameErr), false)
      case Some(fi) =>
        if (if of.fd != INVALID then of.uniq == fi.uniq else fi.isDir) then
          Stat(st, of.(uniq := fi.uniq, isDir := fi.isDir), true)
        else Opening(st, of, a)
  }

  /** The descriptor it returns is the one it was given, or none, or a new one that no
      entry holds yet; it opens and closes nothing else. */
  lemma StatOutcome(st: Store, of: Of, testDir: bool, a: Answers, out: set<Handle>)
    requires Ok(st, out, {}, {}) && AnswersOk(st, a) && of.err == 0 && !of.isDir && (of.fd != INVALID ==> of.fd in st.fds)
    ensures var r := OpenAndStat(st, of, testDir, a);
      && (r.ok ==> r.of.err == 0) && (!r.ok ==> r.of.fd == INVALID && !r.of.isDir)
      && (r.of.fd == of.fd != INVALID ==> r.of.uniq == of.uniq && r.st == st && a.byName == Some(Info(r.of.uniq, r.of.isDir)))
      && (r.of.fd != of.fd && r.of.fd != INVALID ==> r.st == st.(fds := st.fds + {r.of.fd}) && r.of.fd !in st.fds && !r.of.isDir)
      && (r.of.fd == INVALID ==> r.st == st)
  {
    OkFds(st, out, {}, {});
    assert a.fd != INVALID ==> NotHeld(st, a.fd) && st.fds + {a.fd} - {a.fd} == st.fds;
    assert st.sound by { Seals(st, out, {}, {}); }
  }

  // ----- ngx_open_cached_file -----

  datatype Outcome = Outcome(st: Store, of: Of, ok: bool, handle: Handle)

  /** The request gets to use the entry. */
  predicate Granted(r: Outcome) { r.ok && !r.of.isDir }

  /** From the label `found`. */
  function Found(st: Store, h: Handle, f: File, of: Of, now: int): Outcome {
    Outcome(st.(files := st.files[h := f.(accessed := now)], queue := [h] + st.queue, clock := now,
                users := if of.err == 0 && !of.isDir then st.users + multiset{h} else st.users),
            of, of.err == 0, h)
  }

  /** From the label `update`. */
  function Update(st: Store, h: Handle, f: File, of: Of, now: int): Outcome {
    var f1 := f.(fd := of.fd, err := of.err, created := now);
    Found(st, h,
          if of.err != 0 then f1
          else f1.(uniq := of.uniq, close := false, isDir := of.isDir, count := if of.isDir then f.count else f.count + 1),
          of, now)
  }

  /** From the label `failed`, when there is no entry. */
  function GiveUp(st: Store, of: Of): Outcome {
    Outcome(if of.fd == INVALID then st else CloseLoose(st, of.fd), of, false, 0)
  }

  /** From the label `failed`. */
  function Fail(st: Store, h: Handle, of: Of): Outcome
    requires h in st.files
  {
    var f := st.files[h];
    var st1 := st.(index := st.index - {f.name}, current := st.current - 1);
    GiveUp(if f.count > 0 then st1.(files := st.files[h := f.(close := true)])
           else if f.fd == INVALID then st1.(files := st.files - {h})
           else CloseFd(st1, h).(files := st.files - {h}),
           of)
  }

  /** From the label `create`.  An address that is still in use is never given out. */
  function Create(st: Store, name: Name, of: Of, mem: Memory, now: int, max: nat, inactive: int): Outcome {
    Enter(if st.current >= max then Expire(st, 0, now, inactive) else st, name, of, mem, now)
  }

  function Enter(st: Store, name: Name, of: Of, mem: Memory, now: int): Outcome {
    if mem.Nothing? || mem.handle in st.files then GiveUp(st, of)
    else
      var f := mem.junk.(name := name, uses := 1, count := 0);
      Update(st.(index := st.index[name := mem.handle], current := st.current + 1), mem.handle, f, of, now)
  }

  predicate Refused(r: Stat, q: Request) { !r.ok && (r.of.err == 0 || !q.errors) }

  predicate Fresh(f: File, q: Request, now: int) {
    (q.uniq == 0 || q.uniq == f.uniq) && now - f.created < q.valid
  }

  /** ngx_open_cached_file with a cache */
  function Open(st: Store, q: Request, a: Answers, mem: Memory, now: int, max: nat, inactive: int): Outcome {
    var of := Of(INVALID, q.uniq, 0, false);
    if q.name !in st.index || st.index[q.name] !in st.files then
      var r := OpenAndStat(st, of, q.testDir, a);
      if Refused(r, q) then GiveUp(r.st, r.of) else Create(r.st, q.name, r.of, mem, now, max, inactive)
    else
      var h := st.index[q.name];
      Reopen(Taken(st, h), h, q, a, mem, now, max, inactive)
  }

  /** An entry found by its name is taken off the queue and its use counted. */
  function Taken(st: Store, h: Handle): Store
    requires h in st.files
  {
    st.(queue := Without(st.queue, h), files := st.files[h := st.files[h].(uses := st.files[h].uses + 1)])
  }

  function Reopen(st: Store, h: Handle, q: Request, a: Answers, mem: Memory, now: int, max: nat, inactive: int): Outcome
    requires h in st.files
  {
    var of := Of(INVALID, q.uniq, 0, false);
    var f := st.files[h];
    if f.fd == INVALID && f.err == 0 && !f.isDir then
      var r := OpenAndStat(st, of, q.testDir, a);
      if Refused(r, q) then Fail(r.st, h, r.of) else Update(r.st, h, f, r.of, now)
    else if Fresh(f, q, now) then Hit(st, h, f, of, now)
    else Retest(st, h, f, q, a, mem, now, max, inactive)
  }

  function Hit(st: Store, h: Handle, f: File, of: Of, now: int): Outcome {
    if f.err != 0 then Found(st, h, f, of.(err := f.err), now)
    else if f.isDir then Found(st, h, f, Of(f.fd, f.uniq, 0, true), now)
    else Found(st, h, f.(count := f.count + 1), Of(f.fd, f.uniq, 0, false), now)
  }

  function Retest(st: Store, h: Handle, f: File, q: Request, a: Answers, mem: Memory, now: int, max: nat, inactive: int): Outcome
    requires h in st.files && st.files[h] == f
  {
    var r := OpenAndStat(st, Of(f.fd, f.uniq, 0, false), q.testDir || f.isDir, a);
    if Refused(r, q) then Fail(r.st, h, r.of)
    else if f.isDir || f.err != 0 then Update(r.st, h, f, r.of, now)
    else if !r.of.isDir && r.of.err == 0 && r.of.uniq == f.uniq then Update(r.st, h, f, r.of, now)
    else Replace(r.st, h, f, r.of, mem, now, max, inactive)
  }

  /** What is open is no longer what the name means. */
  function Replace(st: Store, h: Handle, f: File, of: Of, mem: Memory, now: int, max: nat, inactive: int): Outcome
    requires h in st.files && st.files[h] == f
  {
    if f.count == 0 then Update(CloseFd(st, h), h, f, of, now)
    else Create(Detach(st, h), f.name, of, mem, now, max, inactive)
  }

  function Detach(st: Store, h: Handle): Store
    requires h in st.files
  {
    st.(index := st.index - {st.files[h].name}, current := st.current - 1, files := st.files[h := st.files[h].(close := true)])
  }
}
