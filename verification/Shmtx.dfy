/** nginx/src/core/ngx_shmtx.c: the shared-memory mutex, in the atomic-operations
    build.  Any number of processes interleave at every read, compare-and-set,
    fetch-and-add and semaphore operation on the shared words. */
module Shmtx {

  /** Where a process is.  The process with index i has pid i + 1. */
  datatype Pc =
    | Idle
    | TryRead | TryCas                          // ngx_shmtx_trylock
    | LockRead(left: nat) | LockCas(left: nat)  // the tests before waiting, `left` spin rounds to go
    | Enlist                                    // about to add one to the wait counter
    | LastRead | LastCas                        // the test after that
    | Parked                                    // in sem_wait
    | Owner
    | UnlockCas(held: bool)                     // `held` records whether the caller owns the lock
    | ForceCas(victim: nat)                     // ngx_shmtx_force_unlock
    | WakeRead | WakeCas(seen: nat) | Post      // ngx_shmtx_wakeup
    | Dead                                      // died while owning the lock

  /** `rounds` is how often the spin loop of ngx_shmtx_lock tests the lock; without a
      semaphore a failed lock attempt yields the processor and starts again. */
  datatype Config = Config(rounds: nat, semaphore: bool)

  /** The words in shared memory. */
  datatype Shared = Shared(lock: nat, wait: nat, sem: nat)

  datatype State = State(sh: Shared, procs: seq<Pc>)

  datatype Action =
    | CallTry | CallLock | CallUnlock | CallForce(victim: nat)
    | Tick        // the next atomic operation of a call in progress
    | SemFails    // sem_wait returns an error other than EINTR
    | Die

  // ----- steps -----

  predicate Enabled(s: State, i: nat, a: Action) {
    && i < |s.procs|
    && match a
       case CallTry => s.procs[i] == Idle
       case CallLock => s.procs[i] == Idle
       case CallUnlock => s.procs[i] == Idle || s.procs[i] == Owner
       case CallForce(v) => s.procs[i] == Idle && v < |s.procs| && s.procs[v] == Dead
       case Tick => CanTick(s.procs[i], s.sh)
       case SemFails => s.procs[i] == Parked
       case Die => s.procs[i] == Owner
  }

  predicate CanTick(pc: Pc, sh: Shared) {
    pc != Idle && pc != Owner && pc != Dead && (pc == Parked ==> sh.sem > 0)
  }

  /** Where a failed test of the lock leads. */
  function AfterTest(c: Config, left: nat): Pc {
    if left > 0 then LockRead(left - 1)
    else if c.semaphore then Enlist
    else LockRead(c.rounds)
  }

  function AfterUnlock(c: Config): Pc {
    if c.semaphore then WakeRead else Idle
  }

  /** One atomic operation of the process with the given pid. */
  function Atomic(c: Config, pid: nat, pc: Pc, sh: Shared): (Pc, Shared)
    requires CanTick(pc, sh)
  {
    match pc
    case TryRead => (if sh.lock == 0 then TryCas else Idle, sh)
    case TryCas => if sh.lock == 0 then (Owner, sh.(lock := pid)) else (Idle, sh)
    case LockRead(left) => (if sh.lock == 0 then LockCas(left) else AfterTest(c, left), sh)
    case LockCas(left) => if sh.lock == 0 then (Owner, sh.(lock := pid)) else (AfterTest(c, left), sh)
    case Enlist => (LastRead, sh.(wait := sh.wait + 1))
    case LastRead => (if sh.lock == 0 then LastCas else Parked, sh)
    case LastCas => if sh.lock == 0 then (Owner, sh.(lock := pid)) else (Parked, sh)
    case Parked => (LockRead(c.rounds), sh.(sem := sh.sem - 1))
    case UnlockCas(_) => if sh.lock == pid then (AfterUnlock(c), sh.(lock := 0)) else (Idle, sh)
    case ForceCas(v) => if sh.lock == v + 1 then (AfterUnlock(c), sh.(lock := 0)) else (Idle, sh)
    case WakeRead => (if sh.wait == 0 then Idle else WakeCas(sh.wait), sh)
    case WakeCas(seen) =>
      if sh.wait == seen && seen > 0 then (Post, sh.(wait := seen - 1)) else (WakeRead, sh)
    case Post => (Idle, sh.(sem := sh.sem + 1))
  }

  /** What an action makes of the process that takes it and of the shared words. */
  function Effect(c: Config, s: State, i: nat, a: Action): (Pc, Shared)
    requires Enabled(s, i, a)
  {
    match a
    case CallTry => (TryRead, s.sh)
    case CallLock => (LockRead(c.rounds), s.sh)
    case CallUnlock => (UnlockCas(s.procs[i] == Owner), s.sh)
    case CallForce(v) => (ForceCas(v), s.sh)
    case Tick => Atomic(c, i + 1, s.procs[i], s.sh)
    case SemFails => (LockRead(c.rounds), s.sh)
    case Die => (Dead, s.sh)
  }

  function Next(c: Config, s: State, i: nat, a: Action): State
    requires Enabled(s, i, a)
  {
    var (pc, sh) := Effect(c, s, i, a);
    State(sh, s.procs[i := pc])
  }

  predicate Init(s: State) {
    s.sh == Shared(0, 0, 0) && forall i :: 0 <= i < |s.procs| ==> s.procs[i] == Idle
  }

  // ----- counting processes -----

  function Sum(f: Pc -> nat, ps: seq<Pc>): nat {
    if ps == [] then 0 else f(ps[0]) + Sum(f, ps[1..])
  }

  lemma {:induction false} SumUpdate(f: Pc -> nat, ps: seq<Pc>, i: nat, pc: Pc)
    requires i < |ps|
    ensures Sum(f, ps[i := pc]) + f(ps[i]) == Sum(f, ps) + f(pc)
  {
    if i == 0 {
      assert ps[i := pc][1..] == ps[1..];
    } else {
      SumUpdate(f, ps[1..], i - 1, pc);
      assert ps[i := pc][1..] == ps[1..][i - 1 := pc];
    }
  }

  lemma {:induction false} SumAtLeast(f: Pc -> nat, ps: seq<Pc>, i: nat)
    requires i < |ps|
    ensures Sum(f, ps) >= f(ps[i])
  {
    if i > 0 { SumAtLeast(f, ps[1..], i - 1); }
  }

  lemma {:induction false} SumPositive(f: Pc -> nat, ps: seq<Pc>) returns (i: nat)
    requires Sum(f, ps) > 0
    ensures i < |ps| && f(ps[i]) > 0
  {
    if f(ps[0]) > 0 {
      i := 0;
    } else {
      i := SumPositive(f, ps[1..]);
      i := i + 1;
    }
  }

  lemma {:induction false} SumZero(f: Pc -> nat, ps: seq<Pc>)
    requires forall i :: 0 <= i < |ps| ==> f(ps[i]) == 0
    ensures Sum(f, ps) == 0
  {
    if ps != [] { SumZero(f, ps[1..]); }
  }

  // ----- the invariant -----

  predicate HasLock(pc: Pc) { pc == Owner || pc == UnlockCas(true) }

  /** Counted in the wait counter and not yet awake again. */
  function Enlisted(pc: Pc): nat { if pc == LastRead || pc == LastCas || pc == Parked then 1 else 0 }

  /** Has claimed a waiter and not yet posted. */
  function Claimed(pc: Pc): nat { if pc == Post then 1 else 0 }

  predicate Waking(pc: Pc) { pc == WakeRead || pc.WakeCas? || pc == Post }

  predicate Trying(pc: Pc) {
    pc == TryRead || pc == TryCas || pc.LockRead? || pc.LockCas? || pc == Enlist || pc == LastRead || pc == LastCas
  }

  /** The lock word names exactly the process that has the lock, dead or alive. */
  ghost predicate Ownership(s: State) {
    && s.sh.lock <= |s.procs|
    && (s.sh.lock > 0 ==> HasLock(s.procs[s.sh.lock - 1]) || s.procs[s.sh.lock - 1] == Dead)
    && forall i :: 0 <= i < |s.procs| && HasLock(s.procs[i]) ==> s.sh.lock == i + 1
  }

  /** Nobody sleeps unaccounted for. */
  ghost predicate Accounted(s: State) {
    s.sh.wait + Sum(Claimed, s.procs) + s.sh.sem >= Sum(Enlisted, s.procs)
  }

  ghost predicate SomeoneActs(s: State) {
    s.sh.sem > 0 || exists i :: 0 <= i < |s.procs| && (Waking(s.procs[i]) || Trying(s.procs[i]))
  }

  ghost predicate NoLostWakeup(s: State) {
    s.sh.lock == 0 && Parked in s.procs ==> SomeoneActs(s)
  }

  /** What is known of one process alone; `dead` are the processes that died. */
  ghost predicate Sane(c: Config, s: State, pc: Pc) {
    && (pc.WakeCas? ==> pc.seen > 0)
    && (Enlisted(pc) == 1 || pc == Enlist ==> c.semaphore)
    && (pc.ForceCas? ==> pc.victim < |s.procs| && s.procs[pc.victim] == Dead)
  }

  ghost predicate AllSane(c: Config, s: State) {
    forall i :: 0 <= i < |s.procs| ==> Sane(c, s, s.procs[i])
  }

  ghost predicate Inv(c: Config, s: State) {
    Ownership(s) && Accounted(s) && NoLostWakeup(s) && AllSane(c, s)
  }

  lemma InitInv(c: Config, s: State)
    requires Init(s)
    ensures Inv(c, s)
  {
    SumZero(Enlisted, s.procs);
  }

  /** What one action does to the counts, process by process. */
  lemma LocalCount(c: Config, s: State, i: nat, a: Action)
    requires Enabled(s, i, a) && AllSane(c, s)
    ensures var (pc, sh) := Effect(c, s, i, a);
            s.sh.wait + Claimed(s.procs[i]) + s.sh.sem - Enlisted(s.procs[i]) <= sh.wait + Claimed(pc) + sh.sem - Enlisted(pc)
  {
  }

  lemma AccountedKept(c: Config, s: State, i: nat, a: Action)
    requires Enabled(s, i, a) && AllSane(c, s) && Accounted(s)
    ensures Accounted(Next(c, s, i, a))
  {
    var (pc, sh) := Effect(c, s, i, a);
    LocalCount(c, s, i, a);
    SumUpdate(Claimed, s.procs, i, pc);
    SumUpdate(Enlisted, s.procs, i, pc);
  }

  lemma LocalSane(c: Config, s: State, i: nat, a: Action)
    requires Enabled(s, i, a) && AllSane(c, s)
    ensures Sane(c, s, Effect(c, s, i, a).0) && s.procs[i] != Dead
  {
    assert Sane(c, s, s.procs[i]);
  }

  lemma SaneKept(c: Config, s: State, i: nat, a: Action)
    requires Enabled(s, i, a) && AllSane(c, s)
    ensures AllSane(c, Next(c, s, i, a))
  {
    LocalSane(c, s, i, a);
  }

  lemma LocalLock(c: Config, s: State, i: nat, a: Action)
    requires Enabled(s, i, a) && Ownership(s) && AllSane(c, s)
    ensures var (pc, sh) := Effect(c, s, i, a);
            || (sh.lock == s.sh.lock && (HasLock(pc) || pc == Dead <==> HasLock(s.procs[i])))
            || (s.sh.lock == 0 && sh.lock == i + 1 && HasLock(pc))
            || (sh.lock == 0 && !HasLock(pc)
                && (s.sh.lock == i + 1 || (s.procs[i].ForceCas? && s.sh.lock == s.procs[i].victim + 1)))
  {
    assert Sane(c, s, s.procs[i]);
  }

  lemma OwnershipKept(c: Config, s: State, i: nat, a: Action)
    requires Enabled(s, i, a) && Ownership(s) && AllSane(c, s)
    ensures Ownership(Next(c, s, i, a))
  {
    LocalLock(c, s, i, a);
    assert Sane(c, s, s.procs[i]);
  }

  /** The one delicate step: a waker that finds nobody counted may leave. */
  lemma NobodyCounted(s: State)
    requires Accounted(s) && s.sh.wait == 0 && Parked in s.procs
    ensures s.sh.sem > 0 || exists i :: 0 <= i < |s.procs| && s.procs[i] == Post
  {
    var k :| 0 <= k < |s.procs| && s.procs[k] == Parked;
    SumAtLeast(Enlisted, s.procs, k);
    if s.sh.sem == 0 {
      var j := SumPositive(Claimed, s.procs);
    }
  }

  /** When the lock is free after an action: the process that acted still acts, or a
      semaphore post is there, or it touched nothing a sleeper depends on. */
  lemma LocalWake(c: Config, s: State, i: nat, a: Action)
    requires Enabled(s, i, a) && AllSane(c, s) && c.semaphore
    ensures var (pc, sh) := Effect(c, s, i, a);
            sh.lock == 0 ==>
            || Waking(pc) || Trying(pc) || sh.sem > 0
            || (s.sh.lock == 0 && sh.sem == s.sh.sem && pc != Parked
                && !Waking(s.procs[i]) && !Trying(s.procs[i]))
            || (s.procs[i] == WakeRead && s.sh.wait == 0 && s.sh.lock == 0 && sh == s.sh && pc == Idle)
  {
  }

  lemma NoLostWakeupKept(c: Config, s: State, i: nat, a: Action)
    requires Enabled(s, i, a) && Inv(c, s)
    ensures NoLostWakeup(Next(c, s, i, a))
  {
    var s' := Next(c, s, i, a);
    if s'.sh.lock == 0 && Parked in s'.procs {
      SaneKept(c, s, i, a);
      LocalWake(c, s, i, a);
      var pc, sh := s'.procs[i], s'.sh;
      if Waking(pc) || Trying(pc) || sh.sem > 0 {
      } else if s.procs[i] == WakeRead && s.sh.wait == 0 {
        AccountedKept(c, s, i, a);
        NobodyCounted(s');
      } else {
        var k :| 0 <= k < |s'.procs| && s'.procs[k] == Parked;
        assert s.procs[k] == Parked;
        var j :| 0 <= j < |s.procs| && (Waking(s.procs[j]) || Trying(s.procs[j]));
        assert s'.procs[j] == s.procs[j];
      }
    }
  }

  lemma InvKept(c: Config, s: State, i: nat, a: Action)
    requires Enabled(s, i, a) && Inv(c, s)
    ensures Inv(c, Next(c, s, i, a))
  {
    OwnershipKept(c, s, i, a);
    AccountedKept(c, s, i, a);
    NoLostWakeupKept(c, s, i, a);
    SaneKept(c, s, i, a);
  }

  // ----- every run -----

  ghost predicate Steps(c: Config, s: State, s': State) {
    exists i: nat, a: Action :: Enabled(s, i, a) && s' == Next(c, s, i, a)
  }

  ghost predicate IsRun(c: Config, run: seq<State>) {
    && run != [] && Init(run[0])
    && forall k :: 0 <= k < |run| - 1 ==> Steps(c, run[k], run[k + 1])
  }

  ghost predicate MutualExclusion(s: State) {
    forall i, j :: 0 <= i < |s.procs| && 0 <= j < |s.procs| && HasLock(s.procs[i]) && HasLock(s.procs[j]) ==> i == j
  }

  /** Safety over every run of any number of processes. */
  lemma {:induction false} Safety(c: Config, run: seq<State>, k: nat)
    requires IsRun(c, run) && k < |run|
    ensures Inv(c, run[k]) && MutualExclusion(run[k])
  {
    if k == 0 {
      InitInv(c, run[0]);
    } else {
      Safety(c, run, k - 1);
      assert Steps(c, run[k - 1], run[k - 1 + 1]);
      var i, a :| Enabled(run[k - 1], i, a) && run[k] == Next(c, run[k - 1], i, a);
      InvKept(c, run[k - 1], i, a);
    }
  }

  // ----- every call completes -----

  /** A step that continues the calls in progress: no new call, no failure. */
  ghost predicate Progresses(c: Config, s: State, s': State) {
    exists i: nat ::
      || (Enabled(s, i, Tick) && s' == Next(c, s, i, Tick))
      || (Enabled(s, i, CallUnlock) && s.procs[i] == Owner && s' == Next(c, s, i, CallUnlock))
  }

  /** Acquisitions and releases still to come. */
  function Pending(pc: Pc): nat {
    if Trying(pc) || pc == Parked then 2 else if HasLock(pc) || pc.ForceCas? then 1 else 0
  }

  /** Wake-ups still under way. */
  function WakeWork(pc: Pc): nat {
    if pc == WakeRead || pc.WakeCas? then 3 else if pc == Post then 2 else 0
  }

  function BeforeEnlisting(pc: Pc): nat { if pc.LockRead? || pc.LockCas? || pc == Enlist then 1 else 0 }

  /** Local steps still to come. */
  function LocalWork(pc: Pc): nat {
    match pc
    case LockRead(left) => 2 * left + 5
    case LockCas(left) => 2 * left + 4
    case Enlist => 3
    case LastRead => 2
    case LastCas => 1
    case TryRead => 2
    case TryCas => 1
    case Owner => 2
    case UnlockCas(_) => 1
    case WakeRead => 1
    case _ => 0
  }

  function Stale(wait: nat): Pc -> nat {
    (pc: Pc) => if pc.WakeCas? && pc.seen != wait then 1 else 0
  }

  datatype Rank = Rank(pending: nat, wakes: nat, enlisting: nat, stale: nat, work: nat)

  function RankOf(s: State): Rank {
    Rank(Sum(Pending, s.procs), Sum(WakeWork, s.procs) + s.sh.sem, Sum(BeforeEnlisting, s.procs),
         Sum(Stale(s.sh.wait), s.procs), Sum(LocalWork, s.procs))
  }

  ghost predicate Lower(a: Rank, b: Rank) {
    || a.pending < b.pending
    || (a.pending == b.pending && a.wakes < b.wakes)
    || (a.pending == b.pending && a.wakes == b.wakes && a.enlisting < b.enlisting)
    || (a.pending == b.pending && a.wakes == b.wakes && a.enlisting == b.enlisting && a.stale < b.stale)
    || (a.pending == b.pending && a.wakes == b.wakes && a.enlisting == b.enlisting && a.stale == b.stale && a.work < b.work)
  }

  function LocalRank(wait: nat, pc: Pc, sem: nat): Rank {
    Rank(Pending(pc), WakeWork(pc) + sem, BeforeEnlisting(pc), Stale(wait)(pc), LocalWork(pc))
  }

  lemma LocalProgress(c: Config, s: State, i: nat, a: Action)
    requires Enabled(s, i, a) && (a == Tick || (a == CallUnlock && s.procs[i] == Owner)) && Inv(c, s) && c.semaphore
    ensures var (pc, sh) := Effect(c, s, i, a);
            var r, r' := LocalRank(s.sh.wait, s.procs[i], s.sh.sem), LocalRank(sh.wait, pc, sh.sem);
            Lower(r', r) && (sh.wait != s.sh.wait ==> Lower(r'.(stale := 0, work := 0), r.(stale := 0, work := 0)))
  {
    assert Sane(c, s, s.procs[i]);
  }

  lemma RankFalls(c: Config, s: State, i: nat, a: Action)
    requires Enabled(s, i, a) && (a == Tick || (a == CallUnlock && s.procs[i] == Owner)) && Inv(c, s) && c.semaphore
    ensures Lower(RankOf(Next(c, s, i, a)), RankOf(s))
  {
    var (pc, sh) := Effect(c, s, i, a);
    LocalProgress(c, s, i, a);
    SumUpdate(Pending, s.procs, i, pc);
    SumUpdate(WakeWork, s.procs, i, pc);
    SumUpdate(BeforeEnlisting, s.procs, i, pc);
    SumUpdate(Stale(s.sh.wait), s.procs, i, pc);
    SumUpdate(LocalWork, s.procs, i, pc);
  }

  lemma Continuing(c: Config, s: State, s': State) returns (i: nat, a: Action)
    requires Progresses(c, s, s')
    ensures Enabled(s, i, a) && (a == Tick || (a == CallUnlock && s.procs[i] == Owner)) && s' == Next(c, s, i, a)
  {
    i :|
      || (Enabled(s, i, Tick) && s' == Next(c, s, i, Tick))
      || (Enabled(s, i, CallUnlock) && s.procs[i] == Owner && s' == Next(c, s, i, CallUnlock));
    a := if Enabled(s, i, Tick) && s' == Next(c, s, i, Tick) then Tick else CallUnlock;
  }

  /** One progressing step, with its consequences. */
  lemma ProgressStep(c: Config, s: State, s': State)
    requires Progresses(c, s, s') && Inv(c, s) && c.semaphore
    ensures Inv(c, s') && Lower(RankOf(s'), RankOf(s))
  {
    var i, a := Continuing(c, s, s');
    InvKept(c, s, i, a);
    RankFalls(c, s, i, a);
  }

  /** What keeps falling stops. */
  lemma {:induction false} FirstStop(rank: nat -> Rank, goes: nat -> bool, k: nat) returns (n: nat)
    requires forall j: nat :: goes(j) ==> Lower(rank(j + 1), rank(j))
    ensures n >= k && !goes(n) && forall j :: k <= j < n ==> goes(j)
    decreases rank(k).pending, rank(k).wakes, rank(k).enlisting, rank(k).stale, rank(k).work
  {
    n := k;
    if goes(k) {
      n := FirstStop(rank, goes, k + 1);
    }
  }

  ghost predicate CanProgress(s: State) {
    exists i: nat :: Enabled(s, i, Tick) || (Enabled(s, i, CallUnlock) && s.procs[i] == Owner)
  }

  ghost predicate HeldByDead(s: State) {
    0 < s.sh.lock <= |s.procs| && s.procs[s.sh.lock - 1] == Dead
  }

  /** No deadlock: if nothing can move and no dead process holds the lock, then no
      call is unfinished. */
  lemma StuckMeansDone(c: Config, s: State)
    requires Inv(c, s) && !CanProgress(s) && !HeldByDead(s)
    ensures s.sh.lock == 0 && forall i :: 0 <= i < |s.procs| ==> s.procs[i] == Idle || s.procs[i] == Dead
  {
    forall i | 0 <= i < |s.procs|
      ensures s.procs[i] == Idle || s.procs[i] == Dead || (s.procs[i] == Parked && s.sh.sem == 0)
    {
      assert !Enabled(s, i, Tick) && !(Enabled(s, i, CallUnlock) && s.procs[i] == Owner);
    }
  }

  /** The processes only finish what they have begun, and go on as long as any can. */
  ghost predicate Finishing(c: Config, run: nat -> State) {
    forall k: nat :: Progresses(c, run(k), run(k + 1)) || !CanProgress(run(k))
  }

  /** If a dead process has the lock, another is about to force it open. */
  ghost predicate Rescued(s: State) {
    HeldByDead(s) ==> ForceCas(s.sh.lock - 1) in s.procs
  }

  ghost predicate SameDead(s: State, s': State) {
    |s.procs| == |s'.procs| && forall i :: 0 <= i < |s.procs| ==> (s.procs[i] == Dead <==> s'.procs[i] == Dead)
  }

  ghost predicate Sound(c: Config, s: State) { Inv(c, s) && Rescued(s) }

  lemma RescueKept(c: Config, s: State, i: nat, a: Action)
    requires Enabled(s, i, a) && (a == Tick || (a == CallUnlock && s.procs[i] == Owner)) && Sound(c, s)
    ensures Rescued(Next(c, s, i, a))
  {
    var s' := Next(c, s, i, a);
    LocalLock(c, s, i, a);
    if HeldByDead(s') {
      assert s.sh.lock == s'.sh.lock && HeldByDead(s);
      var j :| 0 <= j < |s.procs| && s.procs[j] == ForceCas(s.sh.lock - 1);
      assert j != i;
      assert s'.procs[j] == s.procs[j];
    }
  }

  lemma SoundStep(c: Config, s: State, s': State)
    requires Sound(c, s) && Progresses(c, s, s') && c.semaphore
    ensures Sound(c, s') && SameDead(s, s') && Lower(RankOf(s'), RankOf(s))
  {
    ProgressStep(c, s, s');
    var i, a := Continuing(c, s, s');
    RescueKept(c, s, i, a);
    DeadKept(c, s, i, a);
  }

  lemma DeadKept(c: Config, s: State, i: nat, a: Action)
    requires Enabled(s, i, a) && (a == Tick || (a == CallUnlock && s.procs[i] == Owner))
    ensures SameDead(s, Next(c, s, i, a))
  {
    assert s.procs[i] != Dead && Effect(c, s, i, a).0 != Dead;
  }

  lemma StuckMeansRest(c: Config, s: State)
    requires Sound(c, s) && !CanProgress(s)
    ensures s.sh.lock == 0 && forall i :: 0 <= i < |s.procs| ==> s.procs[i] == Idle || s.procs[i] == Dead
  {
    forall i | 0 <= i < |s.procs| ensures !s.procs[i].ForceCas? { assert !Enabled(s, i, Tick); }
    StuckMeansDone(c, s);
  }

  /** The lock is free, those that were dead still are and the others have returned. */
  ghost predicate AllDone(s0: State, s: State) {
    && s.sh.lock == 0 && |s.procs| == |s0.procs|
    && forall i :: 0 <= i < |s.procs| ==> s.procs[i] == if s0.procs[i] == Dead then Dead else Idle
  }

  /** Every call completes, whatever order the processes move in, once no new calls are
      made: they all come to rest with the lock free and every pending ngx_shmtx_lock
      granted and released.  Processes may have died, also one that has the lock, if some
      process is then about to force it open. */
  lemma EveryCallCompletes(c: Config, run: nat -> State) returns (n: nat)
    requires Sound(c, run(0)) && c.semaphore && Finishing(c, run)
    ensures AllDone(run(0), run(n))
  {
    var goes := (j: nat) => Sound(c, run(j)) && SameDead(run(0), run(j)) && Progresses(c, run(j), run(j + 1));
    var rank := (j: nat) => RankOf(run(j));
    forall j: nat | goes(j) ensures Lower(rank(j + 1), rank(j)) {
      SoundStep(c, run(j), run(j + 1));
    }
    n := FirstStop(rank, goes, 0);
    if n > 0 {
      assert goes(n - 1);
      SoundStep(c, run(n - 1), run(n));
    }
    assert !Progresses(c, run(n), run(n + 1));
    StuckMeansRest(c, run(n));
  }

  // ----- what each call does when it is not disturbed -----

  /** Up to k operations of process i, with no other in between. */
  function Alone(c: Config, s: State, i: nat, k: nat): State
    decreases k
  {
    if k == 0 || !Enabled(s, i, Tick) then s else Alone(c, Next(c, s, i, Tick), i, k - 1)
  }

  /** ngx_shmtx_trylock takes a free lock and leaves any other as it is. */
  lemma TryLockAlone(c: Config, s: State, i: nat)
    requires Enabled(s, i, CallTry)
    ensures Alone(c, Next(c, s, i, CallTry), i, 2)
      == if s.sh.lock == 0 then State(s.sh.(lock := i + 1), s.procs[i := Owner]) else s
  {
    var s1 := Next(c, s, i, CallTry);
    var s2 := Next(c, s1, i, Tick);
    if s.sh.lock == 0 {
      assert Alone(c, Next(c, s2, i, Tick), i, 0) == State(s.sh.(lock := i + 1), s.procs[i := Owner]);
    } else {
      assert s2 == s;
    }
  }

  /** ngx_shmtx_lock takes a free lock at once.  Otherwise it spins as often as configured,
      adds itself to the waiting and sleeps, or without a semaphore goes on trying. */
  lemma LockAlone(c: Config, s: State, i: nat)
    requires Enabled(s, i, CallLock)
    ensures var s1 := Next(c, s, i, CallLock);
      if s.sh.lock == 0 then Alone(c, s1, i, 2) == State(s.sh.(lock := i + 1), s.procs[i := Owner])
      else if c.semaphore then Alone(c, s1, i, c.rounds + 3) == State(s.sh.(wait := s.sh.wait + 1), s.procs[i := Parked])
      else Alone(c, s1, i, c.rounds + 1) == s1
  {
    var s1 := Next(c, s, i, CallLock);
    if s.sh.lock == 0 {
      var s2 := Next(c, s1, i, Tick);
      assert Alone(c, Next(c, s2, i, Tick), i, 0) == State(s.sh.(lock := i + 1), s.procs[i := Owner]);
    } else {
      SpinAlone(c, s1, i, c.rounds);
    }
  }

  lemma {:induction false} SpinAlone(c: Config, s: State, i: nat, left: nat)
    requires i < |s.procs| && s.procs[i] == LockRead(left) && s.sh.lock != 0
    ensures if c.semaphore then Alone(c, s, i, left + 3) == State(s.sh.(wait := s.sh.wait + 1), s.procs[i := Parked])
      else Alone(c, s, i, left + 1) == State(s.sh, s.procs[i := LockRead(c.rounds)])
    decreases left
  {
    var s1 := Next(c, s, i, Tick);
    if left > 0 {
      SpinAlone(c, s1, i, left - 1);
      assert s1.procs[i := Parked] == s.procs[i := Parked];
      assert s1.procs[i := LockRead(c.rounds)] == s.procs[i := LockRead(c.rounds)];
    } else if c.semaphore {
      var s2 := Next(c, s1, i, Tick);
      var s3 := Next(c, s2, i, Tick);
      assert Alone(c, s3, i, 0) == s3 == State(s.sh.(wait := s.sh.wait + 1), s.procs[i := Parked]);
      assert Alone(c, s1, i, 2) == Alone(c, s2, i, 1) == s3;
    } else {
      assert Alone(c, s1, i, 0) == s1;
    }
  }

  /** The process that ngx_shmtx_unlock or ngx_shmtx_force_unlock takes the lock from. */
  predicate Frees(s: State, i: nat, a: Action) {
    (a == CallUnlock && s.sh.lock == i + 1) || (a.CallForce? && s.sh.lock == a.victim + 1)
  }

  /** ngx_shmtx_unlock by the owner, and ngx_shmtx_force_unlock if the dead process has the
      lock, free it and wake one of the waiting; otherwise they change nothing. */
  lemma UnlockAlone(c: Config, s: State, i: nat, a: Action)
    requires Enabled(s, i, a) && (a == CallUnlock || a.CallForce?)
    ensures Alone(c, Next(c, s, i, a), i, 4) == State(
      if !Frees(s, i, a) then s.sh
      else if c.semaphore && s.sh.wait > 0 then Shared(0, s.sh.wait - 1, s.sh.sem + 1)
      else s.sh.(lock := 0), s.procs[i := Idle])
  {
    var s2 := Next(c, Next(c, s, i, a), i, Tick);
    if !Frees(s, i, a) || !c.semaphore {
      assert s2.procs == s.procs[i := Idle];
    } else {
      var s3 := Next(c, s2, i, Tick);
      if s.sh.wait == 0 {
        assert s3.procs == s.procs[i := Idle];
      } else {
        var s4 := Next(c, s3, i, Tick);
        var s5 := Next(c, s4, i, Tick);
        assert s5.procs == s.procs[i := Idle];
        assert Alone(c, s3, i, 2) == Alone(c, s4, i, 1) == Alone(c, s5, i, 0) == s5;
      }
    }
  }

  /** A process that was woken tries again from the start. */
  lemma WokenAlone(c: Config, s: State, i: nat)
    requires i < |s.procs| && s.procs[i] == Parked && s.sh.sem > 0 && s.sh.lock == 0
    ensures Alone(c, s, i, 3) == State(Shared(i + 1, s.sh.wait, s.sh.sem - 1), s.procs[i := Owner])
  {
    var s1 := Next(c, s, i, Tick);
    var s2 := Next(c, s1, i, Tick);
    var s3 := Next(c, s2, i, Tick);
    assert s3.procs == s.procs[i := Owner];
    assert Alone(c, s1, i, 2) == Alone(c, s2, i, 1) == Alone(c, s3, i, 0) == s3;
  }
}
