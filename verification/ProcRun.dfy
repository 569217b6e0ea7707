/** Whole runs of the process table of kernel/proc.c: a log of what each call gave, a law of such logs that speaks
    of the table alone, and what it says of exits and waits. */
module ProcRun {
  import opened Common
  import opened Proc

  datatype Event =
    | Forks(p: nat, noFrame: bool, noMemory: bool)
    | Exits(p: nat, xstatus: int)
    | Waits(p: nat, copyFails: bool)
    | Runs(p: nat)
    | Yields(p: nat)
    | Sleeps(p: nat, id: nat)
    | Wakes(id: nat, me: nat)
    | Kills(pid: nat)

  /** What came of it: a child in slot n, an exit, a wait's outcome.  A slot that is not in the right state to make
      the call is refused. */
  datatype Result = Child(pid: nat, n: nat) | NoChild | Left | Waited(out: WaitOut) | Served | Refused

  datatype View = View(procs: seq<Proc>, nextpid: nat)

  /** What an event gave, and the table after it. */
  datatype Entry = Entry(res: Result, view: View)

  ghost predicate ParentAt(init: nat, v: View, q: nat) {
    q < |v.procs| &&
    var x := v.procs[q];
    && (x.status != UNUSED && q != init ==> x.parent.Some? && x.parent.value != q)
    && (x.parent.Some? ==> x.parent.value < |v.procs| && Alive(v.procs[x.parent.value]))
  }

  /** What holds between steps: parents are alive, and nobody who sleeps in wait has a zombie child. */
  ghost predicate Sound(init: nat, v: View) {
    && |v.procs| == N_PROC && init < N_PROC && Alive(v.procs[init])
    && (forall q: nat | q < N_PROC :: ParentAt(init, v, q))
    && (forall p: nat, q: nat :: NotMissed(v.procs, p, q))
  }

  predicate In(v: View, p: nat, status: Status) {
    p < |v.procs| && v.procs[p].status == status
  }

  function Set(v: View, p: nat, x: Proc): View
    requires p < |v.procs|
  {
    v.(procs := v.procs[p := x])
  }

  ghost predicate NoRoom(v: View) {
    forall q | 0 <= q < |v.procs| :: v.procs[q].status != UNUSED
  }

  ghost predicate FirstUnused(v: View, n: nat) {
    In(v, n, UNUSED) && forall q | 0 <= q < n :: v.procs[q].status != UNUSED
  }

  ghost predicate ForkMay(v: View, p: nat, fails: bool, e: Entry) {
    if !In(v, p, RUNNING) then e == Entry(Refused, v)
    else if fails || NoRoom(v) then
      && e.res == NoChild && v.nextpid <= e.view.nextpid <= v.nextpid + 1
      && (e.view.procs == v.procs || exists n: nat ::
           In(v, n, UNUSED) && e.view.procs == v.procs[n := Freed(v.procs[n])])
    else
      && e.res.Child? && FirstUnused(v, e.res.n) && e.res.pid == v.nextpid && e.view.nextpid == v.nextpid + 1
      && e.view.procs == v.procs[e.res.n := v.procs[e.res.n].(status := RUNNABLE, pid := v.nextpid, parent := Some(p))]
  }

  ghost predicate ExitMay(init: nat, v: View, p: nat, xstatus: int, e: Entry) {
    if p == init || !In(v, p, RUNNING) || v.procs[p].parent == None then e == Entry(Refused, v)
    else e.res == Left && e.view.nextpid == v.nextpid && Departs(v.procs, e.view.procs, p, init, xstatus)
  }

  /** The first zombie child of p. */
  ghost predicate FirstZombie(v: View, p: nat, q: nat) {
    && In(v, q, ZOMBIE) && ChildOf(v.procs, q, p)
    && forall r: nat | r < q && ChildOf(v.procs, r, p) :: v.procs[r].status != ZOMBIE
  }

  ghost predicate WaitMay(v: View, p: nat, copyFails: bool, e: Entry) {
    if !In(v, p, RUNNING) then e == Entry(Refused, v)
    else if WaitFails(v.procs, p, copyFails) then e == Entry(Waited(Failed), v)
    else if exists q: nat :: FirstZombie(v, p, q) then
      && e.res.Waited? && e.res.out.Reaped? && FirstZombie(v, p, e.res.out.q)
      && var x := v.procs[e.res.out.q];
      && e == Entry(Waited(Reaped(x.pid, e.res.out.q, x.xstatus)),
                    Set(v, e.res.out.q, x.(status := UNUSED, pid := 0, xstatus := 0, killed := false)))
    else e == Entry(Waited(Slept), Set(v, p, v.procs[p].(status := SLEEPING, chan := ProcChan(p))))
  }

  /** Slot p is the first with that pid. */
  ghost predicate FirstPid(v: View, pid: nat, p: nat) {
    p < |v.procs| && v.procs[p].pid == pid && forall j | 0 <= j < p :: v.procs[j].pid != pid
  }

  /** The first slot with the pid gets the mark and does not sleep any more. */
  ghost predicate KillMay(v: View, pid: nat, e: Entry) {
    if forall i | 0 <= i < |v.procs| :: v.procs[i].pid != pid then e == Entry(Refused, v)
    else exists i: nat ::
      && FirstPid(v, pid, i) && e.res == Served
      && var x := v.procs[i];
      && e.view == Set(v, i, x.(killed := true, status := if x.status == SLEEPING then RUNNABLE else x.status))
  }

  /** What may come of the next event. */
  ghost predicate May(init: nat, v: View, event: Event, e: Entry) {
    match event
    case Forks(p, noFrame, noMemory) => ForkMay(v, p, noFrame || noMemory, e)
    case Exits(p, xstatus) => ExitMay(init, v, p, xstatus, e)
    case Waits(p, copyFails) => WaitMay(v, p, copyFails, e)
    case Runs(p) =>
      e == if In(v, p, RUNNABLE) then Entry(Served, Set(v, p, v.procs[p].(status := RUNNING, chan := NoChan)))
           else Entry(Refused, v)
    case Yields(p) =>
      e == if In(v, p, RUNNING) then Entry(Served, Set(v, p, v.procs[p].(status := RUNNABLE))) else Entry(Refused, v)
    case Sleeps(p, id) =>
      e == if In(v, p, RUNNING) then Entry(Served, Set(v, p, v.procs[p].(status := SLEEPING, chan := OtherChan(id))))
           else Entry(Refused, v)
    case Wakes(id, me) =>
      e.res == Served && e.view.nextpid == v.nextpid && Roused(v.procs, e.view.procs, OtherChan(id), me)
    case Kills(pid) => KillMay(v, pid, e)
  }

  function Before(v: View, log: seq<Entry>, j: nat): View
    requires j <= |log|
  {
    if j == 0 then v else log[j - 1].view
  }

  ghost predicate MayAt(init: nat, v: View, events: seq<Event>, log: seq<Entry>, j: nat) {
    j < |log| <= |events| && Sound(init, log[j].view) && May(init, Before(v, log, j), events[j], log[j])
  }

  /** Every entry is one the log before it allows. */
  ghost predicate Lawful(init: nat, v: View, events: seq<Event>, log: seq<Entry>) {
    |log| <= |events| && Sound(init, v) && forall j: nat | j < |log| :: MayAt(init, v, events, log, j)
  }

  /** Slot q holds the process with this pid, dead, with this exit status. */
  predicate Dead(v: View, q: nat, pid: nat, status: int) {
    In(v, q, ZOMBIE) && v.procs[q].pid == pid && v.procs[q].xstatus == status
  }

  lemma ExitDead(init: nat, v: View, p: nat, xstatus: int, e: Entry, q: nat)
    requires Sound(init, v) && ExitMay(init, v, p, xstatus, e) && q < N_PROC
    ensures q == p && e.res == Left ==> Dead(e.view, q, v.procs[q].pid, xstatus) && !In(v, q, ZOMBIE)
    ensures q != p || e.res != Left ==>
      && In(e.view, q, ZOMBIE) == In(v, q, ZOMBIE)
      && e.view.procs[q].pid == v.procs[q].pid && e.view.procs[q].xstatus == v.procs[q].xstatus
  {
    assert p < N_PROC ==> ParentAt(init, v, p);
  }

  lemma WaitDead(v: View, p: nat, copyFails: bool, e: Entry, q: nat)
    requires WaitMay(v, p, copyFails, e) && q < |v.procs|
    ensures
      if e.res.Waited? && e.res.out.Reaped? && e.res.out.q == q
      then e.res.out == Reaped(v.procs[q].pid, q, v.procs[q].xstatus) && In(v, q, ZOMBIE) && In(e.view, q, UNUSED)
      else Kept(v, e.view, q)
  {
  }

  /** As far as being dead, pid and exit status go, slot q is as it was. */
  predicate Kept(v: View, v': View, q: nat) {
    && q < |v.procs| == |v'.procs| && (In(v', q, ZOMBIE) <==> In(v, q, ZOMBIE))
    && (In(v, q, ZOMBIE) ==> v'.procs[q].pid == v.procs[q].pid && v'.procs[q].xstatus == v.procs[q].xstatus)
  }

  lemma KillDead(v: View, pid: nat, e: Entry, q: nat)
    requires KillMay(v, pid, e) && q < |v.procs|
    ensures Kept(v, e.view, q)
  {
  }

  lemma ForkDead(v: View, p: nat, fails: bool, e: Entry, q: nat)
    requires ForkMay(v, p, fails, e) && q < |v.procs|
    ensures Kept(v, e.view, q)
  {
  }

  predicate ReapsSlot(e: Entry, q: nat) {
    e.res.Waited? && e.res.out.Reaped? && e.res.out.q == q
  }

  predicate LeavesSlot(event: Event, e: Entry, q: nat) {
    event.Exits? && event.p == q && e.res == Left
  }

  /** A zombie comes from an exit and goes by a wait, and meanwhile keeps its pid and status. */
  lemma DeadNext(init: nat, v: View, event: Event, e: Entry, q: nat)
    requires Sound(init, v) && May(init, v, event, e) && q < N_PROC
    ensures
      if ReapsSlot(e, q)
      then e.res.out == Reaped(v.procs[q].pid, q, v.procs[q].xstatus) && In(v, q, ZOMBIE) && In(e.view, q, UNUSED)
      else if LeavesSlot(event, e, q) then Dead(e.view, q, v.procs[q].pid, event.xstatus) && !In(v, q, ZOMBIE)
      else Kept(v, e.view, q)
  {
    match event
    case Exits(p, xstatus) => ExitDead(init, v, p, xstatus, e, q);
    case Waits(p, copyFails) => WaitDead(v, p, copyFails, e, q);
    case Kills(pid) => KillDead(v, pid, e, q);
    case Forks(p, noFrame, noMemory) => ForkDead(v, p, noFrame || noMemory, e, q);
    case _ =>
  }

  function PidOf(v: View, q: nat): nat {
    if q < |v.procs| then v.procs[q].pid else 0
  }

  lemma Turn(init: nat, v: View, events: seq<Event>, log: seq<Entry>, j: nat)
    requires Lawful(init, v, events, log) && j < |log|
    ensures Sound(init, Before(v, log, j)) && May(init, Before(v, log, j), events[j], log[j])
    ensures Sound(init, log[j].view)
  {
    assert MayAt(init, v, events, log, j);
    if j > 0 { assert MayAt(init, v, events, log, j - 1); }
  }

  ghost predicate ReapedAt(log: seq<Entry>, k: nat, j: nat, q: nat, m: nat) {
    k < m <= j < |log| && ReapsSlot(log[m], q)
  }

  /** No exit is lost.  After the exit in entry k the slot holds the dead process with its pid and status until a
      wait reaps it, and the first wait to reap the slot is given that pid and status. */
  lemma {:induction false} ExitKept(init: nat, v: View, events: seq<Event>, log: seq<Entry>, k: nat, j: nat, q: nat)
    requires Lawful(init, v, events, log) && k <= j < |log| && q < N_PROC && LeavesSlot(events[k], log[k], q)
    ensures
      var pid, status := PidOf(Before(v, log, k), q), events[k].xstatus;
      && ((forall m: nat :: !ReapedAt(log, k, j, q, m)) ==> Dead(log[j].view, q, pid, status))
      && (forall m: nat | ReapedAt(log, k, j, q, m) && (forall n: nat | n < m :: !ReapedAt(log, k, j, q, n)) ::
            log[m].res.out == Reaped(pid, q, status))
  {
    Turn(init, v, events, log, j);
    DeadNext(init, Before(v, log, j), events[j], log[j], q);
    if j > k {
      var i := j - 1;
      ExitKept(init, v, events, log, k, i, q);
      forall m: nat
        ensures ReapedAt(log, k, j, q, m) <==> ReapedAt(log, k, i, q, m) || (m == j && ReapsSlot(log[j], q))
      {
      }
    }
  }

  /** Slot q holds that dead process before each of the entries from lo to hi. */
  ghost predicate DeadFrom(v: View, log: seq<Entry>, q: nat, pid: nat, status: int, lo: nat, hi: nat) {
    forall m: nat | lo <= m <= hi && m <= |log| :: Dead(Before(v, log, m), q, pid, status)
  }

  lemma DeadLonger(v: View, log: seq<Entry>, q: nat, pid: nat, status: int, lo: nat, hi: nat)
    requires DeadFrom(v, log, q, pid, status, lo, hi) && hi < |log| && Dead(Before(v, log, hi + 1), q, pid, status)
    ensures DeadFrom(v, log, q, pid, status, lo, hi + 1)
  {
  }

  /** Entry k is the exit of the process that slot q has held, dead, ever since up to entry j. */
  ghost predicate DiedAt(v: View, events: seq<Event>, log: seq<Entry>, q: nat, pid: nat, status: int, k: nat, j: nat) {
    && k < j <= |log| <= |events| && events[k] == Exits(q, status) && log[k].res == Left
    && PidOf(Before(v, log, k), q) == pid
    && DeadFrom(v, log, q, pid, status, k + 1, j)
  }

  /** A dead process was so when the run began, or one exit of the log made it so. */
  ghost predicate Mourned(v: View, events: seq<Event>, log: seq<Entry>, q: nat, pid: nat, status: int, j: nat) {
    DeadFrom(v, log, q, pid, status, 0, j) || exists k: nat :: DiedAt(v, events, log, q, pid, status, k, j)
  }

  lemma {:induction false} DeadSince(init: nat, v: View, events: seq<Event>, log: seq<Entry>, j: nat, q: nat, pid: nat,
                                     status: int)
    requires Lawful(init, v, events, log) && j <= |log| && Dead(Before(v, log, j), q, pid, status) && q < N_PROC
    ensures Mourned(v, events, log, q, pid, status, j)
  {
    if j > 0 {
      var i: nat := j - 1;
      Turn(init, v, events, log, i);
      DeadNext(init, Before(v, log, i), events[i], log[i], q);
      if LeavesSlot(events[i], log[i], q) {
        assert DiedAt(v, events, log, q, pid, status, i, j);
      } else {
        DeadSince(init, v, events, log, i, q, pid, status);
        if DeadFrom(v, log, q, pid, status, 0, i) {
          DeadLonger(v, log, q, pid, status, 0, i);
        } else {
          var k: nat :| DiedAt(v, events, log, q, pid, status, k, i);
          DeadLonger(v, log, q, pid, status, k + 1, i);
          assert DiedAt(v, events, log, q, pid, status, k, j);
        }
      }
    }
  }

  /** Whatever wait returns did exit: the pid and status it gives are those of a child that was dead when the run
      began, or of one exit of the log, and the slot has held that dead process ever since. */
  lemma WaitedExited(init: nat, v: View, events: seq<Event>, log: seq<Entry>, j: nat)
    requires Lawful(init, v, events, log) && j < |log| && log[j].res.Waited? && log[j].res.out.Reaped?
    ensures
      var Reaped(pid, q, status) := log[j].res.out;
      && events[j].Waits? && ChildOf(Before(v, log, j).procs, q, events[j].p)
      && Mourned(v, events, log, q, pid, status, j)
  {
    Turn(init, v, events, log, j);
    var Reaped(pid, q, status) := log[j].res.out;
    DeadSince(init, v, events, log, j, q, pid, status);
  }

  /** Slot p sleeps outside wait: on a pipe, a buffer, the clock. */
  predicate Asleep(v: View, p: nat, id: nat) {
    p < |v.procs| && SleepsOn(v.procs[p], OtherChan(id))
  }

  ghost predicate Rouses(v: View, event: Event, p: nat, id: nat) {
    (event.Wakes? && event.id == id && event.me != p) || (event.Kills? && FirstPid(v, event.pid, p))
  }

  lemma ExitAsleep(init: nat, v: View, q: nat, xstatus: int, e: Entry, p: nat, id: nat)
    requires Sound(init, v) && ExitMay(init, v, q, xstatus, e) && Asleep(v, p, id)
    ensures Asleep(e.view, p, id)
  {
    assert q < N_PROC ==> ParentAt(init, v, q);
  }

  /** A sleeper goes on sleeping until it is woken or killed, and is runnable then. */
  lemma AsleepNext(init: nat, v: View, event: Event, e: Entry, p: nat, id: nat)
    requires Sound(init, v) && May(init, v, event, e) && Asleep(v, p, id)
    ensures if Rouses(v, event, p, id) then In(e.view, p, RUNNABLE) else Asleep(e.view, p, id)
  {
    match event
    case Exits(q, xstatus) => ExitAsleep(init, v, q, xstatus, e, p, id);
    case _ =>
  }

  ghost predicate RousedAt(v: View, events: seq<Event>, log: seq<Entry>, k: nat, j: nat, p: nat, id: nat, m: nat) {
    k < m <= j < |log| <= |events| && Rouses(Before(v, log, m), events[m], p, id)
  }

  /** No sleeper is forgotten, and none wakes up by itself: asleep after entry k, the process still is after entry j
      unless some entry between them woke or killed it, and the first such entry made it runnable. */
  lemma {:induction false} SleepsUntilRoused(init: nat, v: View, events: seq<Event>, log: seq<Entry>, k: nat, j: nat,
                                             p: nat, id: nat)
    requires Lawful(init, v, events, log) && k <= j < |log| && Asleep(log[k].view, p, id)
    ensures (forall m: nat :: !RousedAt(v, events, log, k, j, p, id, m)) ==> Asleep(log[j].view, p, id)
    ensures forall m: nat | RousedAt(v, events, log, k, j, p, id, m)
                            && (forall n: nat | n < m :: !RousedAt(v, events, log, k, j, p, id, n)) ::
              In(log[m].view, p, RUNNABLE)
  {
    if j > k {
      var i: nat := j - 1;
      SleepsUntilRoused(init, v, events, log, k, i, p, id);
      Turn(init, v, events, log, j);
      forall m: nat
        ensures RousedAt(v, events, log, k, j, p, id, m) <==>
          RousedAt(v, events, log, k, i, p, id, m) || (m == j && Rouses(Before(v, log, j), events[j], p, id))
      {
      }
      if Asleep(log[i].view, p, id) { AsleepNext(init, log[i].view, events[j], log[j], p, id); }
    }
  }

  /** After a wakeup nobody but the caller sleeps on the channel. */
  lemma NoneAsleep(init: nat, v: View, events: seq<Event>, log: seq<Entry>, j: nat, id: nat, me: nat, p: nat)
    requires Lawful(init, v, events, log) && j < |log| && events[j] == Wakes(id, me) && p != me
    ensures !Asleep(log[j].view, p, id)
  {
    Turn(init, v, events, log, j);
    var b := Before(v, log, j);
    assert p < |b.procs| && SleepsOn(b.procs[p], OtherChan(id)) ==>
      log[j].view.procs[p] == b.procs[p].(status := RUNNABLE);
  }

  predicate Marked(v: View, p: nat) {
    p < |v.procs| && v.procs[p].killed
  }

  ghost predicate KillsSlot(v: View, event: Event, p: nat) {
    event.Kills? && FirstPid(v, event.pid, p)
  }

  lemma ExitMarks(init: nat, v: View, q: nat, xstatus: int, e: Entry, p: nat)
    requires Sound(init, v) && ExitMay(init, v, q, xstatus, e) && p < N_PROC
    ensures Marked(e.view, p) == Marked(v, p) && PidOf(e.view, p) == PidOf(v, p)
    ensures In(e.view, p, UNUSED) == In(v, p, UNUSED)
  {
    assert q < N_PROC ==> ParentAt(init, v, q);
  }

  /** A process keeps its pid and its mark until it is reaped, and is marked by kill alone; a slot that was reaped
      has neither. */
  lemma MarkNext(init: nat, v: View, event: Event, e: Entry, p: nat)
    requires Sound(init, v) && May(init, v, event, e) && p < N_PROC && !In(v, p, UNUSED)
    ensures
      if ReapsSlot(e, p) then In(e.view, p, UNUSED) && !Marked(e.view, p) && PidOf(e.view, p) == 0
      else !In(e.view, p, UNUSED) && PidOf(e.view, p) == PidOf(v, p)
           && (Marked(e.view, p) <==> Marked(v, p) || KillsSlot(v, event, p))
  {
    match event
    case Exits(q, xstatus) => ExitMarks(init, v, q, xstatus, e, p);
    case _ =>
  }

  ghost predicate KilledAt(v: View, events: seq<Event>, log: seq<Entry>, k: nat, j: nat, p: nat, m: nat) {
    k < m <= j < |log| <= |events| && KillsSlot(Before(v, log, m), events[m], p)
  }

  /** While a process has not been reaped it keeps its pid, and it is marked exactly if it was or a kill has hit it. */
  lemma {:induction false} MarkedIff(init: nat, v: View, events: seq<Event>, log: seq<Entry>, k: nat, j: nat, p: nat)
    requires Lawful(init, v, events, log) && k <= j < |log| && p < N_PROC && !In(log[k].view, p, UNUSED)
    requires forall m: nat :: !ReapedAt(log, k, j, p, m)
    ensures !In(log[j].view, p, UNUSED) && PidOf(log[j].view, p) == PidOf(log[k].view, p)
    ensures Marked(log[j].view, p) <==> Marked(log[k].view, p) || exists m: nat :: KilledAt(v, events, log, k, j, p, m)
  {
    if j > k {
      var i: nat := j - 1;
      assert forall m: nat :: ReapedAt(log, k, i, p, m) ==> ReapedAt(log, k, j, p, m);
      MarkedIff(init, v, events, log, k, i, p);
      Turn(init, v, events, log, j);
      MarkNext(init, log[i].view, events[j], log[j], p);
      assert !ReapedAt(log, k, j, p, j);
      forall m: nat
        ensures KilledAt(v, events, log, k, j, p, m) <==>
          KilledAt(v, events, log, k, i, p, m) || (m == j && KillsSlot(log[i].view, events[j], p))
      {
      }
      if KillsSlot(log[i].view, events[j], p) { assert KilledAt(v, events, log, k, j, p, j); }
      if m: nat :| KilledAt(v, events, log, k, i, p, m) { assert KilledAt(v, events, log, k, j, p, m); }
    }
  }

  function Number(log: seq<Entry>): (nat, nat) {
    if log == [] then (0, 0) else
      var (left, reaped), e := Number(log[..|log| - 1]), log[|log| - 1];
      (left + if e.res == Left then 1 else 0, reaped + if e.res.Waited? && e.res.out.Reaped? then 1 else 0)
  }

  function See(t: Table): View
    reads t
  {
    View(t.procs, t.nextpid)
  }

  lemma SeenSound(t: Table)
    requires t.Valid()
    ensures Sound(t.init, See(t))
  {
    forall q: nat | q < N_PROC
      ensures ParentAt(t.init, See(t), q)
    {
      assert ParentOk(t.procs, t.birth, t.init, q);
    }
  }

  /** The history of exits and waits grows by what the entry says. */
  ghost predicate Grows(exited: seq<nat>, reaped: seq<nat>, exited': seq<nat>, reaped': seq<nat>, e: Entry) {
    && exited <= exited' && |exited'| == |exited| + (if e.res == Left then 1 else 0)
    && reaped <= reaped' && |reaped'| == |reaped| + (if e.res.Waited? && e.res.out.Reaped? then 1 else 0)
  }

  method ForkOne(t: Table, p: nat, noFrame: bool, noMemory: bool) returns (e: Entry)
    requires t.Valid()
    modifies t
    ensures t.Valid() && e.view == See(t) && ForkMay(old(See(t)), p, noFrame || noMemory, e)
    ensures Grows(old(t.exited), old(t.reaped), t.exited, t.reaped, e)
  {
    if !In(See(t), p, RUNNING) { return Entry(Refused, See(t)); }
    var r, n := t.Fork(p, noFrame, noMemory);
    e := Entry(if r == -1 then NoChild else Child(r, n), See(t));
    assert r == -1 && n < N_PROC ==> In(old(See(t)), n, UNUSED);
  }

  method ExitOne(t: Table, p: nat, xstatus: int) returns (e: Entry)
    requires t.Valid()
    modifies t
    ensures t.Valid() && e.view == See(t) && ExitMay(t.init, old(See(t)), p, xstatus, e)
    ensures Grows(old(t.exited), old(t.reaped), t.exited, t.reaped, e)
  {
    SeenSound(t);
    assert p < N_PROC ==> ParentAt(t.init, See(t), p);
    if p == t.init || !In(See(t), p, RUNNING) { return Entry(Refused, See(t)); }
    t.Exit(p, xstatus);
    e := Entry(Left, See(t));
  }

  lemma NoZombie(v: View, p: nat)
    requires forall q: nat | ChildOf(v.procs, q, p) :: v.procs[q].status != ZOMBIE
    ensures !exists q: nat :: FirstZombie(v, p, q)
  {
  }

  method WaitOne(t: Table, p: nat, copyFails: bool) returns (e: Entry)
    requires t.Valid()
    modifies t
    ensures t.Valid() && e.view == See(t) && WaitMay(old(See(t)), p, copyFails, e)
    ensures Grows(old(t.exited), old(t.reaped), t.exited, t.reaped, e)
  {
    if !In(See(t), p, RUNNING) { return Entry(Refused, See(t)); }
    var out := t.Wait(p, copyFails);
    e := Entry(Waited(out), See(t));
    ghost var v := old(See(t));
    if out.Reaped? { assert FirstZombie(v, p, out.q); }
    if out == Slept { NoZombie(v, p); }
  }

  method KillOne(t: Table, pid: nat) returns (e: Entry)
    requires t.Valid()
    modifies t
    ensures t.Valid() && e.view == See(t) && KillMay(old(See(t)), pid, e)
    ensures Grows(old(t.exited), old(t.reaped), t.exited, t.reaped, e)
  {
    var r := t.Kill(pid);
    e := Entry(if r == -1 then Refused else Served, See(t));
    ghost var v := old(See(t));
    if r != -1 {
      ghost var i: nat :|
        && i < N_PROC && old(t.procs)[i].pid == pid && (forall j | 0 <= j < i :: old(t.procs)[j].pid != pid)
        && t.procs == old(t.procs)[i := KilledOne(old(t.procs)[i])];
      assert FirstPid(v, pid, i);
    }
  }

  /** The scheduler, yield, sleep and wakeup. */
  method Switch(t: Table, event: Event) returns (e: Entry)
    requires t.Valid() && (event.Runs? || event.Yields? || event.Sleeps? || event.Wakes?)
    modifies t
    ensures t.Valid() && e.view == See(t) && May(t.init, old(See(t)), event, e)
    ensures Grows(old(t.exited), old(t.reaped), t.exited, t.reaped, e)
  {
    e := Entry(Refused, See(t));
    match event
    case Runs(p) =>
      if In(See(t), p, RUNNABLE) {
        t.Dispatch(p);
        e := Entry(Served, See(t));
      }
    case Yields(p) =>
      if In(See(t), p, RUNNING) {
        t.Yield(p);
        e := Entry(Served, See(t));
      }
    case Sleeps(p, id) =>
      if In(See(t), p, RUNNING) {
        t.Sleep(p, id);
        e := Entry(Served, See(t));
      }
    case Wakes(id, me) =>
      t.Wake(id, me);
      e := Entry(Served, See(t));
  }

  method Handle(t: Table, event: Event) returns (e: Entry)
    requires t.Valid()
    modifies t
    ensures t.Valid() && e.view == See(t) && May(t.init, old(See(t)), event, e)
    ensures Grows(old(t.exited), old(t.reaped), t.exited, t.reaped, e)
  {
    match event
    case Forks(p, noFrame, noMemory) => e := ForkOne(t, p, noFrame, noMemory);
    case Exits(p, xstatus) => e := ExitOne(t, p, xstatus);
    case Waits(p, copyFails) => e := WaitOne(t, p, copyFails);
    case Kills(pid) => e := KillOne(t, pid);
    case _ => e := Switch(t, event);
  }

  lemma MayStays(init: nat, v: View, events: seq<Event>, log: seq<Entry>, e: Entry, j: nat)
    requires j < |log| < |events|
    ensures MayAt(init, v, events, log + [e], j) <==> MayAt(init, v, events, log, j)
  {
    assert Before(v, log + [e], j) == Before(v, log, j) && (log + [e])[j] == log[j];
  }

  lemma MayLast(init: nat, v: View, events: seq<Event>, log: seq<Entry>, e: Entry)
    requires |log| < |events|
    ensures MayAt(init, v, events, log + [e], |log|) <==>
      Sound(init, e.view) && May(init, Before(v, log, |log|), events[|log|], e)
  {
    assert Before(v, log + [e], |log|) == Before(v, log, |log|) && (log + [e])[|log|] == e;
  }

  lemma LawfulMore(init: nat, v: View, events: seq<Event>, log: seq<Entry>, e: Entry)
    requires |log| < |events|
    ensures Lawful(init, v, events, log + [e]) <==>
      Lawful(init, v, events, log) && MayAt(init, v, events, log + [e], |log|)
  {
    var log' := log + [e];
    forall j: nat | j < |log|
      ensures MayAt(init, v, events, log', j) <==> MayAt(init, v, events, log, j)
    {
      MayStays(init, v, events, log, e, j);
    }
  }

  lemma LawfulNext(init: nat, v: View, events: seq<Event>, log: seq<Entry>, e: Entry)
    requires |log| < |events| && Sound(init, e.view) && May(init, Before(v, log, |log|), events[|log|], e)
    ensures Lawful(init, v, events, log + [e]) <==> Lawful(init, v, events, log)
    ensures Number(log + [e]) ==
      (Number(log).0 + if e.res == Left then 1 else 0,
       Number(log).1 + if e.res.Waited? && e.res.out.Reaped? then 1 else 0)
  {
    assert (log + [e])[..|log|] == log;
    MayLast(init, v, events, log, e);
    LawfulMore(init, v, events, log, e);
  }

  /** Any run of the process table: each call gives what the law of the log says, no exit is missed by a sleeping
      parent in any state of the run, and the history has one more exit and one more reaping for each in the log:
      every process that exited is a zombie or was reaped, once. */
  method Run(t: Table, events: seq<Event>) returns (log: seq<Entry>)
    requires t.Valid()
    modifies t
    ensures t.Valid() && |log| == |events| && Lawful(t.init, old(See(t)), events, log)
    ensures See(t) == Before(old(See(t)), log, |log|)
    ensures old(t.exited) <= t.exited && |t.exited| == |old(t.exited)| + Number(log).0
    ensures old(t.reaped) <= t.reaped && |t.reaped| == |old(t.reaped)| + Number(log).1
    ensures Distinct(t.reaped) && Distinct(t.exited)
    ensures forall b: nat :: b in t.exited <==> Gone(t.procs, t.birth, t.reaped, b)
  {
    ghost var v := See(t);
    SeenSound(t);
    log := [];
    for i := 0 to |events|
      invariant t.Valid() && |log| == i && Lawful(t.init, v, events, log) && See(t) == Before(v, log, i)
      invariant old(t.exited) <= t.exited && |t.exited| == |old(t.exited)| + Number(log).0
      invariant old(t.reaped) <= t.reaped && |t.reaped| == |old(t.reaped)| + Number(log).1
    {
      var e := Handle(t, events[i]);
      SeenSound(t);
      LawfulNext(t.init, v, events, log, e);
      log := log + [e];
    }
  }
}
