/** fork, exit, wait, sleep and wakeup of kernel/proc.c over the process table.  Kernel code
    is not preempted, so the code of a system call up to the next sleep is one step. */
module Proc {
  import opened Common

  const N_PROC := 10

  datatype Status = USED | RUNNING | RUNNABLE | SLEEPING | ZOMBIE | UNUSED

  /** What a process sleeps on: a process's own address, as wait does, or anything else. */
  datatype Chan = NoChan | ProcChan(p: nat) | OtherChan(id: nat)

  datatype Proc = Proc(status: Status, pid: nat, xstatus: int, killed: bool, parent: Option<nat>, chan: Chan)

  predicate Alive(p: Proc) {
    p.status != UNUSED && p.status != ZOMBIE
  }

  predicate Waiting(procs: seq<Proc>, p: nat) {
    p < |procs| && procs[p].status == SLEEPING && procs[p].chan == ProcChan(p)
  }

  predicate ChildOf(procs: seq<Proc>, q: nat, p: nat) {
    q < |procs| && procs[q].parent == Some(p)
  }

  /** A parent is always alive: children of the dead have been handed to init. */
  ghost predicate ParentOk(procs: seq<Proc>, birth: seq<nat>, init: nat, q: nat) {
    && |procs| == |birth| == N_PROC && q < N_PROC && init < N_PROC
    && (procs[q].parent.Some? ==> procs[q].parent.value < N_PROC && Alive(procs[procs[q].parent.value]))
    && (procs[q].status != UNUSED && q != init ==>
          procs[q].parent.Some? && birth[procs[q].parent.value] < birth[q] && birth[init] < birth[q])
    && (procs[q].status == SLEEPING && procs[q].chan.ProcChan? ==> procs[q].chan.p == q)
  }

  /** No exit is missed: who sleeps in wait has no zombie child. */
  ghost predicate NotMissed(procs: seq<Proc>, p: nat, q: nat) {
    Waiting(procs, p) && ChildOf(procs, q, p) ==> procs[q].status != ZOMBIE
  }

  /** Processes are told apart by when they were forked; a reaped one is gone for good. */
  ghost predicate BirthOk(procs: seq<Proc>, birth: seq<nat>, now: nat, reaped: seq<nat>, q: nat) {
    && |procs| == |birth| == N_PROC && q < N_PROC
    && (procs[q].status != UNUSED ==> birth[q] < now && birth[q] !in reaped)
    && forall r | 0 <= r < N_PROC && r != q && procs[q].status != UNUSED && procs[r].status != UNUSED ::
         birth[r] != birth[q]
  }

  ghost predicate Good(procs: seq<Proc>, init: nat, birth: seq<nat>, now: nat, reaped: seq<nat>) {
    && |procs| == |birth| == N_PROC && init < N_PROC
    && Alive(procs[init]) && procs[init].parent == None
    && (forall q: nat | q < N_PROC :: ParentOk(procs, birth, init, q))
    && (forall p: nat, q: nat :: NotMissed(procs, p, q))
    && (forall q: nat | q < N_PROC :: BirthOk(procs, birth, now, reaped, q))
    && Distinct(reaped) && (forall i | 0 <= i < |reaped| :: reaped[i] < now)
  }

  predicate ZombieOf(procs: seq<Proc>, birth: seq<nat>, q: nat, b: nat) {
    q < |procs| == |birth| && procs[q].status == ZOMBIE && birth[q] == b
  }

  ghost predicate Gone(procs: seq<Proc>, birth: seq<nat>, reaped: seq<nat>, b: nat) {
    b in reaped || exists q: nat :: ZombieOf(procs, birth, q, b)
  }

  /** Whoever exited is a zombie or was reaped, and nobody else is or was. */
  ghost predicate Fate(procs: seq<Proc>, birth: seq<nat>, exited: seq<nat>, reaped: seq<nat>) {
    && (forall b: nat :: b in exited <==> Gone(procs, birth, reaped, b))
    && Distinct(exited)
  }

  lemma FateKeep(procs: seq<Proc>, birth: seq<nat>, r: seq<Proc>, birth': seq<nat>, exited: seq<nat>, reaped: seq<nat>)
    requires Fate(procs, birth, exited, reaped) && |r| == |procs| == |birth| == |birth'|
    requires forall q | 0 <= q < |r| ::
               && (r[q].status == ZOMBIE <==> procs[q].status == ZOMBIE)
               && (r[q].status == ZOMBIE ==> birth'[q] == birth[q])
    ensures Fate(r, birth', exited, reaped)
  {
    forall b: nat
      ensures Gone(r, birth', reaped, b) <==> Gone(procs, birth, reaped, b)
    {
      if q: nat :| ZombieOf(procs, birth, q, b) { assert ZombieOf(r, birth', q, b); }
      if q: nat :| ZombieOf(r, birth', q, b) { assert ZombieOf(procs, birth, q, b); }
    }
  }

  lemma FateExit(procs: seq<Proc>, birth: seq<nat>, r: seq<Proc>, exited: seq<nat>, reaped: seq<nat>, p: nat)
    requires Fate(procs, birth, exited, reaped) && |r| == |procs| == |birth| && p < |r|
    requires procs[p].status != ZOMBIE && r[p].status == ZOMBIE && birth[p] !in reaped
    requires forall q | 0 <= q < |r| && q != p :: r[q].status == ZOMBIE <==> procs[q].status == ZOMBIE
    requires forall q | 0 <= q < |r| && q != p && procs[q].status == ZOMBIE :: birth[q] != birth[p]
    ensures Fate(r, birth, exited + [birth[p]], reaped)
  {
    assert ZombieOf(r, birth, p, birth[p]) && !Gone(procs, birth, reaped, birth[p]);
    forall b: nat
      ensures Gone(r, birth, reaped, b) <==> b == birth[p] || Gone(procs, birth, reaped, b)
    {
      if q: nat :| ZombieOf(procs, birth, q, b) { assert ZombieOf(r, birth, q, b); }
      if q: nat :| ZombieOf(r, birth, q, b) && q != p { assert ZombieOf(procs, birth, q, b); }
    }
  }

  lemma FateReap(procs: seq<Proc>, birth: seq<nat>, exited: seq<nat>, reaped: seq<nat>, q: nat)
    requires Fate(procs, birth, exited, reaped) && |procs| == |birth| && q < |procs| && procs[q].status == ZOMBIE
    ensures Fate(procs[q := Freed(procs[q])], birth, exited, reaped + [birth[q]])
  {
    var r, reaped' := procs[q := Freed(procs[q])], reaped + [birth[q]];
    assert ZombieOf(procs, birth, q, birth[q]);
    forall b: nat
      ensures Gone(r, birth, reaped', b) <==> Gone(procs, birth, reaped, b)
    {
      if x: nat :| ZombieOf(procs, birth, x, b) && x != q { assert ZombieOf(r, birth, x, b); }
      if x: nat :| ZombieOf(r, birth, x, b) { assert ZombieOf(procs, birth, x, b); }
    }
  }

  /** wakeup(chan) by process me. */
  function Woken(procs: seq<Proc>, chan: Chan, me: nat): (r: seq<Proc>)
    ensures |r| == |procs|
    ensures forall i | 0 <= i < |procs| :: r[i] == WokenOne(procs[i], chan, i == me)
  {
    seq(|procs|, i requires 0 <= i < |procs| => WokenOne(procs[i], chan, i == me))
  }

  function WokenOne(p: Proc, chan: Chan, me: bool): Proc {
    if !me && p.status == SLEEPING && p.chan == chan then p.(status := RUNNABLE) else p
  }

  predicate SleepsOn(p: Proc, chan: Chan) {
    p.status == SLEEPING && p.chan == chan
  }

  /** Whoever slept on the channel, but the caller, is runnable and else as before, and everybody else is as before. */
  ghost predicate Roused(procs: seq<Proc>, procs': seq<Proc>, chan: Chan, me: nat) {
    && |procs'| == |procs|
    && (forall i: nat | i < |procs| && i != me && SleepsOn(procs[i], chan) ::
          procs'[i] == procs[i].(status := RUNNABLE))
    && (forall i: nat | i < |procs| && (i == me || !SleepsOn(procs[i], chan)) :: procs'[i] == procs[i])
  }

  /** reparent(p) by p itself: its children become init's, and init wakes up if there are any. */
  ghost function Reparented(procs: seq<Proc>, p: nat, init: nat): (r: seq<Proc>)
    ensures |r| == |procs|
    ensures forall i | 0 <= i < |procs| :: r[i] == ReparentedOne(procs, p, init, i)
  {
    seq(|procs|, i requires 0 <= i < |procs| => ReparentedOne(procs, p, init, i))
  }

  ghost predicate HasKids(procs: seq<Proc>, p: nat) {
    exists q: nat :: ChildOf(procs, q, p)
  }

  ghost function ReparentedOne(procs: seq<Proc>, p: nat, init: nat, i: nat): Proc
    requires i < |procs|
  {
    var x := if HasKids(procs, p) then WokenOne(procs[i], ProcChan(init), i == p) else procs[i];
    if procs[i].parent == Some(p) then x.(parent := Some(init)) else x
  }

  ghost function Exited(procs: seq<Proc>, p: nat, init: nat, xstatus: int): (r: seq<Proc>)
    requires p < |procs| && procs[p].parent.Some?
    ensures |r| == |procs|
  {
    var r := Woken(Reparented(procs, p, init), ProcChan(procs[p].parent.value), p);
    r[p := r[p].(status := ZOMBIE, xstatus := xstatus)]
  }

  /** What exit does to each slot. */
  lemma ExitedOne(procs: seq<Proc>, p: nat, init: nat, xstatus: int, i: nat)
    requires p < |procs| && procs[p].parent.Some? && i < |procs| && procs[p].parent != Some(p)
    ensures
      var r := Exited(procs, p, init, xstatus)[i];
      && r.pid == procs[i].pid && r.killed == procs[i].killed && r.chan == procs[i].chan
      && r.parent == (if procs[i].parent == Some(p) then Some(init) else procs[i].parent)
      && (i == p ==> r.status == ZOMBIE && r.xstatus == xstatus)
      && (i != p ==> r.xstatus == procs[i].xstatus &&
                     (r.status == procs[i].status || (procs[i].status == SLEEPING && r.status == RUNNABLE)))
      && (i != p && procs[i].status == SLEEPING && procs[i].chan == ProcChan(procs[p].parent.value) ==>
            r.status == RUNNABLE)
      && (i != p && HasKids(procs, p) && procs[i].status == SLEEPING && procs[i].chan == ProcChan(init) ==>
            r.status == RUNNABLE)
  {
  }

  /** Before and after p exits: its children are init's, its parent and, if it had children, init are woken from
      wait, it is a zombie with this status, and nothing else has changed. */
  ghost predicate Departs(procs: seq<Proc>, procs': seq<Proc>, p: nat, init: nat, xstatus: int) {
    && |procs'| == |procs| && p < |procs| && procs[p].parent.Some?
    && forall i | 0 <= i < |procs| ::
         var x, above := procs[i], ProcChan(procs[p].parent.value);
         procs'[i] == x.(
           parent := if x.parent == Some(p) then Some(init) else x.parent,
           xstatus := if i == p then xstatus else x.xstatus,
           status :=
             if i == p then ZOMBIE
             else if x.status == SLEEPING && (x.chan == above || (x.chan == ProcChan(init) && HasKids(procs, p)))
             then RUNNABLE else x.status)
  }

  lemma ExitDeparts(procs: seq<Proc>, p: nat, init: nat, xstatus: int)
    requires p < |procs| && procs[p].parent.Some? && procs[p].parent != Some(p)
    ensures Departs(procs, Exited(procs, p, init, xstatus), p, init, xstatus)
  {
    var above := ProcChan(procs[p].parent.value);
    forall i | 0 <= i < |procs|
      ensures var x := procs[i];
        Exited(procs, p, init, xstatus)[i] == x.(
          parent := if x.parent == Some(p) then Some(init) else x.parent,
          xstatus := if i == p then xstatus else x.xstatus,
          status :=
            if i == p then ZOMBIE
            else if x.status == SLEEPING && (x.chan == above || (x.chan == ProcChan(init) && HasKids(procs, p)))
            then RUNNABLE else x.status)
    {
    }
  }

  lemma ExitGood(procs: seq<Proc>, init: nat, birth: seq<nat>, now: nat, reaped: seq<nat>, p: nat, xstatus: int)
    requires Good(procs, init, birth, now, reaped) && p < N_PROC && p != init && procs[p].status == RUNNING
    ensures procs[p].parent.Some? && procs[p].parent != Some(p)
    ensures Good(Exited(procs, p, init, xstatus), init, birth, now, reaped)
  {
    assert ParentOk(procs, birth, init, p);
    var r := Exited(procs, p, init, xstatus);
    ExitedOne(procs, p, init, xstatus, init);
    forall q: nat | q < N_PROC
      ensures ParentOk(r, birth, init, q)
    {
      assert ParentOk(procs, birth, init, q);
      ExitedOne(procs, p, init, xstatus, q);
      if r[q].parent.Some? { ExitedOne(procs, p, init, xstatus, r[q].parent.value); }
    }
    forall w: nat, q: nat
      ensures NotMissed(r, w, q)
    {
      if w < N_PROC && q < N_PROC {
        assert NotMissed(procs, w, q);
        ExitedOne(procs, p, init, xstatus, q);
        ExitedOne(procs, p, init, xstatus, w);
        if ChildOf(procs, q, p) { assert HasKids(procs, p); }
      }
    }
    forall q: nat | q < N_PROC
      ensures BirthOk(r, birth, now, reaped, q)
    {
      assert BirthOk(procs, birth, now, reaped, q);
      ExitedOne(procs, p, init, xstatus, q);
      forall x | 0 <= x < N_PROC
        ensures r[x].status == UNUSED <==> procs[x].status == UNUSED
      {
        ExitedOne(procs, p, init, xstatus, x);
      }
    }
  }

  lemma ExitFate(procs: seq<Proc>, init: nat, birth: seq<nat>, now: nat, exited: seq<nat>, reaped: seq<nat>,
                 p: nat, xstatus: int)
    requires Good(procs, init, birth, now, reaped) && Fate(procs, birth, exited, reaped)
    requires p < N_PROC && p != init && procs[p].status == RUNNING && procs[p].parent.Some?
    requires procs[p].parent != Some(p)
    ensures Fate(Exited(procs, p, init, xstatus), birth, exited + [birth[p]], reaped)
  {
    assert BirthOk(procs, birth, now, reaped, p);
    var r := Exited(procs, p, init, xstatus);
    forall q | 0 <= q < N_PROC
      ensures if q == p then r[q].status == ZOMBIE else r[q].status == ZOMBIE <==> procs[q].status == ZOMBIE
    {
      ExitedOne(procs, p, init, xstatus, q);
    }
    FateExit(procs, birth, r, exited, reaped, p);
  }

  /** A change of a slot that makes no process begin, end or change parents, and that puts a
      process to sleep in wait only for itself. */
  ghost predicate MinorAt(procs: seq<Proc>, r: seq<Proc>, i: nat) {
    && i < |procs| == |r|
    && r[i].parent == procs[i].parent
    && (r[i].status == UNUSED <==> procs[i].status == UNUSED) && (r[i].status == ZOMBIE <==> procs[i].status == ZOMBIE)
    && (r[i].status == SLEEPING && r[i].chan.ProcChan? ==> r[i].chan.p == i)
  }

  lemma MinorGood(procs: seq<Proc>, r: seq<Proc>, init: nat, birth: seq<nat>, now: nat, reaped: seq<nat>)
    requires Good(procs, init, birth, now, reaped) && |r| == N_PROC
    requires forall i: nat | i < N_PROC :: MinorAt(procs, r, i)
    requires forall p: nat, q: nat | Waiting(r, p) && !Waiting(procs, p) && ChildOf(procs, q, p) ::
      procs[q].status != ZOMBIE
    ensures Good(r, init, birth, now, reaped)
  {
    assert MinorAt(procs, r, init);
    forall q: nat | q < N_PROC
      ensures ParentOk(r, birth, init, q)
    {
      assert ParentOk(procs, birth, init, q) && MinorAt(procs, r, q);
      if r[q].parent.Some? { assert MinorAt(procs, r, r[q].parent.value); }
    }
    forall p: nat, q: nat
      ensures NotMissed(r, p, q)
    {
      if p < N_PROC && q < N_PROC { assert NotMissed(procs, p, q) && MinorAt(procs, r, q) && MinorAt(procs, r, p); }
    }
    forall q: nat | q < N_PROC
      ensures BirthOk(r, birth, now, reaped, q)
    {
      assert BirthOk(procs, birth, now, reaped, q) && MinorAt(procs, r, q);
      forall x | 0 <= x < N_PROC
        ensures r[x].status == UNUSED <==> procs[x].status == UNUSED
      {
        assert MinorAt(procs, r, x);
      }
    }
  }

  /** One slot changed in status, chan or killed. */
  lemma OneGood(procs: seq<Proc>, init: nat, birth: seq<nat>, now: nat, reaped: seq<nat>, p: nat, x: Proc)
    requires Good(procs, init, birth, now, reaped) && p < N_PROC && x.parent == procs[p].parent
    requires (x.status == UNUSED <==> procs[p].status == UNUSED) && (x.status == ZOMBIE <==> procs[p].status == ZOMBIE)
    requires x.status == SLEEPING && x.chan.ProcChan? ==> x.chan.p == p
    requires x.status == SLEEPING && x.chan == ProcChan(p) && !Waiting(procs, p) ==>
               forall q: nat | ChildOf(procs, q, p) :: procs[q].status != ZOMBIE
    ensures Good(procs[p := x], init, birth, now, reaped)
  {
    var r := procs[p := x];
    forall i: nat | i < N_PROC
      ensures MinorAt(procs, r, i)
    {
      assert ParentOk(procs, birth, init, i);
    }
    MinorGood(procs, r, init, birth, now, reaped);
  }

  lemma WokenGood(procs: seq<Proc>, init: nat, birth: seq<nat>, now: nat, reaped: seq<nat>, chan: Chan, me: nat)
    requires Good(procs, init, birth, now, reaped)
    ensures Good(Woken(procs, chan, me), init, birth, now, reaped)
  {
    var r := Woken(procs, chan, me);
    forall i: nat | i < N_PROC
      ensures MinorAt(procs, r, i)
    {
      assert ParentOk(procs, birth, init, i);
    }
    MinorGood(procs, r, init, birth, now, reaped);
  }

  /** freeproc: the slot can be used again; parent and chan are left as they were. */
  function Freed(p: Proc): Proc {
    p.(status := UNUSED, xstatus := 0, pid := 0, killed := false)
  }

  lemma ReapGood(procs: seq<Proc>, init: nat, birth: seq<nat>, now: nat, reaped: seq<nat>, q: nat)
    requires Good(procs, init, birth, now, reaped) && q < N_PROC && procs[q].status == ZOMBIE
    ensures Good(procs[q := Freed(procs[q])], init, birth, now, reaped + [birth[q]])
  {
    var r := procs[q := Freed(procs[q])];
    assert BirthOk(procs, birth, now, reaped, q);
    forall x: nat | x < N_PROC
      ensures ParentOk(r, birth, init, x)
    {
      assert ParentOk(procs, birth, init, x);
    }
    forall p: nat, x: nat
      ensures NotMissed(r, p, x)
    {
      if p < N_PROC && x < N_PROC { assert NotMissed(procs, p, x); }
    }
    forall x: nat | x < N_PROC
      ensures BirthOk(r, birth, now, reaped + [birth[q]], x)
    {
      assert BirthOk(procs, birth, now, reaped, x);
    }
  }

  lemma ForkGood(procs: seq<Proc>, init: nat, birth: seq<nat>, now: nat, reaped: seq<nat>, p: nat, n: nat, child: Proc)
    requires Good(procs, init, birth, now, reaped) && p < N_PROC && n < N_PROC
    requires procs[p].status == RUNNING && procs[n].status == UNUSED
    requires child.status == RUNNABLE && child.parent == Some(p)
    ensures Good(procs[n := child], init, birth[n := now], now + 1, reaped)
  {
    var r, birth', now' := procs[n := child], birth[n := now], now + 1;
    assert BirthOk(procs, birth, now, reaped, p) && BirthOk(procs, birth, now, reaped, init);
    forall x: nat | x < N_PROC
      ensures ParentOk(r, birth', init, x)
    {
      assert ParentOk(procs, birth, init, x) && BirthOk(procs, birth, now, reaped, x);
    }
    forall w: nat, x: nat
      ensures NotMissed(r, w, x)
    {
      if w < N_PROC && x < N_PROC { assert NotMissed(procs, w, x); }
    }
    forall x: nat | x < N_PROC
      ensures BirthOk(r, birth', now', reaped, x)
    {
      assert BirthOk(procs, birth, now, reaped, x);
      forall y | 0 <= y < N_PROC && procs[y].status != UNUSED
        ensures birth[y] < now
      {
        assert BirthOk(procs, birth, now, reaped, y);
      }
    }
  }

  /** When wait returns -1. */
  ghost predicate WaitFails(procs: seq<Proc>, p: nat, copyFails: bool)
    requires p < |procs|
  {
    if exists q: nat :: ChildOf(procs, q, p) && procs[q].status == ZOMBIE then copyFails
    else !HasKids(procs, p) || procs[p].killed
  }

  /** The comment above wait promises -1 when the caller has no children.  A childless process
      that was not killed gets it if and only if no unused slot still names it as parent. */
  lemma ChildlessWait(procs: seq<Proc>, p: nat, copyFails: bool)
    requires p < |procs| && !procs[p].killed
    requires forall q: nat | ChildOf(procs, q, p) :: procs[q].status == UNUSED
    ensures WaitFails(procs, p, copyFails) <==> forall q: nat :: !(ChildOf(procs, q, p) && procs[q].status == UNUSED)
  {
    if q: nat :| ChildOf(procs, q, p) { assert HasKids(procs, p); }
  }

  datatype WaitOut = Reaped(pid: nat, q: nat, status: int) | Failed | Slept

  class Table {
    var procs: seq<Proc>
    var nextpid: nat
    const init: nat
    ghost var birth: seq<nat>          // when each process was forked
    ghost var now: nat
    ghost var exited: seq<nat>         // births of the processes that exited, in order
    ghost var reaped: seq<nat>         // births of the processes waited for, in order

    ghost predicate Valid()
      reads this
    {
      Good(procs, init, birth, now, reaped) && Fate(procs, birth, exited, reaped)
    }

    /** After userinit: init alone, ready to run. */
    constructor ()
      ensures Valid() && init == 0 && reaped == [] && exited == []
      ensures forall q | 0 <= q < N_PROC ::
        procs[q] == Proc(if q == 0 then RUNNABLE else UNUSED, 0, 0, false, None, NoChan)
    {
      procs := seq(N_PROC, i => Proc(if i == 0 then RUNNABLE else UNUSED, 0, 0, false, None, NoChan));
      nextpid, init := 1, 0;
      birth, now, exited, reaped := seq(N_PROC, i => 0), 1, [], [];
    }

    /** wakeup */
    method Wakeup(chan: Chan, me: nat)
      modifies this`procs
      ensures procs == Woken(old(procs), chan, me) && Roused(old(procs), procs, chan, me)
    {
      var i := 0;
      while i < |procs|
        invariant 0 <= i <= |procs| == |old(procs)|
        invariant forall k | 0 <= k < i :: procs[k] == Woken(old(procs), chan, me)[k]
        invariant forall k | i <= k < |procs| :: procs[k] == old(procs)[k]
      {
        if i != me && procs[i].status == SLEEPING && procs[i].chan == chan {
          procs := procs[i := procs[i].(status := RUNNABLE)];
        }
        i := i + 1;
      }
    }

    /** reparent, by the exiting process p itself. */
    method Reparent(p: nat)
      modifies this`procs
      ensures procs == Reparented(old(procs), p, init)
    {
      var k := 0;
      ghost var found := false;
      while k < |procs|
        invariant 0 <= k <= |procs| == |old(procs)|
        invariant found ==> HasKids(old(procs), p)
        invariant !found ==> forall q: nat | q < k :: !ChildOf(old(procs), q, p)
        invariant forall x | 0 <= x < |procs| :: procs[x] == Handed(old(procs)[x], p, init, found, x == p, x < k)
      {
        if procs[k].parent == Some(p) {
          assert ChildOf(old(procs), k, p);
          procs := procs[k := procs[k].(parent := Some(init))];
          Wakeup(ProcChan(init), p);
          found := true;
        }
        k := k + 1;
      }
    }

    /** exit, by the running process p.  It is never init: the kernel panics on that. */
    method Exit(p: nat, xstatus: int)
      requires Valid() && p < N_PROC && p != init && procs[p].status == RUNNING
      modifies this`procs, this`exited
      ensures Valid() && old(procs)[p].parent.Some? && procs == Exited(old(procs), p, init, xstatus)
      ensures Departs(old(procs), procs, p, init, xstatus)
      ensures exited == old(exited) + [birth[p]]
    {
      ExitGood(procs, init, birth, now, reaped, p, xstatus);
      ExitDeparts(procs, p, init, xstatus);
      Reparent(p);
      assert procs[p].parent == old(procs)[p].parent;
      Wakeup(ProcChan(procs[p].parent.value), p);
      procs := procs[p := procs[p].(status := ZOMBIE, xstatus := xstatus)];
      ExitFate(old(procs), init, birth, now, exited, reaped, p, xstatus);
      exited := exited + [birth[p]];
    }

    /** wait, from its scan on: the first zombie child is reaped; with children but no zombie
        the caller sleeps; otherwise it fails.  It also fails where the status cannot be
        copied out. */
    method Wait(p: nat, copyFails: bool) returns (out: WaitOut)
      requires Valid() && p < N_PROC && procs[p].status == RUNNING
      modifies this`procs, this`reaped
      ensures Valid()
      ensures out.Reaped? ==>
        && out.q < N_PROC && ChildOf(old(procs), out.q, p) && old(procs)[out.q].status == ZOMBIE
        && out.pid == old(procs)[out.q].pid && out.status == old(procs)[out.q].xstatus
        && (forall q: nat | q < out.q && ChildOf(old(procs), q, p) :: old(procs)[q].status != ZOMBIE)
        && procs == old(procs)[out.q := Freed(old(procs)[out.q])] && reaped == old(reaped) + [birth[out.q]]
      ensures out == Slept ==>
        && HasKids(old(procs), p) && !procs[p].killed
        && (forall q: nat | ChildOf(old(procs), q, p) :: old(procs)[q].status != ZOMBIE)
        && procs == old(procs)[p := old(procs)[p].(status := SLEEPING, chan := ProcChan(p))] && reaped == old(reaped)
      ensures out == Failed ==> unchanged(this)
      ensures out == Failed <==> WaitFails(old(procs), p, copyFails)
    {
      var havekids := false;
      var q := 0;
      while q < N_PROC
        invariant 0 <= q <= N_PROC && procs == old(procs) && reaped == old(reaped)
        invariant havekids <==> exists x: nat :: x < q && ChildOf(procs, x, p)
        invariant forall x: nat | x < q && ChildOf(procs, x, p) :: procs[x].status != ZOMBIE
      {
        if procs[q].parent == Some(p) {
          assert ChildOf(procs, q, p);
          havekids := true;
          if procs[q].status == ZOMBIE {
            if copyFails { return Failed; }
            out := Reaped(procs[q].pid, q, procs[q].xstatus);
            ReapGood(procs, init, birth, now, reaped, q);
            FateReap(procs, birth, exited, reaped, q);
            procs := procs[q := Freed(procs[q])];
            reaped := reaped + [birth[q]];
            return;
          }
        }
        q := q + 1;
      }
      assert havekids <==> HasKids(procs, p);
      if !havekids || procs[p].killed { return Failed; }
      OneGood(procs, init, birth, now, reaped, p, procs[p].(status := SLEEPING, chan := ProcChan(p)));
      procs := procs[p := procs[p].(status := SLEEPING, chan := ProcChan(p))];
      FateKeep(old(procs), birth, procs, birth, exited, reaped);
      return Slept;
    }

    /** allocproc's scan: the first unused slot, or N_PROC. */
    method FindUnused() returns (n: nat)
      requires |procs| == N_PROC
      ensures n <= N_PROC && (n < N_PROC ==> procs[n].status == UNUSED)
      ensures forall i | 0 <= i < n :: procs[i].status != UNUSED
    {
      n := 0;
      while n < N_PROC
        invariant n <= N_PROC && forall i | 0 <= i < n :: procs[i].status != UNUSED
      {
        if procs[n].status == UNUSED { return; }
        n := n + 1;
      }
    }

    /** fork, by the running process p; memory may run out before or after the child has
        got its pid.  The pid, or -1. */
    method Fork(p: nat, noFrame: bool, noMemory: bool) returns (r: int, n: nat)
      requires Valid() && p < N_PROC && procs[p].status == RUNNING
      modifies this`procs, this`nextpid, this`birth, this`now
      ensures Valid() && n <= N_PROC && old(nextpid) <= nextpid <= old(nextpid) + 1
      ensures (r != -1 ==> nextpid == old(nextpid) + 1)
      ensures r == -1 <==> noFrame || noMemory || forall q | 0 <= q < N_PROC :: old(procs)[q].status != UNUSED
      ensures r == -1 ==> birth == old(birth) && now == old(now) && (n == N_PROC ==> procs == old(procs))
      ensures r == -1 && n < N_PROC ==> old(procs)[n].status == UNUSED && procs == old(procs)[n := Freed(old(procs)[n])]
      ensures forall q | 0 <= q < n :: old(procs)[q].status != UNUSED
      ensures r != -1 ==>
        && n < N_PROC && r == old(nextpid) && old(procs)[n].status == UNUSED
        && procs == old(procs)[n := old(procs)[n].(status := RUNNABLE, pid := old(nextpid), parent := Some(p))]
        && birth == old(birth)[n := old(now)] && now == old(now) + 1
    {
      n := FindUnused();
      if n == N_PROC { return -1, n; }
      OneGood(procs, init, birth, now, reaped, n, Freed(procs[n]));
      if noFrame {
        procs := procs[n := Freed(procs[n])];
        FateKeep(old(procs), birth, procs, birth, exited, reaped);
        return -1, n;
      }
      var pid := nextpid;
      nextpid := nextpid + 1;
      if noMemory {
        procs := procs[n := Freed(procs[n])];
        FateKeep(old(procs), birth, procs, birth, exited, reaped);
        return -1, n;
      }
      ForkGood(procs, init, birth, now, reaped, p, n, procs[n].(status := RUNNABLE, pid := pid, parent := Some(p)));
      procs := procs[n := procs[n].(status := RUNNABLE, pid := pid, parent := Some(p))];
      birth, now := birth[n := now], now + 1;
      FateKeep(old(procs), old(birth), procs, birth, exited, reaped);
      return pid, n;
    }

    /** The scheduler switches to a runnable process, which leaves sleep if it was in it. */
    method Dispatch(p: nat)
      requires Valid() && p < N_PROC && procs[p].status == RUNNABLE
      modifies this`procs
      ensures Valid() && procs == old(procs)[p := old(procs)[p].(status := RUNNING, chan := NoChan)]
    {
      OneGood(procs, init, birth, now, reaped, p, procs[p].(status := RUNNING, chan := NoChan));
      procs := procs[p := procs[p].(status := RUNNING, chan := NoChan)];
      FateKeep(old(procs), birth, procs, birth, exited, reaped);
    }

    /** yield */
    method Yield(p: nat)
      requires Valid() && p < N_PROC && procs[p].status == RUNNING
      modifies this`procs
      ensures Valid() && procs == old(procs)[p := old(procs)[p].(status := RUNNABLE)]
    {
      OneGood(procs, init, birth, now, reaped, p, procs[p].(status := RUNNABLE));
      procs := procs[p := procs[p].(status := RUNNABLE)];
      FateKeep(old(procs), birth, procs, birth, exited, reaped);
    }

    /** sleep outside wait: on a pipe, a buffer, the clock. */
    method Sleep(p: nat, id: nat)
      requires Valid() && p < N_PROC && procs[p].status == RUNNING
      modifies this`procs
      ensures Valid() && procs == old(procs)[p := old(procs)[p].(status := SLEEPING, chan := OtherChan(id))]
    {
      OneGood(procs, init, birth, now, reaped, p, procs[p].(status := SLEEPING, chan := OtherChan(id)));
      procs := procs[p := procs[p].(status := SLEEPING, chan := OtherChan(id))];
      FateKeep(old(procs), birth, procs, birth, exited, reaped);
    }

    /** wakeup from anywhere else in the kernel. */
    method Wake(id: nat, me: nat)
      requires Valid()
      modifies this`procs
      ensures Valid() && Roused(old(procs), procs, OtherChan(id), me)
    {
      WokenGood(procs, init, birth, now, reaped, OtherChan(id), me);
      Wakeup(OtherChan(id), me);
      FateKeep(old(procs), birth, procs, birth, exited, reaped);
    }

    /** kill: the first slot with that pid, in use or not. */
    method Kill(pid: nat) returns (r: int)
      requires Valid()
      modifies this`procs
      ensures Valid()
      ensures r == -1 ==> procs == old(procs) && forall i | 0 <= i < N_PROC :: procs[i].pid != pid
      ensures r != -1 ==> exists i: nat ::
        && i < N_PROC && old(procs)[i].pid == pid && (forall j | 0 <= j < i :: old(procs)[j].pid != pid)
        && procs == old(procs)[i := KilledOne(old(procs)[i])]
    {
      var i := 0;
      while i < N_PROC
        invariant 0 <= i <= N_PROC && procs == old(procs)
        invariant forall k | 0 <= k < i :: procs[k].pid != pid
      {
        if procs[i].pid == pid {
          OneGood(procs, init, birth, now, reaped, i, KilledOne(procs[i]));
          procs := procs[i := KilledOne(procs[i])];
          FateKeep(old(procs), birth, procs, birth, exited, reaped);
          return 0;
        }
        i := i + 1;
      }
      return -1;
    }
  }

  function KilledOne(p: Proc): Proc {
    p.(status := if p.status == SLEEPING then RUNNABLE else p.status, killed := true)
  }

  /** A slot while reparent is under way: woken if a child was found, handed over if passed. */
  function Handed(x: Proc, p: nat, init: nat, found: bool, me: bool, passed: bool): Proc {
    var y := if found then WokenOne(x, ProcChan(init), me) else x;
    if passed && x.parent == Some(p) then y.(parent := Some(init)) else y
  }

  /** q reaches init by n steps to the parent. */
  ghost predicate Descends(procs: seq<Proc>, init: nat, q: nat, n: nat)
    decreases n
  {
    if n == 0 then q == init
    else q < |procs| && procs[q].parent.Some? && Descends(procs, init, procs[q].parent.value, n - 1)
  }

  /** Processes form a tree rooted at init: each one's parents lead there through processes
      that are alive. */
  lemma {:induction false} Rooted(procs: seq<Proc>, init: nat, birth: seq<nat>, now: nat, reaped: seq<nat>, q: nat)
    returns (n: nat)
    requires Good(procs, init, birth, now, reaped) && q < N_PROC && procs[q].status != UNUSED
    ensures Descends(procs, init, q, n) && (n == 0 <==> q == init)
    decreases birth[q]
  {
    if q == init { return 0; }
    assert ParentOk(procs, birth, init, q);
    var m := Rooted(procs, init, birth, now, reaped, procs[q].parent.value);
    n := m + 1;
  }

  /** Slot 0 is init with the given status, and slot c its only child, past or present. */
  ghost predicate Family(procs: seq<Proc>, c: nat, init: Status, child: Status) {
    && |procs| == N_PROC && 0 < c < N_PROC && procs[0].status == init && !procs[0].killed
    && procs[c].status == child && procs[c].parent == Some(0)
    && forall q | 0 <= q < N_PROC && q != c :: procs[q].parent == None
  }

  /** From boot: init forks a child and the child exits ... */
  method ChildExits() returns (t: Table, c: nat)
    ensures fresh(t) && t.Valid() && t.init == 0 && Family(t.procs, c, RUNNING, ZOMBIE)
  {
    t := new Table();
    t.Dispatch(0);
    assert t.procs[1].status == UNUSED;
    var pid;
    pid, c := t.Fork(0, false, false);
    assert Family(t.procs, c, RUNNING, RUNNABLE);
    t.Yield(0);
    t.Dispatch(c);
    ghost var before := t.procs;
    assert Family(before, c, RUNNABLE, RUNNING);
    t.Exit(c, 0);
    forall q: nat | q < N_PROC
      ensures t.procs[q].parent == before[q].parent
    {
      ExitedOne(before, c, 0, 0, q);
    }
    ExitedOne(before, c, 0, 0, 0);
    ExitedOne(before, c, 0, 0, c);
    t.Dispatch(0);
  }

  /** ... init reaps it and waits once more.  It has no child left, and sleeps. */
  method ChildlessSleeps() returns (t: Table, out: WaitOut)
    ensures out == Slept && t.Valid() && Waiting(t.procs, 0)
    ensures forall q: nat | ChildOf(t.procs, q, 0) :: t.procs[q].status == UNUSED
  {
    var c;
    t, c := ChildExits();
    assert ChildOf(t.procs, c, 0);
    out := t.Wait(0, false);
    assert Family(t.procs, c, RUNNING, UNUSED);
    assert ChildOf(t.procs, c, 0) && HasKids(t.procs, 0);
    out := t.Wait(0, false);
  }
}
