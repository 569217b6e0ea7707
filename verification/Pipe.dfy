/** The pipes of kernel/pipe.c: a ring buffer between any number of reading and writing
    processes.  A stretch of kernel code from taking the lock to sleeping or returning runs
    undisturbed, so each method below is one step of the system. */
module Pipe {
  import opened Bytes

  const PIPESIZE := 512
  const U32 := 0x1_0000_0000

  /** How a step of piperead or pipewrite ends. */
  datatype Outcome = Slept | Returned(n: int)

  function Min(a: int, b: int): int {
    if a < b then a else b
  }

  lemma WrapIndex(n: nat)
    ensures n % U32 % PIPESIZE == n % PIPESIZE
    ensures (n + 1) % U32 == (n % U32 + 1) % U32
  {
  }

  /** 32-bit counters tell empty and full apart from each other and from the rest. */
  lemma WrapDistance(lo: nat, k: nat)
    requires k <= PIPESIZE
    ensures lo % U32 == (lo + k) % U32 <==> k == 0
    ensures (lo + k) % U32 == (lo % U32 + PIPESIZE) % U32 <==> k == PIPESIZE
  {
  }

  lemma IndexApart(a: nat, k: nat)
    requires 0 < k < PIPESIZE
    ensures a % PIPESIZE != (a + k) % PIPESIZE
  {
  }

  ghost predicate BufAt(buf: seq<byte>, sent: seq<byte>, k: nat) {
    |buf| == PIPESIZE && k < |sent| && buf[k % PIPESIZE] == sent[k]
  }

  /** The ring holds the bytes sent and not yet taken, the oldest first. */
  ghost predicate Holds(buf: seq<byte>, rd: nat, wt: nat, sent: seq<byte>, taken: nat) {
    && |buf| == PIPESIZE && taken <= |sent| <= taken + PIPESIZE
    && rd == taken % U32 && wt == |sent| % U32
    && forall k: nat | taken <= k < |sent| :: BufAt(buf, sent, k)
  }

  lemma Enqueued(buf: seq<byte>, rd: nat, wt: nat, sent: seq<byte>, taken: nat, ch: byte)
    requires Holds(buf, rd, wt, sent, taken) && |sent| < taken + PIPESIZE
    ensures Holds(buf[wt % PIPESIZE := ch], rd, (wt + 1) % U32, sent + [ch], taken)
  {
    WrapIndex(|sent|);
    var buf', sent' := buf[wt % PIPESIZE := ch], sent + [ch];
    forall k: nat | taken <= k < |sent'|
      ensures BufAt(buf', sent', k)
    {
      if k < |sent| {
        assert BufAt(buf, sent, k);
        IndexApart(k, |sent| - k);
      }
    }
  }

  lemma Dequeued(buf: seq<byte>, rd: nat, wt: nat, sent: seq<byte>, taken: nat)
    requires Holds(buf, rd, wt, sent, taken) && taken < |sent|
    ensures buf[rd % PIPESIZE] == sent[taken] && Holds(buf, (rd + 1) % U32, wt, sent, taken + 1)
  {
    WrapIndex(taken);
    assert BufAt(buf, sent, taken);
  }

  class Pipe {
    var readable: bool
    var writable: bool
    var rd: nat
    var wt: nat
    var buf: seq<byte>
    var asleepRd: set<nat>             // processes SLEEPING on &pi->rd
    var asleepWt: set<nat>             // processes SLEEPING on &pi->wt
    ghost var sent: seq<byte>          // every byte ever put in
    ghost var taken: nat               // how many of them were taken out

    /** What holds whenever the pipe's lock is free. */
    ghost predicate Valid()
      reads this
    {
      && Holds(buf, rd, wt, sent, taken)
      && (asleepRd != {} ==> taken == |sent| && writable)
      && (asleepWt != {} ==> |sent| == taken + PIPESIZE && readable)
    }

    /** pipealloc */
    constructor ()
      ensures Valid() && sent == [] && taken == 0 && readable && writable && asleepRd == {} && asleepWt == {}
    {
      readable, writable, rd, wt := true, true, 0, 0;
      buf := Zeros(PIPESIZE);
      asleepRd, asleepWt, sent, taken := {}, {}, [], 0;
    }

    /** pipeclose, up to giving the page back. */
    method Close(writeEnd: bool) returns (freed: bool)
      requires Valid()
      modifies this`readable, this`writable, this`asleepRd, this`asleepWt
      ensures Valid() && writable == (old(writable) && !writeEnd) && readable == (old(readable) && writeEnd)
      ensures asleepRd == (if writeEnd then {} else old(asleepRd))
      ensures asleepWt == (if writeEnd then old(asleepWt) else {})
      ensures freed == (!readable && !writable) && (freed ==> asleepRd == {} && asleepWt == {})
    {
      if writeEnd {
        writable := false;
        asleepRd := {};
      } else {
        readable := false;
        asleepWt := {};
      }
      freed := !readable && !writable;
    }

    /** piperead's copy loop.  The copy to the user faults after `room` bytes; the byte it
        faults on is taken and lost. */
    method Drain(n: int, room: nat) returns (data: seq<byte>, lost: seq<byte>)
      requires Holds(buf, rd, wt, sent, taken)
      modifies this`rd, this`taken
      ensures Holds(buf, rd, wt, sent, taken)
      ensures |data| == Min(if n < 0 then 0 else n, Min(room, |sent| - old(taken)))
      ensures taken == old(taken) + |data| + |lost| && data + lost == sent[old(taken)..taken]
      ensures |lost| == if |data| < n && |data| < |sent| - old(taken) then 1 else 0
    {
      data, lost := [], [];
      var i := 0;
      while i < n
        invariant 0 <= i == |data| <= (if n < 0 then 0 else n) && i <= room && taken == old(taken) + i && lost == []
        invariant Holds(buf, rd, wt, sent, taken) && data == sent[old(taken)..taken]
      {
        WrapDistance(taken, |sent| - taken);
        if rd == wt { break; }
        Dequeued(buf, rd, wt, sent, taken);
        var ch := buf[rd % PIPESIZE];
        rd := (rd + 1) % U32;
        taken := taken + 1;
        if i == room {
          lost := [ch];
          break;
        }
        data := data + [ch];
        i := i + 1;
      }
    }

    /** piperead, from its wait on: the process sleeps while the pipe is empty and some writer
        is left, and else takes what there is, up to n bytes. */
    method Read(pid: nat, n: int, room: nat, killed: bool)
      returns (out: Outcome, data: seq<byte>, lost: seq<byte>)
      requires Valid()
      modifies this`rd, this`asleepRd, this`asleepWt, this`taken
      ensures Valid() && taken == old(taken) + |data| + |lost| <= |sent| && data + lost == sent[old(taken)..taken]
      ensures out == Slept <==> old(taken) == |sent| && writable && !killed
      ensures out == Slept ==> taken == old(taken) && asleepRd == old(asleepRd) + {pid} && asleepWt == old(asleepWt)
      ensures out == Returned(-1) <==> old(taken) == |sent| && writable && killed
      ensures out == Returned(-1) ==> unchanged(this)
      ensures out != Slept && out != Returned(-1) ==>
        && out == Returned(|data|) && |data| == Min(if n < 0 then 0 else n, Min(room, |sent| - old(taken)))
        && |lost| == (if |data| < n && |data| < |sent| - old(taken) then 1 else 0)
        && asleepWt == {} && asleepRd == {}
    {
      WrapDistance(taken, |sent| - taken);
      if rd == wt && writable {
        if killed { return Returned(-1), [], []; }
        asleepRd := asleepRd + {pid};
        return Slept, [], [];
      }
      data, lost := Drain(n, room);
      asleepWt := {};
      return Returned(|data|), data, lost;
    }

    /** One byte enters the ring at the write cursor. */
    method Put(ch: byte)
      requires Holds(buf, rd, wt, sent, taken) && |sent| < taken + PIPESIZE
      modifies this`buf, this`wt, this`sent
      ensures Holds(buf, rd, wt, sent, taken) && sent == old(sent) + [ch]
    {
      Enqueued(buf, rd, wt, sent, taken, ch);
      buf := buf[wt % PIPESIZE := ch];
      wt := (wt + 1) % U32;
      sent := sent + [ch];
    }

    /** pipewrite, at its loop with i bytes done: the process sleeps when the pipe is full,
        waking the readers first.  The copy from the user faults at data[fault]. */
    method Write(pid: nat, data: seq<byte>, i: nat, fault: nat, killed: bool) returns (out: Outcome, done: nat)
      requires Valid() && i <= |data| && i <= fault
      modifies this`wt, this`buf, this`asleepRd, this`asleepWt, this`sent
      ensures Valid() && i <= done <= |data| && done <= fault
      ensures sent == old(sent) + data[i..done]
      ensures i < |data| && (!readable || killed) ==> out == Returned(-1) && done == i && unchanged(this)
      ensures !(i < |data| && (!readable || killed)) ==>
        && (out == Slept <==> done < |data| && |sent| == taken + PIPESIZE)
        && (out == Slept ==> asleepWt == old(asleepWt) + {pid})
        && (out != Slept ==> out == Returned(done) && done == Min(|data|, fault) && asleepWt == old(asleepWt))
        && asleepRd == {}
    {
      done := i;
      while done < |data|
        invariant i <= done <= |data| && done <= fault && Holds(buf, rd, wt, sent, taken)
        invariant sent == old(sent) + data[i..done]
        invariant if done == i then buf == old(buf) && wt == old(wt) else readable && !killed
        invariant asleepRd == old(asleepRd) && asleepWt == old(asleepWt)
        invariant asleepWt != {} ==> |sent| == taken + PIPESIZE && readable
      {
        if !readable || killed { return Returned(-1), done; }
        WrapDistance(taken, |sent| - taken);
        if wt == (rd + PIPESIZE) % U32 {
          asleepRd := {};
          asleepWt := asleepWt + {pid};
          return Slept, done;
        }
        if done == fault { break; }
        Put(data[done]);
        done := done + 1;
      }
      asleepRd := {};
      return Returned(done), done;
    }

    /** kill, as far as the pipe is concerned: a process asleep here becomes runnable. */
    method Rouse(pid: nat)
      requires Valid()
      modifies this`asleepRd, this`asleepWt
      ensures Valid() && asleepRd == old(asleepRd) - {pid} && asleepWt == old(asleepWt) - {pid}
    {
      asleepRd, asleepWt := asleepRd - {pid}, asleepWt - {pid};
    }
  }

  /** Whenever the lock is free, a sleeping reader means an empty pipe with a writer left and
      a sleeping writer a full one with a reader left, so never do both sides sleep. */
  lemma NeverBothAsleep(p: Pipe)
    requires p.Valid()
    ensures p.asleepRd != {} ==> p.rd == p.wt && p.writable
    ensures p.asleepWt != {} ==> p.wt == (p.rd + PIPESIZE) % U32 && p.readable
    ensures p.asleepRd == {} || p.asleepWt == {}
    ensures p.taken <= |p.sent| <= p.taken + PIPESIZE
  {
    WrapDistance(p.taken, |p.sent| - p.taken);
  }
}
