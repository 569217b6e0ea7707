/** Whole runs of a pipe of kernel/pipe.c by any number of processes: a log of what each step
    moved, a law of such logs that speaks of bytes and calls alone, and what it says of order. */
module PipeRun {
  import opened Bytes
  import opened Common
  import opened Pipe

  /** A process's next move: start a call, go on with one after waking up, be killed, close. */
  datatype Event =
    | StartRead(pid: nat, n: int, room: nat)
    | StartWrite(pid: nat, data: seq<byte>, fault: nat)
    | Resume(pid: nat, killed: bool)
    | Kill(pid: nat)
    | CloseEnd(writeEnd: bool)

  /** What a step of the call that event id started moved, and how the step ended: bytes a
      reader got and bytes it took and lost, or bytes a writer put in.  A process that has a
      call to finish first, none to go on with, or is asleep does nothing. */
  datatype Entry =
    | Took(id: nat, data: seq<byte>, lost: seq<byte>, out: Outcome)
    | Added(id: nat, data: seq<byte>, out: Outcome)
    | Nothing

  function Outward(e: Entry): seq<byte> {
    if e.Took? then e.data + e.lost else []
  }

  function Inward(e: Entry): seq<byte> {
    if e.Added? then e.data else []
  }

  /** All that left the pipe, in order. */
  function Left(log: seq<Entry>): seq<byte> {
    if log == [] then [] else Left(log[..|log| - 1]) + Outward(log[|log| - 1])
  }

  /** All that entered the pipe, in order. */
  function Entered(log: seq<Entry>): seq<byte> {
    if log == [] then [] else Entered(log[..|log| - 1]) + Inward(log[|log| - 1])
  }

  /** What call id alone put in. */
  function EnteredBy(log: seq<Entry>, id: nat): seq<byte> {
    if log == [] then [] else
      var rest, e := EnteredBy(log[..|log| - 1], id), log[|log| - 1];
      if e.Added? && e.id == id then rest + e.data else rest
  }

  predicate Moves(event: Event, pid: nat) {
    !event.CloseEnd? && !event.Kill? && event.pid == pid
  }

  /** The call a process has started and not finished. */
  function CallOf(events: seq<Event>, log: seq<Entry>, pid: nat): Option<nat>
    requires |log| <= |events|
  {
    if log == [] then None else
      var k := |log| - 1;
      if Moves(events[k], pid) && !log[k].Nothing? then
        (if log[k].out == Slept then Some(log[k].id) else None)
      else CallOf(events, log[..k], pid)
  }

  /** The pipe as a run finds it: how many bytes it holds, and which ends are open. */
  datatype Start = Start(level: nat, readable: bool, writable: bool)

  function Level(from: Start, log: seq<Entry>): int {
    from.level + |Entered(log)| - |Left(log)|
  }

  predicate ReaderLeft(from: Start, events: seq<Event>, k: nat)
    requires k <= |events|
  {
    from.readable && forall j | 0 <= j < k :: events[j] != CloseEnd(false)
  }

  predicate WriterLeft(from: Start, events: seq<Event>, k: nat)
    requires k <= |events|
  {
    from.writable && forall j | 0 <= j < k :: events[j] != CloseEnd(true)
  }

  /** A read waits while the pipe is empty and some writer is left.  Else it takes what there
      is, up to n bytes or the fault, and the byte it faults on is lost. */
  ghost predicate ReadMay(e: Entry, id: nat, n: int, room: nat, killed: bool, level: int, writer: bool) {
    e.Took? && e.id == id &&
    if level == 0 && writer then e.data == [] && e.lost == [] && e.out == (if killed then Returned(-1) else Slept)
    else
      && e.out == Returned(|e.data|) && |e.data| == Min(if n < 0 then 0 else n, Min(room, level))
      && |e.lost| == (if |e.data| < n && |e.data| < level then 1 else 0)
  }

  /** A write fails when no reader is left or its process was killed, and waits while the pipe
      is full; done is what it put in before.  Else it ends at the end of its data or at the fault. */
  ghost predicate WriteMay(e: Entry, id: nat, bytes: seq<byte>, fault: nat, done: nat, killed: bool, level: int,
                           reader: bool) {
    e.Added? && e.id == id && done <= |bytes| &&
    if done < |bytes| && (killed || !reader) then e.data == [] && e.out == Returned(-1)
    else
      var end := done + |e.data|;
      && end <= Min(|bytes|, fault) && e.data == bytes[done..end] && level + |e.data| <= PIPESIZE
      && (if end < |bytes| && level + |e.data| == PIPESIZE then e.out == Slept
          else end == Min(|bytes|, fault) && e.out == Returned(end))
  }

  /** A step of call id. */
  ghost predicate StepMay(from: Start, events: seq<Event>, log: seq<Entry>, id: nat, killed: bool, e: Entry)
    requires |log| < |events|
  {
    id < |events| &&
    match events[id]
    case StartRead(_, n, room) => ReadMay(e, id, n, room, killed, Level(from, log), WriterLeft(from, events, |log|))
    case StartWrite(_, bytes, fault) =>
      WriteMay(e, id, bytes, fault, |EnteredBy(log, id)|, killed, Level(from, log), ReaderLeft(from, events, |log|))
    case _ => false
  }

  /** What keeps call id asleep. */
  ghost predicate Stuck(from: Start, events: seq<Event>, log: seq<Entry>, id: nat)
    requires |log| < |events|
  {
    id < |events| &&
    if events[id].StartRead? then Level(from, log) == 0 && WriterLeft(from, events, |log|)
    else Level(from, log) == PIPESIZE && ReaderLeft(from, events, |log|)
  }

  /** What may come of the next event after log, told by the log alone.  A process inside a call
      goes on whenever it is scheduled, unless what it waits for is still missing. */
  ghost predicate May(from: Start, events: seq<Event>, log: seq<Entry>, e: Entry)
    requires |log| < |events|
  {
    var k := |log|;
    match events[k]
    case StartRead(pid, _, _) =>
      if CallOf(events, log, pid).Some? then e == Nothing else StepMay(from, events, log, k, false, e)
    case StartWrite(pid, _, _) =>
      if CallOf(events, log, pid).Some? then e == Nothing else StepMay(from, events, log, k, false, e)
    case Resume(pid, killed) =>
      var call := CallOf(events, log, pid);
      if call == None then e == Nothing
      else StepMay(from, events, log, call.value, killed, e) || (e == Nothing && Stuck(from, events, log, call.value))
    case _ => e == Nothing
  }

  ghost predicate MayAt(from: Start, events: seq<Event>, log: seq<Entry>, j: nat) {
    j < |log| && j < |events| && May(from, events, log[..j], log[j])
  }

  /** Every entry is one the log before it allows. */
  ghost predicate Lawful(from: Start, events: seq<Event>, log: seq<Entry>) {
    |log| <= |events| && forall j: nat | j < |log| :: MayAt(from, events, log, j)
  }

  lemma {:induction false} Appended(log: seq<Entry>, e: Entry, id: nat)
    ensures Left(log + [e]) == Left(log) + Outward(e) && Entered(log + [e]) == Entered(log) + Inward(e)
    ensures EnteredBy(log + [e], id) == if e.Added? && e.id == id then EnteredBy(log, id) + e.data else EnteredBy(log,
                      id)
  {
    assert (log + [e])[..|log|] == log;
  }

  lemma LawfulNext(from: Start, events: seq<Event>, log: seq<Entry>, e: Entry)
    requires Lawful(from, events, log) && |log| < |events| && May(from, events, log, e)
    ensures Lawful(from, events, log + [e])
  {
    forall j: nat | j < |log + [e]|
      ensures MayAt(from, events, log + [e], j)
    {
      if j < |log| { assert MayAt(from, events, log, j); }
      assert (log + [e])[..j] == log[..j];
      assert log[..|log|] == log;
    }
  }

  lemma Sooner(from: Start, events: seq<Event>, log: seq<Entry>, k: nat)
    requires Lawful(from, events, log) && k <= |log|
    ensures Lawful(from, events, log[..k])
  {
    forall j: nat | j < k
      ensures MayAt(from, events, log[..k], j)
    {
      assert MayAt(from, events, log, j);
      assert log[..k][..j] == log[..j];
    }
  }

  /** A writer's step goes on where the call's last one ended; a count it returns is all it put in. */
  ghost predicate Continues(events: seq<Event>, before: seq<byte>, e: Entry) {
    e.Added? && e.id < |events| && events[e.id].StartWrite? &&
    var end := |before| + |e.data|;
    && end <= |events[e.id].data| && e.data == events[e.id].data[|before|..end]
    && (e.out.Returned? && e.out.n >= 0 ==> e.out.n == end == Min(|events[e.id].data|, events[e.id].fault))
  }

  lemma MayAdded(from: Start, events: seq<Event>, log: seq<Entry>, j: nat)
    requires Lawful(from, events, log) && j < |log| && log[j].Added?
    ensures Continues(events, EnteredBy(log[..j], log[j].id), log[j])
  {
    assert MayAt(from, events, log, j);
  }

  /** What a write put in so far is a prefix of its data, and no other call put in anything. */
  ghost predicate WroteOwn(events: seq<Event>, log: seq<Entry>, id: nat) {
    if id < |events| && events[id].StartWrite? then EnteredBy(log, id) <= events[id].data else EnteredBy(log, id) == []
  }

  lemma Prefix(data: seq<byte>, head: seq<byte>, next: seq<byte>)
    requires head <= data && |head| + |next| <= |data| && next == data[|head|..|head| + |next|]
    ensures head + next == data[..|head| + |next|]
  {
  }

  lemma {:induction false} LawfulWrites(from: Start, events: seq<Event>, log: seq<Entry>, id: nat)
    requires Lawful(from, events, log)
    ensures WroteOwn(events, log, id)
  {
    if log != [] {
      var k := |log| - 1;
      var rest, e := log[..k], log[k];
      Sooner(from, events, log, k);
      LawfulWrites(from, events, rest, id);
      if e.Added? && e.id == id {
        MayAdded(from, events, log, k);
        Prefix(events[id].data, EnteredBy(rest, id), e.data);
      }
    }
  }

  /** A write that returned a count had put in that many bytes: all of its data, up to the fault. */
  lemma WriteCount(from: Start, events: seq<Event>, log: seq<Entry>, j: nat)
    requires Lawful(from, events, log) && j < |log| && log[j].Added? && log[j].out.Returned? && log[j].out.n >= 0
    ensures
      var id := log[j].id;
      && id < |events| && events[id].StartWrite? && log[j].out.n == Min(|events[id].data|, events[id].fault)
      && EnteredBy(log[..j + 1], id) == events[id].data[..log[j].out.n]
  {
    var rest, e := log[..j], log[j];
    MayAdded(from, events, log, j);
    Sooner(from, events, log, j);
    LawfulWrites(from, events, rest, e.id);
    Prefix(events[e.id].data, EnteredBy(rest, e.id), e.data);
    assert log[..j + 1] == rest + [e];
    Appended(rest, e, e.id);
  }

  /** All that readers were given, in order. */
  function Given(log: seq<Entry>): seq<byte> {
    if log == [] then [] else
      var rest, e := Given(log[..|log| - 1]), log[|log| - 1];
      if e.Took? then rest + e.data else rest
  }

  /** Step j is one of a read whose copy to the user faults before it has the n bytes asked for, with a byte
      left in the pipe to fault on. */
  ghost predicate Faults(from: Start, events: seq<Event>, log: seq<Entry>, j: nat) {
    && j < |log| && log[j].Took? && log[j].id < |events| && events[log[j].id].StartRead?
    && events[log[j].id].room < events[log[j].id].n && events[log[j].id].room < Level(from, log[..j])
  }

  lemma LostIff(from: Start, events: seq<Event>, log: seq<Entry>, j: nat)
    requires Lawful(from, events, log) && j < |log| && log[j].Took?
    ensures |log[j].lost| == if Faults(from, events, log, j) then 1 else 0
  {
    assert MayAt(from, events, log, j);
  }

  lemma FaultsSooner(from: Start, events: seq<Event>, log: seq<Entry>, k: nat, j: nat)
    requires k <= |log| && j < k
    ensures Faults(from, events, log[..k], j) == Faults(from, events, log, j)
  {
    assert log[..k][..j] == log[..j];
  }

  /** Exactly when readers are given all that leaves the pipe: when no read faults with a byte left.  Each
      that does loses one byte. */
  lemma {:induction false} GivenIff(from: Start, events: seq<Event>, log: seq<Entry>)
    requires Lawful(from, events, log)
    ensures |Given(log)| <= |Left(log)|
    ensures Given(log) == Left(log) <==> forall j: nat | j < |log| :: !Faults(from, events, log, j)
    ensures |Given(log)| == |Left(log)| ==> Given(log) == Left(log)
  {
    if log != [] {
      var k := |log| - 1;
      var rest, e := log[..k], log[k];
      Sooner(from, events, log, k);
      GivenIff(from, events, rest);
      if e.Took? { LostIff(from, events, log, k); }
      forall j: nat | j < k
        ensures Faults(from, events, rest, j) == Faults(from, events, log, j)
      {
        FaultsSooner(from, events, log, k, j);
      }
    }
  }

  /** A call in progress, as the process's kernel stack has it. */
  datatype Call = Reading(id: nat, n: int, room: nat) | Writing(id: nat, data: seq<byte>, i: nat, fault: nat)

  /** It is the call its event started, as far as the log has it. */
  ghost predicate CallOk(events: seq<Event>, log: seq<Entry>, c: Call) {
    c.id < |events| && match c
    case Reading(id, n, room) => events[id].StartRead? && n == events[id].n && room == events[id].room
    case Writing(id, data, i, fault) =>
      && events[id].StartWrite? && data == events[id].data && fault == events[id].fault
      && i <= |data| && i <= fault && EnteredBy(log, id) == data[..i]
  }

  /** The calls in progress are those the log leaves unfinished, each of one process. */
  ghost predicate Known(events: seq<Event>, log: seq<Entry>, calls: map<nat, Call>) {
    && |log| <= |events|
    && (forall pid: nat :: pid in calls <==> CallOf(events, log, pid).Some?)
    && (forall pid: nat | pid in calls :: CallOf(events, log, pid) == Some(calls[pid].id))
    && (forall pid: nat | pid in calls :: calls[pid].id < |log| && CallOk(events, log, calls[pid]))
    && (forall p: nat, q: nat | p in calls && q in calls && p != q :: calls[p].id != calls[q].id)
    && (forall id: nat | |log| <= id :: EnteredBy(log, id) == [])
  }

  /** Only processes inside a call are asleep, on the side their call waits for. */
  ghost predicate Accounts(rd: set<nat>, wt: set<nat>, calls: map<nat, Call>) {
    && (forall pid: nat | pid in rd :: pid in calls && calls[pid].Reading?)
    && (forall pid: nat | pid in wt :: pid in calls && calls[pid].Writing?)
  }

  /** A step puts nobody to sleep but its own process, on its own side. */
  ghost predicate Bedded(rd: set<nat>, wt: set<nat>, rd': set<nat>, wt': set<nat>, pid: nat, e: Entry) {
    && rd' <= rd + (if e.Took? && e.out == Slept then {pid} else {})
    && wt' <= wt + (if e.Added? && e.out == Slept then {pid} else {})
  }

  /** The calls after a step. */
  function After(calls: map<nat, Call>, pid: nat, e: Entry, c': Call): map<nat, Call> {
    if !e.Nothing? && e.out == Slept then calls[pid := c'] else calls - {pid}
  }

  lemma NextAccounts(rd: set<nat>, wt: set<nat>, rd': set<nat>, wt': set<nat>, calls: map<nat, Call>, pid: nat,
                     e: Entry, c': Call)
    requires Accounts(rd, wt, calls) && pid !in rd && pid !in wt && Bedded(rd, wt, rd', wt', pid, e)
    requires !e.Nothing? && (c'.Reading? <==> e.Took?)
    ensures Accounts(rd', wt', After(calls, pid, e, c'))
  {
  }

  /** Nothing came of an event. */
  lemma KnownStays(events: seq<Event>, log: seq<Entry>, calls: map<nat, Call>)
    requires Known(events, log, calls) && |log| < |events|
    ensures Known(events, log + [Nothing], calls)
  {
    var log' := log + [Nothing];
    assert log'[..|log|] == log;
    forall pid: nat | pid in calls
      ensures CallOk(events, log', calls[pid])
    {
      Appended(log, Nothing, calls[pid].id);
    }
    forall id: nat | |log'| <= id
      ensures EnteredBy(log', id) == []
    {
      Appended(log, Nothing, id);
    }
  }

  /** The process of the event took step e of its call. */
  lemma KnownNext(events: seq<Event>, log: seq<Entry>, calls: map<nat, Call>, pid: nat, e: Entry, c': Call)
    requires Known(events, log, calls) && |log| < |events| && Moves(events[|log|], pid) && !e.Nothing?
    requires e.id == c'.id <= |log| && CallOk(events, log + [e], c')
    requires forall q: nat | q in calls && q != pid :: calls[q].id != e.id
    ensures Known(events, log + [e], After(calls, pid, e, c'))
  {
    var log', calls' := log + [e], After(calls, pid, e, c');
    assert log'[..|log|] == log;
    forall q: nat
      ensures CallOf(events, log', q) ==
        if q == pid then (if e.out == Slept then Some(e.id) else None) else CallOf(events, log, q)
    {
      assert q != pid ==> !Moves(events[|log|], q);
    }
    forall q: nat | q in calls'
      ensures CallOk(events, log', calls'[q])
    {
      if q != pid {
        assert CallOk(events, log, calls[q]);
        Appended(log, e, calls[q].id);
      }
    }
    forall id: nat | |log'| <= id
      ensures EnteredBy(log', id) == []
    {
      Appended(log, e, id);
    }
  }

  /** What has passed through the pipe since it held sent0, of which taken0 bytes were out. */
  ghost predicate Passed(sent: seq<byte>, taken: nat, sent0: seq<byte>, taken0: nat, log: seq<Entry>) {
    && taken0 <= taken <= |sent| && taken0 <= |sent0|
    && sent == sent0 + Entered(log) && sent[taken0..taken] == Left(log)
  }

  lemma Carried(s: seq<byte>, s0: seq<byte>, x: seq<byte>, d: seq<byte>, lo: nat, mid: nat, hi: nat)
    requires s == s0 + x && lo <= mid <= |s| && mid <= hi <= |s| + |d|
    ensures s + d == s0 + (x + d) && (s + d)[lo..hi] == s[lo..mid] + (s + d)[mid..hi]
  {
  }

  lemma PassedOn(sent: seq<byte>, taken: nat, sent0: seq<byte>, taken0: nat, log: seq<Entry>, e: Entry, taken': nat)
    requires Passed(sent, taken, sent0, taken0, log) && taken <= taken' <= |sent + Inward(e)|
    requires (sent + Inward(e))[taken..taken'] == Outward(e)
    ensures Passed(sent + Inward(e), taken', sent0, taken0, log + [e])
  {
    Appended(log, e, 0);
    Carried(sent, sent0, Entered(log), Inward(e), taken0, taken, taken');
  }

  /** The pipe holds what has passed in and not out. */
  lemma PassedLevel(sent: seq<byte>, taken: nat, sent0: seq<byte>, taken0: nat, log: seq<Entry>, from: Start)
    requires Passed(sent, taken, sent0, taken0, log) && from.level == |sent0| - taken0
    ensures Level(from, log) == |sent| - taken
  {
    assert |sent[taken0..taken]| == taken - taken0;
  }

  lemma CallGrows(events: seq<Event>, log: seq<Entry>, c: Call, e: Entry)
    requires CallOk(events, log, c) && c.Writing? && e.Added? && e.id == c.id
    requires c.i + |e.data| <= Min(|c.data|, c.fault) && e.data == c.data[c.i..c.i + |e.data|]
    ensures CallOk(events, log + [e], c.(i := c.i + |e.data|))
  {
    Appended(log, e, c.id);
    assert c.data[..c.i] + e.data == c.data[..c.i + |e.data|];
  }

  /** Step e of a call with a pipe of this level and these ends, and the call after it. */
  ghost predicate GoMay(c: Call, killed: bool, level: int, reader: bool, writer: bool, e: Entry, c': Call) {
    match c
    case Reading(id, n, room) => c' == c && ReadMay(e, id, n, room, killed, level, writer)
    case Writing(id, data, i, fault) =>
      && e.Added? && c' == c.(i := i + |e.data|) && i + |e.data| <= fault
      && WriteMay(e, id, data, fault, i, killed, level, reader)
  }

  lemma GoStep(from: Start, events: seq<Event>, log: seq<Entry>, c: Call, killed: bool, e: Entry, c': Call)
    requires |log| < |events| && CallOk(events, log, c)
    requires GoMay(c, killed, Level(from, log), ReaderLeft(from, events, |log|), WriterLeft(from, events, |log|), e, c')
    ensures StepMay(from, events, log, c.id, killed, e) && CallOk(events, log + [e], c')
    ensures e.id == c'.id == c.id && !e.Nothing? && (c'.Reading? <==> e.Took?)
  {
    if c.Writing? { CallGrows(events, log, c, e); }
  }

  /** One step of a call, as the law has it. */
  method Go(p: Pipe, pid: nat, call: Call, killed: bool) returns (call': Call, e: Entry)
    requires p.Valid() && (call.Writing? ==> call.i <= |call.data| && call.i <= call.fault)
    modifies p
    ensures p.Valid() && p.readable == old(p.readable) && p.writable == old(p.writable)
    ensures GoMay(call, killed, old(|p.sent| - p.taken), p.readable, p.writable, e, call')
    ensures old(p.taken) <= p.taken <= |p.sent| && p.sent == old(p.sent) + Inward(e)
    ensures p.sent[old(p.taken)..p.taken] == Outward(e)
    ensures Bedded(old(p.asleepRd), old(p.asleepWt), p.asleepRd, p.asleepWt, pid, e)
  {
    match call
    case Reading(id, n, room) =>
      var out, data, lost := p.Read(pid, n, room, killed);
      call', e := call, Took(id, data, lost, out);
    case Writing(id, bytes, i, fault) =>
      var out, upto := p.Write(pid, bytes, i, fault, killed);
      call', e := Writing(id, bytes, upto, fault), Added(id, bytes[i..upto], out);
  }

  /** The pipe and the calls are as the log says. */
  ghost predicate Follows(p: Pipe, from: Start, events: seq<Event>, log: seq<Entry>, calls: map<nat, Call>,
                          sent0: seq<byte>, taken0: nat)
    reads p
  {
    && p.Valid() && Accounts(p.asleepRd, p.asleepWt, calls) && Known(events, log, calls)
    && Passed(p.sent, p.taken, sent0, taken0, log) && from.level == |sent0| - taken0
    && p.readable == ReaderLeft(from, events, |log|) && p.writable == WriterLeft(from, events, |log|)
  }

  lemma EndsStay(from: Start, events: seq<Event>, k: nat)
    requires k < |events| && !events[k].CloseEnd?
    ensures ReaderLeft(from, events, k + 1) == ReaderLeft(from, events, k)
    ensures WriterLeft(from, events, k + 1) == WriterLeft(from, events, k)
  {
  }

  /** What step e of a call makes of the log's account of the pipe and the calls. */
  lemma Turned(from: Start, events: seq<Event>, log: seq<Entry>, calls: map<nat, Call>, pid: nat, call: Call,
               killed: bool,
               e: Entry, call': Call, sent: seq<byte>, taken: nat, taken': nat, sent0: seq<byte>, taken0: nat)
    requires |log| < |events| && Moves(events[|log|], pid) && Known(events, log, calls) && CallOk(events, log, call)
    requires call.id <= |log| && (forall q: nat | q in calls && q != pid :: calls[q].id != call.id)
    requires Passed(sent, taken, sent0, taken0, log) && from.level == |sent0| - taken0
    requires GoMay(call, killed, |sent| - taken, ReaderLeft(from, events, |log|), WriterLeft(from, events, |log|), e,
                   call')
    requires taken <= taken' <= |sent + Inward(e)| && (sent + Inward(e))[taken..taken'] == Outward(e)
    ensures StepMay(from, events, log, call.id, killed, e) && !e.Nothing? && (call'.Reading? <==> e.Took?)
    ensures Known(events, log + [e], After(calls, pid, e, call'))
    ensures Passed(sent + Inward(e), taken', sent0, taken0, log + [e])
  {
    PassedLevel(sent, taken, sent0, taken0, log, from);
    GoStep(from, events, log, call, killed, e, call');
    KnownNext(events, log, calls, pid, e, call');
    PassedOn(sent, taken, sent0, taken0, log, e, taken');
  }

  /** A process takes a step of its call. */
  method Turn(p: Pipe, pid: nat, call: Call, killed: bool, calls: map<nat, Call>,
              ghost from: Start, ghost events: seq<Event>, ghost log: seq<Entry>,
              ghost sent0: seq<byte>, ghost taken0: nat)
    returns (calls': map<nat, Call>, e: Entry)
    requires Follows(p, from, events, log, calls, sent0, taken0) && pid !in p.asleepRd && pid !in p.asleepWt
    requires |log| < |events| && Moves(events[|log|], pid) && CallOk(events, log, call) && call.id <= |log|
    requires forall q: nat | q in calls && q != pid :: calls[q].id != call.id
    modifies p
    ensures Follows(p, from, events, log + [e], calls', sent0, taken0) && StepMay(from, events, log, call.id, killed, e)
  {
    ghost var sent, taken, rd, wt := p.sent, p.taken, p.asleepRd, p.asleepWt;
    var call';
    call', e := Go(p, pid, call, killed);
    Turned(from, events, log, calls, pid, call, killed, e, call', sent, taken, p.taken, sent0, taken0);
    EndsStay(from, events, |log|);
    calls' := After(calls, pid, e, call');
    NextAccounts(rd, wt, p.asleepRd, p.asleepWt, calls, pid, e, call');
  }

  /** The process of the event does nothing. */
  lemma FollowsIdle(p: Pipe, from: Start, events: seq<Event>, log: seq<Entry>, calls: map<nat, Call>, sent0: seq<byte>,
                    taken0: nat)
    requires Follows(p, from, events, log, calls, sent0, taken0) && |log| < |events| && !events[|log|].CloseEnd?
    ensures Follows(p, from, events, log + [Nothing], calls, sent0, taken0)
  {
    KnownStays(events, log, calls);
    assert p.sent + Inward(Nothing) == p.sent && p.sent[p.taken..p.taken] == [];
    PassedOn(p.sent, p.taken, sent0, taken0, log, Nothing, p.taken);
  }

  /** An event that moves no bytes: a process is killed, or an end of the pipe closed. */
  method Interrupt(p: Pipe, event: Event, calls: map<nat, Call>,
                   ghost from: Start, ghost events: seq<Event>, ghost log: seq<Entry>,
                   ghost sent0: seq<byte>, ghost taken0: nat)
    requires Follows(p, from, events, log, calls, sent0, taken0) && |log| < |events| && event == events[|log|]
    requires event.Kill? || event.CloseEnd?
    modifies p
    ensures Follows(p, from, events, log + [Nothing], calls, sent0, taken0)
  {
    KnownStays(events, log, calls);
    assert p.sent + Inward(Nothing) == p.sent && p.sent[p.taken..p.taken] == [];
    PassedOn(p.sent, p.taken, sent0, taken0, log, Nothing, p.taken);
    if event.Kill? {
      p.Rouse(event.pid);
    } else {
      var freed := p.Close(event.writeEnd);
    }
  }

  /** A process that was asleep has the reason still. */
  lemma AsleepStuck(p: Pipe, from: Start, events: seq<Event>, log: seq<Entry>, calls: map<nat, Call>, sent0: seq<byte>,
                    taken0: nat, pid: nat)
    requires Follows(p, from, events, log, calls, sent0, taken0) && |log| < |events|
    requires pid in p.asleepRd || pid in p.asleepWt
    ensures pid in calls && Stuck(from, events, log, calls[pid].id)
  {
    PassedLevel(p.sent, p.taken, sent0, taken0, log, from);
    assert CallOk(events, log, calls[pid]);
  }

  method Handle(p: Pipe, event: Event, k: nat, calls: map<nat, Call>,
                ghost from: Start, ghost events: seq<Event>, ghost log: seq<Entry>,
                ghost sent0: seq<byte>, ghost taken0: nat)
    returns (calls': map<nat, Call>, e: Entry)
    requires Follows(p, from, events, log, calls, sent0, taken0) && |log| == k < |events| && event == events[k]
    modifies p
    ensures Follows(p, from, events, log + [e], calls', sent0, taken0) && May(from, events, log, e)
  {
    calls', e := calls, Nothing;
    match event
    case StartRead(pid, n, room) =>
      if pid in calls {
        FollowsIdle(p, from, events, log, calls, sent0, taken0);
      } else {
        calls', e := Turn(p, pid, Reading(k, n, room), false, calls, from, events, log, sent0, taken0);
      }
    case StartWrite(pid, bytes, fault) =>
      if pid in calls {
        FollowsIdle(p, from, events, log, calls, sent0, taken0);
      } else {
        calls', e := Turn(p, pid, Writing(k, bytes, 0, fault), false, calls, from, events, log, sent0, taken0);
      }
    case Resume(pid, killed) =>
      if pid !in calls {
        FollowsIdle(p, from, events, log, calls, sent0, taken0);
      } else if pid in p.asleepRd || pid in p.asleepWt {
        AsleepStuck(p, from, events, log, calls, sent0, taken0, pid);
        FollowsIdle(p, from, events, log, calls, sent0, taken0);
      } else {
        calls', e := Turn(p, pid, calls[pid], killed, calls, from, events, log, sent0, taken0);
      }
    case _ => Interrupt(p, event, calls, from, events, log, sent0, taken0);
  }

  /** Any run with any number of processes.  The log is lawful, and first in, first out: what
      left the pipe is what was in it and then what the writers put in, as far as it went. */
  method Run(p: Pipe, events: seq<Event>) returns (log: seq<Entry>)
    requires p.Valid() && p.asleepRd == {} && p.asleepWt == {}
    modifies p
    ensures p.Valid() && |log| == |events|
    ensures Lawful(Start(old(|p.sent| - p.taken), old(p.readable), old(p.writable)), events, log)
    ensures old(p.taken) <= p.taken <= |p.sent| && p.sent == old(p.sent) + Entered(log)
    ensures p.sent[old(p.taken)..p.taken] == Left(log) <= old(p.sent)[old(p.taken)..] + Entered(log)
  {
    var calls: map<nat, Call> := map[];
    log := [];
    ghost var sent0, taken0 := p.sent, p.taken;
    ghost var from := Start(|p.sent| - p.taken, p.readable, p.writable);
    for k := 0 to |events|
      invariant |log| == k && Follows(p, from, events, log, calls, sent0, taken0) && Lawful(from, events, log)
    {
      var e;
      calls, e := Handle(p, events[k], k, calls, from, events, log, sent0, taken0);
      LawfulNext(from, events, log, e);
      log := log + [e];
    }
    assert p.sent[taken0..p.taken] <= p.sent[taken0..] == old(p.sent)[taken0..] + Entered(log);
  }

  /** One process writes a byte, another reads it into a buffer that faults at once, a third asks for a byte. */
  function FaultingRead(ch: byte): seq<Event> {
    [StartWrite(0, [ch], 1), StartRead(1, 1, 0), StartRead(2, 1, 1)]
  }

  lemma FirstStep(ch: byte, e: Entry)
    requires May(Start(0, true, true), FaultingRead(ch), [], e)
    ensures e == Added(0, [ch], Returned(1))
  {
    assert e.Added? && |e.data| <= 1;
    assert [ch][0..1] == [ch];
  }

  lemma SecondStep(ch: byte, log: seq<Entry>, e: Entry)
    requires log == [Added(0, [ch], Returned(1))] && May(Start(0, true, true), FaultingRead(ch), log, e)
    ensures e.Took? && |e.lost| == 1 && e == Took(1, [], e.lost, Returned(0))
  {
    assert log[..0] == [];
    assert Entered(log) == [ch] && Left(log) == [];
    assert CallOf(FaultingRead(ch), log, 1) == None;
  }

  lemma ThirdStep(ch: byte, log: seq<Entry>, x: seq<byte>, e: Entry)
    requires log == [Added(0, [ch], Returned(1)), Took(1, [], x, Returned(0))] && |x| == 1
    requires May(Start(0, true, true), FaultingRead(ch), log, e)
    ensures e == Took(2, [], [], Slept) && Left(log + [e]) == x && Entered(log + [e]) == [ch]
  {
    assert log[..1] == [log[0]] && log[..1][..0] == [];
    assert Entered(log[..1]) == [ch] && Left(log[..1]) == [];
    assert Entered(log) == [ch] && Left(log) == x;
    assert CallOf(FaultingRead(ch), log, 2) == CallOf(FaultingRead(ch), log[..1], 2) == None;
    Appended(log, e, 0);
  }

  lemma Steps(ch: byte, log: seq<Entry>)
    requires Lawful(Start(0, true, true), FaultingRead(ch), log) && |log| == 3 && Left(log) <= Entered(log)
    ensures log == [Added(0, [ch], Returned(1)), Took(1, [], [ch], Returned(0)), Took(2, [], [], Slept)]
  {
    ghost var from, events := Start(0, true, true), FaultingRead(ch);
    assert MayAt(from, events, log, 0) && MayAt(from, events, log, 1) && MayAt(from, events, log, 2);
    assert log[..0] == [] && log[..1] == [log[0]] && log[..2] == [log[0], log[1]] && log == log[..2] + [log[2]];
    FirstStep(ch, log[0]);
    SecondStep(ch, log[..1], log[1]);
    ThirdStep(ch, log[..2], log[1].lost, log[2]);
    assert log[1].lost == [ch];
  }

  /** A byte nobody gets: the read that faults takes it and returns 0, and the next reader waits for another. */
  method ByteLost(ch: byte) returns (log: seq<Entry>)
    ensures log == [Added(0, [ch], Returned(1)), Took(1, [], [ch], Returned(0)), Took(2, [], [], Slept)]
  {
    var p := new Pipe();
    ghost var held := p.sent[p.taken..];
    log := Run(p, FaultingRead(ch));
    assert held + Entered(log) == Entered(log);
    Steps(ch, log);
  }
}
