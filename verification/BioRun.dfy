/** Whole runs of the buffer cache of kernel/bio.c by any number of processes: a log of what
    each step gave, a law of such logs that speaks of blocks alone, and what it says of reads. */
module BioRun {
  import opened Common
  import opened Bio

  /** What a process may ask the cache to do next: bget up to the sleep lock, the rest of bread,
      a change in memory, bwrite, brelse. */
  datatype Act = Get | Read | Change(to: Data) | Write | Release
  datatype Step = Step(pid: nat, at: Place, act: Act)

  /** What came of it.  A process that may not take a step, or would still sleep, is refused.
      Getting a buffer can throw away a change that was never written to another block. */
  datatype Result = Refused | Panicked | Got(lost: Option<Place>) | Saw(data: Data) | Changed | Wrote(data: Data) | Left

  datatype Event = Event(step: Step, res: Result)

  /** Who is between bget and brelse on a block. */
  function Users(log: seq<Event>, at: Place): set<nat> {
    if log == [] then {} else
      var rest, e := Users(log[..|log| - 1], at), log[|log| - 1];
      if e.step.at != at then rest
      else if e.res.Got? then rest + {e.step.pid}
      else if e.res.Left? then rest - {e.step.pid}
      else rest
  }

  /** Who holds a block's buffer. */
  function Holder(log: seq<Event>, at: Place): Option<nat> {
    if log == [] then None else
      var e := log[|log| - 1];
      if e.step.at == at && e.res.Saw? then Some(e.step.pid)
      else if e.step.at == at && e.res.Left? then None
      else Holder(log[..|log| - 1], at)
  }

  /** A block was changed in memory, and the change neither written nor thrown away. */
  predicate Pending(log: seq<Event>, at: Place) {
    log != [] &&
    var e := log[|log| - 1];
    if e.res == Got(Some(at)) || (e.step.at == at && e.res.Wrote?) then false
    else (e.step.at == at && e.res.Changed?) || Pending(log[..|log| - 1], at)
  }

  /** What was last written to a block, or what the disk held at first. */
  function Written(log: seq<Event>, init: Disk, at: Place): Data
    requires at in init
  {
    if log == [] then init[at] else
      var e := log[|log| - 1];
      if e.step.at == at && e.res.Wrote? then e.res.data else Written(log[..|log| - 1], init, at)
  }

  /** What a block's users go by: the pending change, or what was last written. */
  function Current(log: seq<Event>, init: Disk, at: Place): Data
    requires at in init
  {
    if log == [] then init[at] else
      var e := log[|log| - 1];
      if e.res == Got(Some(at)) then Written(log, init, at)
      else if e.step.at == at && e.res.Wrote? then e.res.data
      else if e.step.at == at && e.res.Changed? && e.step.act.Change? then e.step.act.to
      else Current(log[..|log| - 1], init, at)
  }

  /** The blocks somebody uses. */
  function InUse(log: seq<Event>): set<Place> {
    if log == [] then {} else
      var rest, at := InUse(log[..|log| - 1]), log[|log| - 1].step.at;
      if Users(log, at) == {} then rest - {at} else rest + {at}
  }

  /** The blocks in the buffers, the one released last first; None for a buffer not used yet. */
  type Shelf = seq<Option<Place>>

  function IndexOf(shelf: Shelf, x: Option<Place>): (i: nat)
    ensures i <= |shelf| && (i < |shelf| ==> shelf[i] == x) && (i == |shelf| ==> x !in shelf)
  {
    if shelf == [] then 0 else if shelf[0] == x then 0 else 1 + IndexOf(shelf[1..], x)
  }

  /** The shelf with its i-th entry brought to the front. */
  function Ahead(shelf: Shelf, i: nat): Shelf
    requires i < |shelf|
  {
    [shelf[i]] + shelf[..i] + shelf[i + 1..]
  }

  predicate Spare(log: seq<Event>, x: Option<Place>) {
    x == None || Users(log, x.value) == {}
  }

  /** The buffer that bget recycles: of those nobody uses, the one released longest ago; -1 if there is none. */
  function Oldest(log: seq<Event>, shelf: Shelf): (i: int)
    ensures -1 <= i < |shelf| && (i >= 0 ==> Spare(log, shelf[i]))
    ensures forall j | i < j < |shelf| :: !Spare(log, shelf[j])
  {
    if shelf == [] then -1
    else if Spare(log, shelf[|shelf| - 1]) then |shelf| - 1
    else Oldest(log, shelf[..|shelf| - 1])
  }

  /** The shelf after a run that found it as from: bget of a block that is not there puts it in the place of the
      oldest spare one, and the last release of a block brings it to the front. */
  function Shelved(from: Shelf, log: seq<Event>): (shelf: Shelf)
    ensures |shelf| == |from|
  {
    if log == [] then from else
      var rest, e := log[..|log| - 1], log[|log| - 1];
      var shelf, at := Shelved(from, rest), Some(e.step.at);
      if e.res.Got? && at !in shelf && Oldest(rest, shelf) >= 0 then shelf[Oldest(rest, shelf) := at]
      else if e.res.Left? && at in shelf && Users(log, e.step.at) == {} then Ahead(shelf, IndexOf(shelf, at))
      else shelf
  }

  /** The change that getting a block throws away: that of the block on the buffer it is given. */
  function Lost(from: Shelf, log: seq<Event>, at: Place): Option<Place> {
    var shelf := Shelved(from, log);
    var i := Oldest(log, shelf);
    if Some(at) in shelf || i < 0 || shelf[i] == None || !Pending(log, shelf[i].value) then None else shelf[i]
  }

  /** What may come of a step after log, told by the log alone. */
  ghost predicate May(init: Disk, from: Shelf, log: seq<Event>, e: Event) {
    var Event(Step(pid, at, act), res) := e;
    match act
    case Get =>
      if at.0 == 0 || at !in init || pid in Users(log, at) then res == Refused
      else if at !in InUse(log) && |InUse(log)| == NBUF then res == Panicked
      else res == Got(Lost(from, log, at))
    case Read =>
      if pid !in Users(log, at) || Holder(log, at) != None || at !in init then res == Refused
      else res == Saw(Current(log, init, at))
    case Change(to) => res == if Holder(log, at) == Some(pid) then Changed else Refused
    case Write =>
      if Holder(log, at) != Some(pid) || at !in init then res == Refused else res == Wrote(Current(log, init, at))
    case Release => res == if Holder(log, at) == Some(pid) then Left else Refused
  }

  ghost predicate MayAt(init: Disk, from: Shelf, log: seq<Event>, j: nat) {
    j < |log| && May(init, from, log[..j], log[j])
  }

  /** Every event is one the log before it allows. */
  ghost predicate Lawful(init: Disk, from: Shelf, log: seq<Event>) {
    forall j: nat | j < |log| :: MayAt(init, from, log, j)
  }

  /** Nobody let go of a block with its change unwritten. */
  ghost predicate Neat(log: seq<Event>) {
    forall j: nat | j < |log| && log[j].res == Left :: !Pending(log[..j], log[j].step.at)
  }

  lemma {:induction false} InUseIff(log: seq<Event>, at: Place)
    ensures at in InUse(log) <==> Users(log, at) != {}
  {
    if log != [] { InUseIff(log[..|log| - 1], at); }
  }

  /** An event says nothing of other blocks, but for the change it throws away. */
  lemma {:induction false} Elsewhere(log: seq<Event>, e: Event, at: Place)
    requires e.step.at != at || e.res == Refused || e.res == Panicked
    ensures Users(log + [e], at) == Users(log, at) && Holder(log + [e], at) == Holder(log, at)
    ensures Pending(log + [e], at) == (Pending(log, at) && e.res != Got(Some(at)))
    ensures forall init: Disk | at in init :: Written(log + [e], init, at) == Written(log, init, at)
    ensures e.res != Got(Some(at)) ==>
      forall init: Disk | at in init :: Current(log + [e], init, at) == Current(log, init, at)
  {
    assert (log + [e])[..|log|] == log;
  }

  /** With nothing pending, users go by what was last written. */
  lemma {:induction false} NotPending(log: seq<Event>, init: Disk, at: Place)
    requires at in init && !Pending(log, at)
    ensures Current(log, init, at) == Written(log, init, at)
  {
    if log != [] {
      var e := log[|log| - 1];
      if e.res != Got(Some(at)) && !(e.step.at == at && e.res.Wrote?) { NotPending(log[..|log| - 1], init, at); }
    }
  }

  lemma Sooner(log: seq<Event>, n: nat, init: Disk, from: Shelf)
    requires n <= |log|
    ensures Lawful(init, from, log) ==> Lawful(init, from, log[..n])
    ensures Neat(log) ==> Neat(log[..n])
  {
    forall j: nat | j < n
      ensures log[..n][..j] == log[..j] && log[..n][j] == log[j]
      ensures MayAt(init, from, log[..n], j) <==> MayAt(init, from, log, j)
    {
      assert log[..n][..j] == log[..j];
    }
  }

  /** When changes are written before blocks are let go of, only a holder has one pending. */
  lemma {:induction false} NeatPending(log: seq<Event>, init: Disk, from: Shelf, at: Place)
    requires Lawful(init, from, log) && Neat(log) && Pending(log, at)
    ensures Holder(log, at).Some?
  {
    var n := |log| - 1;
    var rest, e := log[..n], log[n];
    assert MayAt(init, from, log, n);
    Sooner(log, n, init, from);
    if Pending(rest, at) { NeatPending(rest, init, from, at); }
  }

  /** A block's holder is one of its users. */
  lemma {:induction false} HolderUses(log: seq<Event>, init: Disk, from: Shelf, at: Place)
    requires Lawful(init, from, log)
    ensures Holder(log, at).Some? ==> Holder(log, at).value in Users(log, at)
  {
    if log != [] {
      var n := |log| - 1;
      var rest := log[..n];
      assert MayAt(init, from, log, n);
      Sooner(log, n, init, from);
      HolderUses(rest, init, from, at);
    }
  }

  /** The point of the cache.  If every brelse follows a bwrite of what was changed, bread gives
      the data of the last bwrite to the block, or what the disk held at first, and recycling
      a buffer loses nothing. */
  lemma {:induction false} LastWritten(log: seq<Event>, init: Disk, from: Shelf, j: nat)
    requires Lawful(init, from, log) && j < |log| && Neat(log[..j])
    ensures log[j].res.Saw? ==> log[j].step.at in init && log[j].res.data == Written(log[..j], init, log[j].step.at)
    ensures log[j].res.Got? ==> log[j].res.lost == None
  {
    var rest, e := log[..j], log[j];
    assert MayAt(init, from, log, j);
    Sooner(log, j, init, from);
    if e.res.Saw? {
      if Pending(rest, e.step.at) { NeatPending(rest, init, from, e.step.at); }
      NotPending(rest, init, e.step.at);
    }
    if e.res.Got? && e.res.lost.Some? {
      var q := e.res.lost.value;
      NeatPending(rest, init, from, q);
      HolderUses(rest, init, from, q);
    }
  }

  /** The last change anybody made to a block, or what the disk held at first. */
  function Latest(log: seq<Event>, init: Disk, at: Place): Data
    requires at in init
  {
    if log == [] then init[at] else
      var e := log[|log| - 1];
      if e.step.at == at && e.res.Changed? && e.step.act.Change? then e.step.act.to
      else Latest(log[..|log| - 1], init, at)
  }

  /** The last change to a block was thrown away: its buffer went to another block before a bwrite. */
  predicate Thrown(log: seq<Event>, at: Place) {
    log != [] &&
    var e := log[|log| - 1];
    e.res == Got(Some(at)) || (!(e.step.at == at && e.res.Changed?) && Thrown(log[..|log| - 1], at))
  }

  /** A block's users go by the last change unless it was thrown away, and then by what was last written. */
  lemma {:induction false} ThrownBack(log: seq<Event>, init: Disk, from: Shelf, at: Place)
    requires Lawful(init, from, log) && at in init
    ensures Current(log, init, at) == if Thrown(log, at) then Written(log, init, at) else Latest(log, init, at)
  {
    if log != [] {
      var n := |log| - 1;
      assert MayAt(init, from, log, n);
      Sooner(log, n, init, from);
      ThrownBack(log[..n], init, from, at);
    }
  }

  /** Exactly when bread does not give the last change to the block: it was thrown away, and the disk has
      something else. */
  lemma {:induction false} ReadsLatestIff(log: seq<Event>, init: Disk, from: Shelf, j: nat)
    requires Lawful(init, from, log) && j < |log| && log[j].res.Saw?
    ensures
      var at, rest := log[j].step.at, log[..j];
      && at in init
      && (log[j].res.data != Latest(rest, init, at) <==>
          Thrown(rest, at) && Written(rest, init, at) != Latest(rest, init, at))
      && (Thrown(rest, at) ==> log[j].res.data == Written(rest, init, at))
  {
    assert MayAt(init, from, log, j);
    Sooner(log, j, init, from);
    ThrownBack(log[..j], init, from, log[j].step.at);
  }

  lemma LawfulNext(init: Disk, from: Shelf, log: seq<Event>, e: Event)
    requires Lawful(init, from, log) && May(init, from, log, e)
    ensures Lawful(init, from, log + [e])
  {
    var log' := log + [e];
    assert log'[..|log|] == log;
    forall j: nat | j < |log|
      ensures MayAt(init, from, log', j) <==> MayAt(init, from, log, j)
    {
      assert log'[..j] == log[..j] && log'[j] == log[j];
    }
  }

  /** A buffer and what the log says of its block. */
  ghost predicate BufTracks(x: Buf, users: set<nat>, holder: Option<nat>, dirty: bool, init: Disk, log: seq<Event>) {
    if x.dev == 0 then users == {} && holder == None && !dirty else
      && Key(x) in init && users == Users(log, Key(x)) && holder == Holder(log, Key(x)) && dirty == Pending(log, Key(x))
      && (x.valid ==> x.data == Current(log, init, Key(x))) && (holder.Some? ==> x.valid)
  }

  ghost predicate Away(buf: seq<Buf>, at: Place) {
    forall b | 0 <= b < |buf| :: Key(buf[b]) != at
  }

  /** Of a block that is not cached the log says that nobody has it. */
  ghost predicate Idle(log: seq<Event>, at: Place) {
    Users(log, at) == {} && Holder(log, at) == None && !Pending(log, at)
  }

  ghost predicate DiskTracks(disk: Disk, init: Disk, log: seq<Event>) {
    disk.Keys == init.Keys && forall at | at in init :: disk[at] == Written(log, init, at)
  }

  ghost predicate Tracks(buf: seq<Buf>, holder: seq<Option<nat>>, users: seq<set<nat>>, dirty: seq<bool>,
                         init: Disk, log: seq<Event>) {
    && |buf| == |holder| == |users| == |dirty| == NBUF && Unique(buf)
    && (forall b | 0 <= b < NBUF :: BufTracks(buf[b], users[b], holder[b], dirty[b], init, log))
    && (forall at: Place | at.0 == 0 || Away(buf, at) :: Idle(log, at))
  }

  /** A refused step changes nothing. */
  lemma RefusedTracks(buf: seq<Buf>, holder: seq<Option<nat>>, users: seq<set<nat>>, dirty: seq<bool>,
                      disk: Disk, init: Disk, log: seq<Event>, e: Event)
    requires Tracks(buf, holder, users, dirty, init, log) && DiskTracks(disk, init, log)
    requires e.res == Refused || e.res == Panicked
    ensures Tracks(buf, holder, users, dirty, init, log + [e]) && DiskTracks(disk, init, log + [e])
  {
    forall at: Place
      ensures Idle(log + [e], at) == Idle(log, at)
    {
      Elsewhere(log, e, at);
    }
    forall at | at in init
      ensures Written(log + [e], init, at) == Written(log, init, at)
    {
      Elsewhere(log, e, at);
    }
    forall b | 0 <= b < NBUF
      ensures BufTracks(buf[b], users[b], holder[b], dirty[b], init, log + [e])
    {
      Elsewhere(log, e, Key(buf[b]));
    }
  }

  /** Other buffers take no notice of a step on the block in buffer b. */
  lemma OthersTrack(buf: seq<Buf>, holder: seq<Option<nat>>, users: seq<set<nat>>, dirty: seq<bool>,
                    init: Disk, log: seq<Event>, b: nat, c: nat, e: Event)
    requires Tracks(buf, holder, users, dirty, init, log) && b < NBUF && c < NBUF && c != b
    requires Key(buf[b]) == e.step.at && buf[b].dev != 0 && (e.res.Got? ==> e.res.lost == None)
    ensures Key(buf[c]) != Key(buf[b]) && BufTracks(buf[c], users[c], holder[c], dirty[c], init, log + [e])
  {
    assert BufTracks(buf[c], users[c], holder[c], dirty[c], init, log);
    Elsewhere(log, e, Key(buf[c]));
  }

  lemma SameKeys(buf: seq<Buf>, b: nat, x: Buf)
    requires Unique(buf) && b < |buf| && Key(buf[b]) == Key(x)
    ensures Unique(buf[b := x])
  {
    assert forall c | 0 <= c < |buf| :: Key(buf[b := x][c]) == Key(buf[c]);
  }

  lemma AwayStays(buf: seq<Buf>, b: nat, x: Buf, at: Place)
    requires b < |buf| && Key(buf[b]) == Key(x) && Away(buf[b := x], at)
    ensures Away(buf, at) && at != Key(x)
  {
    assert buf[b := x][b] == x;
    forall c | 0 <= c < |buf|
      ensures Key(buf[c]) != at
    {
      assert Key(buf[b := x][c]) != at;
    }
  }

  /** A step on the block in buffer b. */
  lemma StepTracks(buf: seq<Buf>, holder: seq<Option<nat>>, users: seq<set<nat>>, dirty: seq<bool>,
                   init: Disk, log: seq<Event>, b: nat, x: Buf, u: set<nat>, h: Option<nat>, d: bool, e: Event)
    requires Tracks(buf, holder, users, dirty, init, log) && b < NBUF && Key(buf[b]) == Key(x) == e.step.at
    requires x.dev != 0
    requires (e.res.Got? ==> e.res.lost == None) && BufTracks(x, u, h, d, init, log + [e])
    ensures Tracks(buf[b := x], holder[b := h], users[b := u], dirty[b := d], init, log + [e])
  {
    SameKeys(buf, b, x);
    var buf', holder', users', dirty' := buf[b := x], holder[b := h], users[b := u], dirty[b := d];
    forall c | 0 <= c < NBUF
      ensures BufTracks(buf'[c], users'[c], holder'[c], dirty'[c], init, log + [e])
    {
      if c != b { OthersTrack(buf, holder, users, dirty, init, log, b, c, e); }
    }
    forall at: Place | at.0 == 0 || Away(buf', at)
      ensures Idle(log + [e], at)
    {
      if at.0 != 0 { AwayStays(buf, b, x, at); }
      assert Idle(log, at);
      Elsewhere(log, e, at);
    }
  }

  lemma DiskStays(disk: Disk, init: Disk, log: seq<Event>, e: Event)
    requires DiskTracks(disk, init, log) && !e.res.Wrote?
    ensures DiskTracks(disk, init, log + [e])
  {
    assert (log + [e])[..|log|] == log;
  }

  lemma DiskTakes(disk: Disk, init: Disk, log: seq<Event>, e: Event)
    requires DiskTracks(disk, init, log) && e.res.Wrote? && e.step.at in init
    ensures DiskTracks(disk[e.step.at := e.res.data], init, log + [e])
  {
    assert (log + [e])[..|log|] == log;
  }

  /** Buffer b, free until now, is recycled for a block that is not cached. */
  lemma MissTracks(buf: seq<Buf>, holder: seq<Option<nat>>, users: seq<set<nat>>, dirty: seq<bool>,
                   init: Disk, log: seq<Event>, b: nat, x: Buf, e: Event)
    requires Tracks(buf, holder, users, dirty, init, log) && b < NBUF && users[b] == {} && holder[b] == None
    requires Away(buf, e.step.at) && Key(x) == e.step.at && x.dev != 0 && !x.valid && Key(x) in init
    requires e.res == Got(if dirty[b] then Some(Key(buf[b])) else None)
    ensures Tracks(buf[b := x], holder, users[b := {e.step.pid}], dirty[b := false], init, log + [e])
  {
    var at := e.step.at;
    assert (log + [e])[..|log|] == log;
    assert Idle(log, at);
    forall c | 0 <= c < NBUF && c != b
      ensures BufTracks(buf[c], users[c], holder[c], dirty[c], init, log + [e])
    {
      assert BufTracks(buf[c], users[c], holder[c], dirty[c], init, log);
      Elsewhere(log, e, Key(buf[c]));
    }
    forall q: Place | q.0 == 0 || Away(buf[b := x], q)
      ensures Idle(log + [e], q)
    {
      assert buf[b := x][b] == x;
      if q.0 != 0 && q != Key(buf[b]) {
        forall c | 0 <= c < NBUF
          ensures Key(buf[c]) != q
        {
          assert Key(buf[b := x][c]) != q;
        }
      }
      assert BufTracks(buf[b], users[b], holder[b], dirty[b], init, log);
      Elsewhere(log, e, q);
    }
  }

  /** The blocks of the buffers below n that somebody uses. */
  ghost function Taken(buf: seq<Buf>, users: seq<set<nat>>, n: nat): set<Place>
    requires n <= |buf| == |users|
  {
    if n == 0 then {} else Taken(buf, users, n - 1) + if users[n - 1] == {} then {} else {Key(buf[n - 1])}
  }

  ghost predicate UsedAt(buf: seq<Buf>, users: seq<set<nat>>, b: nat, at: Place) {
    b < |buf| && b < |users| && Key(buf[b]) == at && users[b] != {}
  }

  lemma {:induction false} TakenIff(buf: seq<Buf>, users: seq<set<nat>>, n: nat, at: Place)
    requires n <= |buf| == |users|
    ensures at in Taken(buf, users, n) <==> exists b: nat :: b < n && UsedAt(buf, users, b, at)
  {
    if n > 0 {
      TakenIff(buf, users, n - 1, at);
      if UsedAt(buf, users, n - 1, at) { assert at in Taken(buf, users, n); }
    }
  }

  lemma {:induction false} TakenCount(buf: seq<Buf>, users: seq<set<nat>>, n: nat)
    requires n <= |buf| == |users| && Unique(buf) && forall b | 0 <= b < n && users[b] != {} :: buf[b].dev != 0
    ensures |Taken(buf, users, n)| <= n
    ensures |Taken(buf, users, n)| == n <==> forall b | 0 <= b < n :: users[b] != {}
  {
    if n > 0 {
      TakenCount(buf, users, n - 1);
      var rest, at := Taken(buf, users, n - 1), Key(buf[n - 1]);
      TakenIff(buf, users, n - 1, at);
      assert users[n - 1] != {} ==> at !in rest && |rest + {at}| == |rest| + 1;
    }
  }

  /** As many blocks are in use as there are buffers just when every buffer is. */
  lemma Crowded(buf: seq<Buf>, holder: seq<Option<nat>>, users: seq<set<nat>>, dirty: seq<bool>, init: Disk,
                log: seq<Event>)
    requires Tracks(buf, holder, users, dirty, init, log)
    ensures |InUse(log)| == NBUF <==> forall b | 0 <= b < NBUF :: users[b] != {}
  {
    forall b | 0 <= b < NBUF
      ensures BufTracks(buf[b], users[b], holder[b], dirty[b], init, log)
    {
    }
    TakenCount(buf, users, NBUF);
    forall at: Place
      ensures at in InUse(log) <==> at in Taken(buf, users, NBUF)
    {
      InUseIff(log, at);
      TakenIff(buf, users, NBUF, at);
      if at.0 == 0 || Away(buf, at) {
        assert Idle(log, at);
      } else {
        var b :| 0 <= b < NBUF && Key(buf[b]) == at;
        assert UsedAt(buf, users, b, at) <==> users[b] != {};
      }
    }
    assert InUse(log) == Taken(buf, users, NBUF);
  }

  function Tag(x: Buf): Option<Place> {
    if x.dev == 0 then None else Some(Key(x))
  }

  /** The list of buffers, by the blocks in them. */
  function Shown(order: seq<nat>, buf: seq<Buf>): (shelf: Shelf)
    ensures |shelf| == |order|
  {
    seq(|order|, k requires 0 <= k < |order| => if order[k] < |buf| then Tag(buf[order[k]]) else None)
  }

  ghost predicate Listed(order: seq<nat>) {
    && Permutation(order) && (forall k | 0 <= k < |order| :: order[k] < NBUF)
    && forall j, k | 0 <= j < k < |order| :: order[j] != order[k]
  }

  lemma InShown(order: seq<nat>, buf: seq<Buf>, at: Place)
    requires Listed(order) && |buf| == NBUF && at.0 != 0
    ensures Some(at) in Shown(order, buf) <==> !Away(buf, at)
  {
    if !Away(buf, at) {
      var b :| 0 <= b < |buf| && Key(buf[b]) == at;
      var k := PlaceOf(order, b);
      assert Shown(order, buf)[k] == Some(at);
    }
  }

  lemma SameShown(order: seq<nat>, buf: seq<Buf>, b: nat, x: Buf)
    requires b < |buf| && Key(buf[b]) == Key(x)
    ensures Shown(order, buf[b := x]) == Shown(order, buf)
  {
  }

  /** A step that neither takes a new buffer nor lets one go leaves the list alone. */
  lemma ShelfStays(from: Shelf, log: seq<Event>, e: Event)
    requires e.res.Got? ==> Some(e.step.at) in Shelved(from, log)
    requires e.res.Left? ==> Users(log + [e], e.step.at) != {}
    ensures Shelved(from, log + [e]) == Shelved(from, log)
  {
    assert (log + [e])[..|log|] == log;
  }

  /** The oldest spare entry of the list is the buffer with the least stamp among those nobody uses. */
  lemma OldestShown(order: seq<nat>, buf: seq<Buf>, holder: seq<Option<nat>>, users: seq<set<nat>>, dirty: seq<bool>,
                    stamp: seq<nat>, clock: nat, init: Disk, log: seq<Event>, b: nat, i: nat)
    requires Tracks(buf, holder, users, dirty, init, log) && Listed(order) && Recency(order, stamp, clock)
    requires i < NBUF && order[i] == b && users[b] == {}
    requires forall c | 0 <= c < NBUF && users[c] == {} :: stamp[b] <= stamp[c]
    ensures Oldest(log, Shown(order, buf)) == i
  {
    var shelf := Shown(order, buf);
    forall k | 0 <= k < NBUF
      ensures Spare(log, shelf[k]) <==> users[order[k]] == {}
    {
      assert BufTracks(buf[order[k]], users[order[k]], holder[order[k]], dirty[order[k]], init, log);
    }
    var j := Oldest(log, shelf);
    assert j >= i;
  }

  /** bget of a block that is not cached: what is thrown away, and the list after it. */
  lemma MissShelf(order: seq<nat>, buf: seq<Buf>, holder: seq<Option<nat>>, users: seq<set<nat>>, dirty: seq<bool>,
                  stamp: seq<nat>, clock: nat, init: Disk, from: Shelf, log: seq<Event>, b: nat, x: Buf, e: Event)
    requires Tracks(buf, holder, users, dirty, init, log) && Listed(order) && Recency(order, stamp, clock)
    requires b < NBUF && users[b] == {} && forall c | 0 <= c < NBUF && users[c] == {} :: stamp[b] <= stamp[c]
    requires Away(buf, e.step.at) && e.step.at.0 != 0 && Key(x) == e.step.at && e.res.Got?
    requires Shelved(from, log) == Shown(order, buf)
    ensures Lost(from, log, e.step.at) == (if dirty[b] then Some(Key(buf[b])) else None)
    ensures Shelved(from, log + [e]) == Shown(order, buf[b := x])
  {
    var i := PlaceOf(order, b);
    OldestShown(order, buf, holder, users, dirty, stamp, clock, init, log, b, i);
    InShown(order, buf, e.step.at);
    assert BufTracks(buf[b], users[b], holder[b], dirty[b], init, log);
    assert (log + [e])[..|log|] == log;
    assert Shown(order, buf[b := x]) == Shown(order, buf)[i := Some(e.step.at)];
  }

  /** The last brelse of a block brings its buffer to the front. */
  lemma LeftShelf(order: seq<nat>, buf: seq<Buf>, from: Shelf, log: seq<Event>, i: nat, e: Event)
    requires Listed(order) && |buf| == NBUF && Unique(buf) && i < NBUF
    requires Key(buf[order[i]]) == e.step.at && e.step.at.0 != 0
    requires e.res == Left && Users(log + [e], e.step.at) == {} && Shelved(from, log) == Shown(order, buf)
    ensures Shelved(from, log + [e]) == Shown(Front(order, i), buf)
  {
    var shelf, at := Shown(order, buf), Some(e.step.at);
    assert (log + [e])[..|log|] == log;
    assert shelf[i] == at;
    var j := IndexOf(shelf, at);
    assert j == i;
    assert Shown(Front(order, i), buf) == Ahead(shelf, i);
  }

  /** The cache, its list and its disk are as the log says. */
  ghost predicate Follows(c: Cache, init: Disk, from: Shelf, log: seq<Event>)
    reads c
  {
    && c.Valid() && Tracks(c.buf, c.holder, c.users, c.dirty, init, log) && DiskTracks(c.disk, init, log)
    && Shelved(from, log) == Shown(c.order, c.buf)
  }

  /** The buffer of a block somebody holds or waits for. */
  method Find(c: Cache, at: Place, ghost init: Disk, ghost from: Shelf, ghost log: seq<Event>) returns (b: nat)
    requires Follows(c, init, from, log)
    ensures b == HEAD || (b < NBUF && Key(c.buf[b]) == at && c.buf[b].dev != 0
                          && BufTracks(c.buf[b], c.users[b], c.holder[b], c.dirty[b], init, log))
    ensures b == HEAD ==> Idle(log, at)
  {
    b := HEAD;
    if at.0 != 0 { b := c.FindCached(at.0, at.1); }
    if b == HEAD { assert at.0 == 0 || Away(c.buf, at); }
  }

  /** bget finds the block cached. */
  lemma HitMay(buf: seq<Buf>, holder: seq<Option<nat>>, users: seq<set<nat>>, dirty: seq<bool>,
               init: Disk, from: Shelf, log: seq<Event>, b: nat, r: nat, e: Event)
    requires Tracks(buf, holder, users, dirty, init, log) && b < NBUF && Key(buf[b]) == e.step.at && e.step.at.0 != 0
    requires Some(e.step.at) in Shelved(from, log) && e.step.act == Get && e.step.pid !in users[b] && e.res == Got(None)
    ensures Tracks(buf[b := buf[b].(refcnt := r)], holder, users[b := users[b] + {e.step.pid}], dirty, init, log + [e])
    ensures May(init, from, log, e)
  {
    assert (log + [e])[..|log|] == log;
    assert BufTracks(buf[b], users[b], holder[b], dirty[b], init, log);
    StepTracks(buf, holder, users, dirty, init, log, b, buf[b].(refcnt := r), users[b] + {e.step.pid}, holder[b],
               dirty[b], e);
    assert holder[b := holder[b]] == holder && dirty[b := dirty[b]] == dirty;
    Crowded(buf, holder, users, dirty, init, log);
    InUseIff(log, e.step.at);
  }

  /** bget recycles a buffer. */
  lemma MissMay(buf: seq<Buf>, holder: seq<Option<nat>>, users: seq<set<nat>>, dirty: seq<bool>,
                init: Disk, from: Shelf, log: seq<Event>, b: nat, e: Event)
    requires Tracks(buf, holder, users, dirty, init, log) && b < NBUF && users[b] == {}
    requires Away(buf, e.step.at) && e.step.at.0 != 0 && e.step.at in init && e.step.act == Get
    requires e.res == Got(Lost(from, log, e.step.at))
    ensures May(init, from, log, e)
  {
    assert Idle(log, e.step.at);
    Crowded(buf, holder, users, dirty, init, log);
  }

  /** bget finds no buffer to recycle. */
  lemma PanicMay(buf: seq<Buf>, holder: seq<Option<nat>>, users: seq<set<nat>>, dirty: seq<bool>,
                 init: Disk, from: Shelf, log: seq<Event>, step: Step)
    requires Tracks(buf, holder, users, dirty, init, log) && (forall b | 0 <= b < NBUF :: users[b] != {})
    requires Away(buf, step.at) && step.at.0 != 0 && step.at in init && step.act == Get
    ensures May(init, from, log, Event(step, Panicked))
  {
    assert Idle(log, step.at);
    InUseIff(log, step.at);
    Crowded(buf, holder, users, dirty, init, log);
  }

  /** bget by a process that does not have the block yet. */
  method Fetch(c: Cache, step: Step, ghost init: Disk, ghost from: Shelf, ghost log: seq<Event>) returns (e: Event)
    requires Follows(c, init, from, log) && step.act == Get && step.at.0 != 0 && step.at in c.disk
    requires forall b | 0 <= b < NBUF && Key(c.buf[b]) == step.at :: step.pid !in c.users[b]
    modifies c
    ensures Follows(c, init, from, log + [e]) && e.step == step && May(init, from, log, e)
  {
    var Step(pid, at, _) := step;
    ghost var holder, users := c.holder, c.users;
    var buf, dirty := c.buf, c.dirty;
    var got := c.Bget(at.0, at.1, pid);
    if got == HEAD {
      e := Event(step, Panicked);
      RefusedTracks(buf, holder, users, dirty, c.disk, init, log, e);
      PanicMay(buf, holder, users, dirty, init, from, log, step);
      ShelfStays(from, log, e);
      return;
    }
    if Key(buf[got]) == at {
      e := Event(step, Got(None));
      InShown(c.order, buf, at);
      HitMay(buf, holder, users, dirty, init, from, log, got, c.buf[got].refcnt, e);
      SameShown(c.order, buf, got, c.buf[got]);
      ShelfStays(from, log, e);
    } else {
      e := Event(step, Got(if dirty[got] then Some(Key(buf[got])) else None));
      MissShelf(c.order, buf, holder, users, dirty, c.stamp, c.clock, init, from, log, got, c.buf[got], e);
      MissMay(buf, holder, users, dirty, init, from, log, got, e);
      MissTracks(buf, holder, users, dirty, init, log, got, c.buf[got], e);
    }
    DiskStays(c.disk, init, log, e);
  }

  method Take(c: Cache, step: Step, ghost init: Disk, ghost from: Shelf, ghost log: seq<Event>) returns (e: Event)
    requires Follows(c, init, from, log) && step.act == Get
    modifies c
    ensures Follows(c, init, from, log + [e]) && e.step == step && May(init, from, log, e)
  {
    var Step(pid, at, _) := step;
    var b := Find(c, at, init, from, log);
    if at.0 == 0 || at !in c.disk || (b != HEAD && pid in c.users[b]) {
      e := Event(step, Refused);
      RefusedTracks(c.buf, c.holder, c.users, c.dirty, c.disk, init, log, e);
      ShelfStays(from, log, e);
    } else {
      e := Fetch(c, step, init, from, log);
    }
  }

  /** Buffer b is the one process pid means by a block, and the block is known. */
  ghost predicate At(c: Cache, b: nat, at: Place, init: Disk, from: Shelf, log: seq<Event>)
    reads c
  {
    && Follows(c, init, from, log) && b < NBUF && Key(c.buf[b]) == at && at.0 != 0 && at in c.disk
    && BufTracks(c.buf[b], c.users[b], c.holder[b], c.dirty[b], init, log)
  }

  lemma OpenTracks(buf: seq<Buf>, holder: seq<Option<nat>>, users: seq<set<nat>>, dirty: seq<bool>,
                   disk: Disk, init: Disk, from: Shelf, log: seq<Event>, b: nat, e: Event)
    requires Tracks(buf, holder, users, dirty, init, log) && DiskTracks(disk, init, log)
    requires b < NBUF && Key(buf[b]) == e.step.at && e.step.at.0 != 0 && e.step.at in disk && holder[b] == None
    requires e.step.act == Read && e.step.pid in users[b] && e.res == Saw(Filled(buf[b], disk).data)
    requires (dirty[b] ==> buf[b].valid)
    ensures Tracks(buf[b := Filled(buf[b], disk)], holder[b := Some(e.step.pid)], users, dirty, init, log + [e])
    ensures DiskTracks(disk, init, log + [e]) && May(init, from, log, e)
  {
    assert BufTracks(buf[b], users[b], holder[b], dirty[b], init, log);
    var x, at := Filled(buf[b], disk), e.step.at;
    if !Pending(log, at) { NotPending(log, init, at); }
    assert (log + [e])[..|log|] == log;
    assert users[b := users[b]] == users && dirty[b := dirty[b]] == dirty;
    StepTracks(buf, holder, users, dirty, init, log, b, x, users[b], Some(e.step.pid), dirty[b], e);
    DiskStays(disk, init, log, e);
  }

  /** The sleep lock and the rest of bread. */
  method Open(c: Cache, b: nat, step: Step, ghost init: Disk, ghost from: Shelf, ghost log: seq<Event>)
    returns (e: Event)
    requires At(c, b, step.at, init, from, log) && step.act == Read && step.pid in c.users[b] && c.holder[b] == None
    modifies c
    ensures Follows(c, init, from, log + [e]) && e.step == step && May(init, from, log, e)
  {
    ghost var buf, holder, users, dirty := c.buf, c.holder, c.users, c.dirty;
    c.Lock(b, step.pid);
    c.Fill(b, step.pid);
    e := Event(step, Saw(c.buf[b].data));
    OpenTracks(buf, holder, users, dirty, c.disk, init, from, log, b, e);
    SameShown(c.order, buf, b, c.buf[b]);
    ShelfStays(from, log, e);
  }

  method Alter(c: Cache, b: nat, step: Step, ghost init: Disk, ghost from: Shelf, ghost log: seq<Event>)
    returns (e: Event)
    requires At(c, b, step.at, init, from, log) && step.act.Change? && c.holder[b] == Some(step.pid)
    modifies c
    ensures Follows(c, init, from, log + [e]) && e.step == step && May(init, from, log, e)
  {
    ghost var buf, holder, users, dirty := c.buf, c.holder, c.users, c.dirty;
    c.Edit(b, step.pid, step.act.to);
    e := Event(step, Changed);
    assert (log + [e])[..|log|] == log;
    assert users[b := users[b]] == users && holder[b := holder[b]] == holder;
    StepTracks(buf, holder, users, dirty, init, log, b, c.buf[b], users[b], holder[b], true, e);
    DiskStays(c.disk, init, log, e);
    SameShown(c.order, buf, b, c.buf[b]);
    ShelfStays(from, log, e);
  }

  method Save(c: Cache, b: nat, step: Step, ghost init: Disk, ghost from: Shelf, ghost log: seq<Event>)
    returns (e: Event)
    requires At(c, b, step.at, init, from, log) && step.act == Write && c.holder[b] == Some(step.pid)
    modifies c
    ensures Follows(c, init, from, log + [e]) && e.step == step && May(init, from, log, e)
  {
    ghost var buf, holder, users, dirty, disk := c.buf, c.holder, c.users, c.dirty, c.disk;
    c.Bwrite(b, step.pid);
    e := Event(step, Wrote(c.buf[b].data));
    assert (log + [e])[..|log|] == log;
    assert users[b := users[b]] == users && holder[b := holder[b]] == holder && buf[b := buf[b]] == buf;
    StepTracks(buf, holder, users, dirty, init, log, b, buf[b], users[b], holder[b], false, e);
    DiskTakes(disk, init, log, e);
    ShelfStays(from, log, e);
  }

  lemma LeftTracks(buf: seq<Buf>, holder: seq<Option<nat>>, users: seq<set<nat>>, dirty: seq<bool>,
                   init: Disk, log: seq<Event>, b: nat, r: nat, e: Event)
    requires Tracks(buf, holder, users, dirty, init, log) && b < NBUF && Key(buf[b]) == e.step.at && e.step.at.0 != 0
    requires holder[b] == Some(e.step.pid) && e.res == Left
    ensures Tracks(buf[b := buf[b].(refcnt := r)], holder[b := None], users[b := users[b] - {e.step.pid}], dirty, init,
                   log + [e])
    ensures Users(log + [e], e.step.at) == users[b] - {e.step.pid} && Holder(log, e.step.at) == Some(e.step.pid)
  {
    assert (log + [e])[..|log|] == log;
    assert BufTracks(buf[b], users[b], holder[b], dirty[b], init, log);
    assert dirty[b := dirty[b]] == dirty;
    StepTracks(buf, holder, users, dirty, init, log, b, buf[b].(refcnt := r), users[b] - {e.step.pid}, None, dirty[b],
               e);
  }

  method Give(c: Cache, b: nat, step: Step, ghost init: Disk, ghost from: Shelf, ghost log: seq<Event>)
    returns (e: Event)
    requires At(c, b, step.at, init, from, log) && step.act == Release && c.holder[b] == Some(step.pid)
    modifies c
    ensures Follows(c, init, from, log + [e]) && e.step == step && May(init, from, log, e)
  {
    ghost var buf, holder, users, dirty, order := c.buf, c.holder, c.users, c.dirty, c.order;
    ghost var i := c.Brelse(b, step.pid);
    e := Event(step, Left);
    LeftTracks(buf, holder, users, dirty, init, log, b, c.buf[b].refcnt, e);
    DiskStays(c.disk, init, log, e);
    SameShown(c.order, buf, b, c.buf[b]);
    if c.users[b] == {} { LeftShelf(order, buf, from, log, i, e); } else { ShelfStays(from, log, e); }
  }

  /** A step on a buffer that somebody already has. */
  method Own(c: Cache, step: Step, ghost init: Disk, ghost from: Shelf, ghost log: seq<Event>) returns (e: Event)
    requires Follows(c, init, from, log) && !step.act.Get?
    modifies c
    ensures Follows(c, init, from, log + [e]) && e.step == step && May(init, from, log, e)
  {
    var b := Find(c, step.at, init, from, log);
    if b == HEAD || (step.act.Read? && (step.pid !in c.users[b] || c.holder[b].Some?))
       || (!step.act.Read? && c.holder[b] != Some(step.pid)) {
      e := Event(step, Refused);
      RefusedTracks(c.buf, c.holder, c.users, c.dirty, c.disk, init, log, e);
      ShelfStays(from, log, e);
    } else if step.act.Read? {
      e := Open(c, b, step, init, from, log);
    } else if step.act.Change? {
      e := Alter(c, b, step, init, from, log);
    } else if step.act.Write? {
      e := Save(c, b, step, init, from, log);
    } else {
      e := Give(c, b, step, init, from, log);
    }
  }

  method Turn(c: Cache, step: Step, ghost init: Disk, ghost from: Shelf, ghost log: seq<Event>) returns (e: Event)
    requires Follows(c, init, from, log) && Lawful(init, from, log)
    modifies c
    ensures Follows(c, init, from, log + [e]) && Lawful(init, from, log + [e]) && e.step == step
  {
    if step.act.Get? { e := Take(c, step, init, from, log); } else { e := Own(c, step, init, from, log); }
    LawfulNext(init, from, log, e);
  }

  lemma FollowsStart(c: Cache)
    requires c.Valid() && forall b | 0 <= b < NBUF :: c.users[b] == {} && c.holder[b] == None && !c.dirty[b]
    ensures Follows(c, c.disk, Shown(c.order, c.buf), []) && Lawful(c.disk, Shown(c.order, c.buf), [])
  {
  }

  lemma FollowsDisk(c: Cache, init: Disk, from: Shelf, log: seq<Event>)
    requires Follows(c, init, from, log)
    ensures c.disk.Keys == init.Keys && forall at | at in c.disk :: c.disk[at] == Written(log, init, at)
  {
  }

  /** Any number of processes, in any interleaving of their steps, over a cache with nothing
      unwritten in it: every step gives what the law of the log says, and the disk holds what
      was last written. */
  method Run(c: Cache, steps: seq<Step>) returns (log: seq<Event>)
    requires c.Valid() && forall b | 0 <= b < NBUF :: c.users[b] == {} && c.holder[b] == None && !c.dirty[b]
    modifies c
    ensures c.Valid() && c.disk.Keys == old(c.disk).Keys
    ensures forall at | at in c.disk :: c.disk[at] == Written(log, old(c.disk), at)
    ensures |log| == |steps| && (forall j | 0 <= j < |log| :: log[j].step == steps[j])
    ensures Lawful(old(c.disk), Shown(old(c.order), old(c.buf)), log)
  {
    ghost var init, from := c.disk, Shown(c.order, c.buf);
    FollowsStart(c);
    log := [];
    for i := 0 to |steps|
      invariant Follows(c, init, from, log) && Lawful(init, from, log)
      invariant |log| == i && forall j | 0 <= j < i :: log[j].step == steps[j]
    {
      var e := Turn(c, steps[i], init, from, log);
      log := log + [e];
    }
    FollowsDisk(c, init, from, log);
  }

  /** Nobody uses any block. */
  ghost predicate Quiet(log: seq<Event>) {
    forall at: Place :: Users(log, at) == {} && Holder(log, at) == None
  }

  /** One process gets a block nobody uses. */
  lemma GetAlone(init: Disk, from: Shelf, log: seq<Event>, e: Event)
    requires Quiet(log) && |from| == NBUF && e.step.act == Get && e.step.at in init && e.step.at.0 != 0
    requires May(init, from, log, e)
    ensures var at, shelf := e.step.at, Shelved(from, log);
      && e.res == Got(Lost(from, log, at)) && Users(log + [e], at) == {e.step.pid} && Holder(log + [e], at) == None
      && Shelved(from, log + [e]) == (if Some(at) in shelf then shelf else shelf[NBUF - 1 := Some(at)])
      && Lost(from, log, at) == (if Some(at) in shelf || shelf[NBUF - 1] == None || !Pending(log, shelf[NBUF - 1].value)
                                 then None else shelf[NBUF - 1])
  {
    assert (log + [e])[..|log|] == log;
    assert Oldest(log, Shelved(from, log)) == NBUF - 1;
    forall q: Place
      ensures q !in InUse(log)
    {
      InUseIff(log, q);
    }
    assert InUse(log) == {};
  }

  /** Between visits: nobody uses any block, nothing was written, and only at has a change, unless it was lost. */
  ghost predicate Rests(init: Disk, from: Shelf, log: seq<Event>, shelf: Shelf, at: Place, to: Data, lost: bool) {
    && Quiet(log) && Shelved(from, log) == shelf && at in init
    && (forall q: Place :: Pending(log, q) <==> q == at && !lost)
    && (forall q | q in init :: Written(log, init, q) == init[q])
    && Current(log, init, at) == if lost then init[at] else to
  }

  /** The list after a visit to a block. */
  function Visited(shelf: Shelf, o: Place): (r: Shelf)
    requires shelf != []
    ensures |r| == |shelf|
  {
    var s := if Some(o) in shelf then shelf else shelf[|shelf| - 1 := Some(o)];
    assert Some(o) in s by { if Some(o) !in shelf { assert s[|shelf| - 1] == Some(o); } }
    Ahead(s, IndexOf(s, Some(o)))
  }

  /** What a visit to a block says of block q. */
  lemma VisitAt(init: Disk, log: seq<Event>, e0: Event, e1: Event, e2: Event, q: Place)
    requires Users(log, q) == {} && Holder(log, q) == None && e0.res.Got? && e1.res.Saw? && e2.res.Left?
    requires e0.step.at == e1.step.at == e2.step.at && e0.step.pid == e1.step.pid == e2.step.pid
    ensures var log' := log + [e0] + [e1] + [e2];
      && Users(log', q) == {} && Holder(log', q) == None
      && Pending(log', q) == (Pending(log, q) && e0.res.lost != Some(q))
      && (q in init ==>
        && Written(log', init, q) == Written(log, init, q)
        && Current(log', init, q) == if e0.res.lost == Some(q) then Written(log, init, q) else Current(log, init, q))
  {
    var l1, l2, l3 := log + [e0], log + [e0] + [e1], log + [e0] + [e1] + [e2];
    assert l1[..|log|] == log && l2[..|l1|] == l1 && l3[..|l2|] == l2;
    assert Users(l1, q) == (if e0.step.at == q then {e0.step.pid} else {}) == Users(l2, q);
    assert Pending(l1, q) == (Pending(log, q) && e0.res.lost != Some(q)) == Pending(l2, q);
    assert q != e0.step.at ==> Holder(l1, q) == None == Holder(l2, q);
    assert q in init ==> Written(log, init, q) == Written(l1, init, q) == Written(l2, init, q);
    assert q in init ==> Current(l1, init, q) == Current(l2, init, q);
  }

  /** One process gets, reads and lets go of a block. */
  lemma Visit(init: Disk, from: Shelf, log: seq<Event>, shelf: Shelf, at: Place, to: Data, lost: bool,
              e0: Event, e1: Event, e2: Event)
    requires |from| == NBUF && Rests(init, from, log, shelf, at, to, lost)
    requires e0.step.at in init && e0.step.at.0 != 0
    requires e0.step.at == e1.step.at == e2.step.at && e0.step.pid == e1.step.pid == e2.step.pid
    requires e0.step.act == Get && e1.step.act == Read && e2.step.act == Release
    requires May(init, from, log, e0) && May(init, from, log + [e0], e1) && May(init, from, log + [e0] + [e1], e2)
    ensures e1.res == Saw(if e1.step.at == at && !lost then to else init[e1.step.at])
    ensures Rests(init, from, log + [e0] + [e1] + [e2], Visited(shelf, e0.step.at), at, to,
                  lost || (Some(e0.step.at) !in shelf && shelf[NBUF - 1] == Some(at)))
  {
    var o, l1, l2, l3 := e0.step.at, log + [e0], log + [e0] + [e1], log + [e0] + [e1] + [e2];
    GetAlone(init, from, log, e0);
    assert l1[..|log|] == log && l2[..|l1|] == l1 && l3[..|l2|] == l2;
    assert Current(l1, init, o) == Current(log, init, o);
    if o != at { NotPending(log, init, o); }
    assert e1.res.Saw? && e2.res == Left;
    assert Shelved(from, l2) == Shelved(from, l1);
    forall q: Place
      ensures Users(l3, q) == {} && Holder(l3, q) == None
      ensures Pending(l3, q) == (Pending(log, q) && e0.res.lost != Some(q))
      ensures q in init ==> Written(l3, init, q) == Written(log, init, q)
    {
      VisitAt(init, log, e0, e1, e2, q);
    }
    VisitAt(init, log, e0, e1, e2, at);
  }

  /** The list after a visit to at and then to the first k of others, on a cache that was empty. */
  function Fan(at: Place, others: seq<Place>, k: nat): (shelf: Shelf)
    requires k <= |others|
    ensures |shelf| == NBUF
  {
    seq(NBUF, i requires 0 <= i => if i < k then Some(others[k - 1 - i]) else if i == k then Some(at) else None)
  }

  lemma FanFirst(at: Place, others: seq<Place>)
    ensures Some(at) in Fan(at, others, 0) && Visited(Fan(at, others, 0), at) == Fan(at, others, 0)
  {
    var f := Fan(at, others, 0);
    assert f[0] == Some(at);
    assert IndexOf(f, Some(at)) == 0;
  }

  lemma FanNext(at: Place, others: seq<Place>, k: nat)
    requires k < |others| == NBUF && others[k] != at && forall j | 0 <= j < k :: others[j] != others[k]
    ensures Some(others[k]) !in Fan(at, others, k) && (Fan(at, others, k)[NBUF - 1] == Some(at) <==> k == NBUF - 1)
    ensures Visited(Fan(at, others, k), others[k]) == Fan(at, others, k + 1)
  {
    var s := Fan(at, others, k)[NBUF - 1 := Some(others[k])];
    var i := IndexOf(s, Some(others[k]));
    assert s[NBUF - 1] == Some(others[k]);
    assert i == NBUF - 1;
    assert Ahead(s, i) == Fan(at, others, k + 1);
  }

  lemma OpeningAt(init: Disk, e0: Event, e1: Event, e2: Event, e3: Event, q: Place)
    requires e0.res == Got(None) && e1.res.Saw? && e2.res.Changed? && e3.res.Left? && e2.step.act.Change?
    requires e0.step.at == e1.step.at == e2.step.at == e3.step.at
    requires e0.step.pid == e1.step.pid == e2.step.pid == e3.step.pid
    ensures var log := [e0, e1, e2, e3];
      && Users(log, q) == {} && Holder(log, q) == None && (Pending(log, q) <==> q == e0.step.at)
      && (q in init ==> Written(log, init, q) == init[q])
      && (q in init && q == e0.step.at ==> Current(log, init, q) == e2.step.act.to)
  {
    var l1, l2, l3, l4 := [e0], [e0, e1], [e0, e1, e2], [e0, e1, e2, e3];
    assert l1[..0] == [] && l2[..1] == l1 && l3[..2] == l2 && l4[..3] == l3;
    var users: set<nat> := if e0.step.at == q then {e0.step.pid} else {};
    assert Users([], q) == {};
    assert Users(l1, q) == users;
    assert Users(l2, q) == users;
    assert Users(l3, q) == users;
    assert !Pending([], q);
    assert !Pending(l1, q);
    assert !Pending(l2, q);
    assert Pending(l3, q) <==> q == e0.step.at;
    assert q != e0.step.at ==> Holder(l1, q) == None == Holder(l2, q) == Holder(l3, q);
    assert q in init ==> Written(l1, init, q) == init[q] == Written(l2, init, q) == Written(l3, init, q);
  }

  /** The list of a cache that was never used. */
  ghost predicate Unused(from: Shelf) {
    |from| == NBUF && forall i | 0 <= i < NBUF :: from[i] == None
  }

  lemma FanStart(from: Shelf, at: Place, others: seq<Place>)
    requires Unused(from)
    ensures
      var s := from[NBUF - 1 := Some(at)];
      Some(at) in s && IndexOf(s, Some(at)) == NBUF - 1 && Ahead(s, NBUF - 1) == Fan(at, others, 0)
  {
    var s := from[NBUF - 1 := Some(at)];
    assert s[NBUF - 1] == Some(at);
    var i := IndexOf(s, Some(at));
    assert i == NBUF - 1;
    forall k | 0 <= k < NBUF
      ensures Ahead(s, NBUF - 1)[k] == Fan(at, others, 0)[k]
    {
      assert k > 0 ==> s[k - 1] == from[k - 1] == None;
    }
  }

  /** A cache that was never used: a process gets, reads, changes and lets go of a block. */
  lemma Opening(init: Disk, from: Shelf, at: Place, to: Data, others: seq<Place>, e0: Event, e1: Event, e2: Event,
                e3: Event)
    requires Unused(from) && at in init && at.0 != 0
    requires e0.step.at == e1.step.at == e2.step.at == e3.step.at == at
    requires e0.step.pid == e1.step.pid == e2.step.pid == e3.step.pid
    requires e0.step.act == Get && e1.step.act == Read && e2.step.act == Change(to) && e3.step.act == Release
    requires May(init, from, [], e0) && May(init, from, [e0], e1) && May(init, from, [e0, e1], e2)
    requires May(init, from, [e0, e1, e2], e3)
    ensures Rests(init, from, [e0, e1, e2, e3], Fan(at, others, 0), at, to, false)
  {
    var l2, l3, l4 := [e0, e1], [e0, e1, e2], [e0, e1, e2, e3];
    GetAlone(init, from, [], e0);
    assert [] + [e0] == [e0] && l2[..1] == [e0] && l3[..2] == l2 && l4[..3] == l3;
    assert Users(l2, at) == {e0.step.pid};
    assert e1.res.Saw? && Holder(l2, at) == Some(e0.step.pid) && e2.res == Changed && e3.res == Left;
    forall q: Place
      ensures Users(l4, q) == {} && Holder(l4, q) == None && (Pending(l4, q) <==> q == at)
      ensures q in init ==> Written(l4, init, q) == init[q]
    {
      OpeningAt(init, e0, e1, e2, e3, q);
    }
    OpeningAt(init, e0, e1, e2, e3, at);
    var s := from[NBUF - 1 := Some(at)];
    assert Shelved(from, [e0]) == s == Shelved(from, l2) == Shelved(from, l3);
    FanStart(from, at, others);
  }

  const VISITS := 7                    // where the visits to the other blocks begin
  const AGAIN := VISITS + 3 * NBUF     // and where they end

  /** One process changes a block and lets go of it without bwrite, looks at it again, visits as many other
      blocks as there are buffers, and comes back to it. */
  function Script(pid: nat, at: Place, to: Data, others: seq<Place>, i: nat): Step
    requires |others| == NBUF && i < AGAIN + 2
  {
    if i < 4 then Step(pid, at, if i == 0 then Get else if i == 1 then Read else if i == 2 then Change(to) else Release)
    else if i < VISITS then Step(pid, at, if i == 4 then Get else if i == 5 then Read else Release)
    else if i < AGAIN then
      var k, r := (i - VISITS) / 3, (i - VISITS) % 3;
      Step(pid, others[k], if r == 0 then Get else if r == 1 then Read else Release)
    else Step(pid, at, if i == AGAIN then Get else Read)
  }

  function Steps(pid: nat, at: Place, to: Data, others: seq<Place>): (steps: seq<Step>)
    requires |others| == NBUF
    ensures |steps| == AGAIN + 2 && forall i: nat | i < |steps| :: steps[i] == Script(pid, at, to, others, i)
  {
    seq(AGAIN + 2, i requires 0 <= i < AGAIN + 2 => Script(pid, at, to, others, i))
  }

  /** A visit: get, read, release. */
  ghost predicate PlaysVisit(log: seq<Event>, n: nat, pid: nat, o: Place) {
    && n + 3 <= |log| && log[n].step == Step(pid, o, Get)
    && log[n + 1].step == Step(pid, o, Read) && log[n + 2].step == Step(pid, o, Release)
  }

  ghost predicate PlaysAt(log: seq<Event>, pid: nat, others: seq<Place>, k: nat) {
    k < |others| && PlaysVisit(log, VISITS + 3 * k, pid, others[k])
  }

  ghost predicate Plays(log: seq<Event>, pid: nat, at: Place, to: Data, others: seq<Place>) {
    && |others| == NBUF && |log| == AGAIN + 2
    && log[0].step == Step(pid, at, Get) && log[1].step == Step(pid, at, Read)
    && log[2].step == Step(pid, at, Change(to)) && log[3].step == Step(pid, at, Release)
    && PlaysVisit(log, 4, pid, at) && (forall k: nat | k < NBUF :: PlaysAt(log, pid, others, k))
    && log[AGAIN].step == Step(pid, at, Get) && log[AGAIN + 1].step == Step(pid, at, Read)
  }

  lemma ScriptPlays(log: seq<Event>, pid: nat, at: Place, to: Data, others: seq<Place>)
    requires |others| == NBUF && |log| == AGAIN + 2
    requires forall i: nat | i < |log| :: log[i].step == Script(pid, at, to, others, i)
    ensures Plays(log, pid, at, to, others)
  {
    forall k: nat | k < NBUF
      ensures PlaysAt(log, pid, others, k)
    {
      var n := VISITS + 3 * k;
      assert log[n].step == Script(pid, at, to, others, n);
      assert log[n + 1].step == Script(pid, at, to, others, n + 1);
      assert log[n + 2].step == Script(pid, at, to, others, n + 2);
    }
  }

  ghost predicate Apart(init: Disk, at: Place, others: seq<Place>) {
    && at in init && at.0 != 0 && at !in others && (forall o | o in others :: o in init && o.0 != 0)
    && forall j, k | 0 <= j < k < |others| :: others[j] != others[k]
  }

  lemma Nth(init: Disk, from: Shelf, log: seq<Event>, n: nat)
    requires Lawful(init, from, log) && n < |log|
    ensures May(init, from, log[..n], log[n]) && log[..n + 1] == log[..n] + [log[n]]
  {
    assert MayAt(init, from, log, n);
  }

  lemma VisitLog(init: Disk, from: Shelf, log: seq<Event>, n: nat, shelf: Shelf, at: Place, to: Data, pid: nat,
                 o: Place)
    requires |from| == NBUF && Lawful(init, from, log) && PlaysVisit(log, n, pid, o)
    requires Rests(init, from, log[..n], shelf, at, to, false) && o in init && o.0 != 0
    ensures o == at ==> log[n + 1].res == Saw(to)
    ensures Rests(init, from, log[..n + 3], Visited(shelf, o), at, to, Some(o) !in shelf && shelf[NBUF - 1] == Some(at))
  {
    Nth(init, from, log, n);
    Nth(init, from, log, n + 1);
    Nth(init, from, log, n + 2);
    Visit(init, from, log[..n], shelf, at, to, false, log[n], log[n + 1], log[n + 2]);
  }

  lemma AfterOpening(init: Disk, from: Shelf, log: seq<Event>, pid: nat, at: Place, to: Data, others: seq<Place>)
    requires Unused(from) && Plays(log, pid, at, to, others) && at in init && at.0 != 0
    requires Lawful(init, from, log)
    ensures log[5].res == Saw(to) && Rests(init, from, log[..VISITS], Fan(at, others, 0), at, to, false)
  {
    Nth(init, from, log, 0); Nth(init, from, log, 1); Nth(init, from, log, 2); Nth(init, from, log, 3);
    assert log[..1] == [log[0]] && log[..2] == [log[0], log[1]] && log[..3] == [log[0], log[1], log[2]];
    assert log[..4] == [log[0], log[1], log[2], log[3]];
    Opening(init, from, at, to, others, log[0], log[1], log[2], log[3]);
    FanFirst(at, others);
    VisitLog(init, from, log, 4, Fan(at, others, 0), at, to, pid, at);
  }

  /** The run of the script is past the first k visits. */
  ghost predicate Past(init: Disk, from: Shelf, log: seq<Event>, at: Place, to: Data, others: seq<Place>, k: nat) {
    k <= |others| && Rests(init, from, log, Fan(at, others, k), at, to, k == NBUF)
  }

  lemma NextVisit(init: Disk, from: Shelf, log: seq<Event>, pid: nat, at: Place, to: Data, others: seq<Place>, k: nat)
    requires Apart(init, at, others) && Lawful(init, from, log) && 0 < k <= NBUF == |from| == |others|
    requires PlaysAt(log, pid, others, k - 1) && Past(init, from, log[..VISITS + 3 * (k - 1)], at, to, others, k - 1)
    ensures Past(init, from, log[..VISITS + 3 * k], at, to, others, k)
  {
    assert others[k - 1] in others;
    FanNext(at, others, k - 1);
    VisitLog(init, from, log, VISITS + 3 * (k - 1), Fan(at, others, k - 1), at, to, pid, others[k - 1]);
  }

  lemma {:induction false} AfterVisits(init: Disk, from: Shelf, log: seq<Event>, pid: nat, at: Place, to: Data,
                                       others: seq<Place>, k: nat)
    requires Unused(from) && Plays(log, pid, at, to, others) && Apart(init, at, others)
    requires Lawful(init, from, log) && k <= NBUF
    ensures Past(init, from, log[..VISITS + 3 * k], at, to, others, k)
  {
    if k == 0 {
      AfterOpening(init, from, log, pid, at, to, others);
    } else {
      AfterVisits(init, from, log, pid, at, to, others, k - 1);
      assert PlaysAt(log, pid, others, k - 1);
      NextVisit(init, from, log, pid, at, to, others, k);
    }
  }

  lemma Back(init: Disk, from: Shelf, log: seq<Event>, pid: nat, at: Place, to: Data, others: seq<Place>)
    requires |from| == NBUF && Plays(log, pid, at, to, others) && at.0 != 0 && Lawful(init, from, log)
    requires Rests(init, from, log[..AGAIN], Fan(at, others, NBUF), at, to, true)
    ensures log[AGAIN + 1].res == Saw(init[at])
  {
    var rest, e := log[..AGAIN], log[AGAIN];
    Nth(init, from, log, AGAIN);
    Nth(init, from, log, AGAIN + 1);
    GetAlone(init, from, rest, e);
    assert (rest + [e])[..AGAIN] == rest;
  }

  /** A change let go of without bwrite is seen by whoever reads the block next, but visits to as many other
      blocks as there are buffers throw it away: then the block reads as it did before the change. */
  method UnwrittenLost(disk: Disk, pid: nat, at: Place, to: Data, others: seq<Place>) returns (log: seq<Event>)
    requires |others| == NBUF && Apart(disk, at, others)
    ensures Plays(log, pid, at, to, others) && log[5].res == Saw(to) && log[AGAIN + 1].res == Saw(disk[at])
  {
    var c := new Cache(disk);
    ghost var from := Shown(c.order, c.buf);
    log := Run(c, Steps(pid, at, to, others));
    ScriptPlays(log, pid, at, to, others);
    AfterOpening(disk, from, log, pid, at, to, others);
    AfterVisits(disk, from, log, pid, at, to, others, NBUF);
    Back(disk, from, log, pid, at, to, others);
  }
}
