/** Whole runs of the virtio disk of kernel/virtio_disk.c by processes and a device that serves requests in any
    order: a log of what each step did, a law of such logs that speaks of requests, buffers and blocks alone, and
    what it says of the data that gets to the medium and back. */
module VirtioRun {
  import opened Common
  import opened Virtio

  /** What can happen next: a process calls virtio_disk_rw or wakes up in it, or changes a buffer it holds; the
      device takes or carries out a chain; the interrupt handler runs. */
  datatype Event =
    | Call(b: nat, write: bool)
    | Wake(h: nat)
    | Put(b: nat, sector: nat, data: Data)
    | Fetch
    | Carry(h: nat)
    | Interrupt

  /** What came of it: a request was made, with the buffer as it was; the device moved a block for it; the call
      returned, with the buffer as it is; a buffer was changed. */
  datatype Entry =
    | Made(h: nat, b: nat, write: bool, sector: nat, data: Data)
    | Moved(h: nat, write: bool, sector: nat, data: Data)
    | Returned(h: nat, data: Data)
    | Changed
    | Nothing

  /** A request in flight. */
  datatype Req = Req(b: nat, write: bool, phase: Phase)

  /** The disk without its rings and descriptors. */
  datatype View = View(medium: map<nat, Data>, bufs: map<nat, Buf>, reqs: map<nat, Req>, queue: seq<nat>)

  predicate Busy(v: View, b: nat) {
    exists h: nat :: h in v.reqs && v.reqs[h].b == b
  }

  /** Two requests at a time: a third needs three descriptors, and two are left. */
  const MOST := NUM / 3

  predicate Known(v: View, h: nat, phase: Phase) {
    h in v.reqs && v.reqs[h].phase == phase && v.reqs[h].b in v.bufs && v.bufs[v.reqs[h].b].sector in v.medium
  }

  /** What may come of the next event. */
  predicate May(v: View, event: Event, e: Entry) {
    match event
    case Call(b, write) =>
      if b in v.bufs && !v.bufs[b].disk && !Busy(v, b) && |v.reqs.Keys| < MOST
      then e.Made? && e.h !in v.reqs && e == Made(e.h, b, write, v.bufs[b].sector, v.bufs[b].data)
      else e == Nothing
    case Wake(h) => e == if Known(v, h, Acked) then Returned(h, v.bufs[v.reqs[h].b].data) else Nothing
    case Put(b, sector, _) => e == if b in v.bufs && sector in v.medium && !Busy(v, b) then Changed else Nothing
    case Carry(h) =>
      if Known(v, h, Fetched) then
        var Req(b, write, _) := v.reqs[h];
        var sector := v.bufs[b].sector;
        e == Moved(h, write, sector, if write then v.bufs[b].data else v.medium[sector])
      else e == Nothing
    case _ => e == Nothing
  }

  function SetPhase(v: View, h: nat, phase: Phase): View
    requires h in v.reqs
  {
    v.(reqs := v.reqs[h := v.reqs[h].(phase := phase)])
  }

  /** The disk after it: requests are taken in turn, every one that was carried out is acknowledged at once, and
      only a transfer moves data. */
  ghost function Next(v: View, event: Event, e: Entry): View {
    match event
    case Call(b, write) =>
      if e.Made? && b in v.bufs then
        v.(bufs := v.bufs[b := v.bufs[b].(disk := true)], reqs := v.reqs[e.h := Req(b, write, Queued)],
           queue := v.queue + [e.h])
      else v
    case Wake(h) => if e.Returned? then v.(reqs := v.reqs - {h}) else v
    case Put(b, sector, data) =>
      if e.Changed? && b in v.bufs then v.(bufs := v.bufs[b := v.bufs[b].(sector := sector, data := data)]) else v
    case Fetch =>
      if v.queue != [] && v.queue[0] in v.reqs then SetPhase(v, v.queue[0], Fetched).(queue := v.queue[1..]) else v
    case Carry(h) =>
      if e.Moved? && Known(v, h, Fetched) then
        var b := v.reqs[h].b;
        SetPhase(v, h, Done).(
          medium := if e.write then v.medium[e.sector := e.data] else v.medium,
          bufs := if e.write then v.bufs else v.bufs[b := v.bufs[b].(data := e.data)])
      else v
    case Interrupt =>
      v.(reqs := map h: nat | h in v.reqs :: if v.reqs[h].phase == Done then v.reqs[h].(phase := Acked) else v.reqs[h],
         bufs := map b: nat | b in v.bufs :: if Through(v, b) then v.bufs[b].(disk := false) else v.bufs[b])
  }

  ghost predicate Through(v: View, b: nat) {
    exists h: nat :: h in v.reqs && v.reqs[h].phase == Done && v.reqs[h].b == b
  }

  ghost function After(v: View, events: seq<Event>, log: seq<Entry>): View
    requires |log| <= |events|
  {
    if log == [] then v else
      var n := |log| - 1;
      Next(After(v, events, log[..n]), events[n], log[n])
  }

  ghost predicate MayAt(v: View, events: seq<Event>, log: seq<Entry>, j: nat) {
    j < |log| <= |events| && May(After(v, events, log[..j]), events[j], log[j])
  }

  /** Every entry is one the log before it allows. */
  ghost predicate Lawful(v: View, events: seq<Event>, log: seq<Entry>) {
    |log| <= |events| && forall j: nat | j < |log| :: MayAt(v, events, log, j)
  }

  /** What the device last wrote to a sector, or what was there at first. */
  function Stored(log: seq<Entry>, medium: map<nat, Data>, sector: nat): Data
    requires sector in medium
  {
    if log == [] then medium[sector] else
      var e := log[|log| - 1];
      if e.Moved? && e.write && e.sector == sector then e.data else Stored(log[..|log| - 1], medium, sector)
  }

  predicate About(e: Entry, h: nat) {
    (e.Made? || e.Moved? || e.Returned?) && e.h == h
  }

  /** Since its request, entry i, and nothing else in the log is about h. */
  ghost predicate Only(log: seq<Entry>, i: nat, k: nat, h: nat) {
    forall m: nat | i < m < |log| && m != k :: !About(log[m], h)
  }

  /** Entry k is the one transfer of request i: to the medium the data the buffer had when the request was made,
      or from it what the medium had at that moment. */
  ghost predicate Carried(medium: map<nat, Data>, log: seq<Entry>, i: nat, k: nat) {
    && i < k < |log| && log[i].Made? && log[k].Moved? && log[i].sector in medium
    && log[k].h == log[i].h && log[k].write == log[i].write && log[k].sector == log[i].sector
    && log[k].data == if log[i].write then log[i].data else Stored(log[..k], medium, log[i].sector)
  }

  /** The call that returns in entry j was made in entry i and served once, in entry k, and leaves in the buffer
      the data that was moved. */
  ghost predicate Served(medium: map<nat, Data>, log: seq<Entry>, i: nat, k: nat, j: nat) {
    && j < |log| && Carried(medium, log[..j], i, k) && Only(log[..j], i, k, log[i].h)
    && log[j] == Returned(log[i].h, log[k].data)
  }

  /** What the log has of a request in flight. */
  ghost predicate Waits(log: seq<Entry>, v: View, h: nat, i: nat) {
    && i < |log| && h in v.reqs && v.reqs[h].b in v.bufs && Only(log, i, i, h)
    && var b := v.bufs[v.reqs[h].b];
    && log[i] == Made(h, v.reqs[h].b, v.reqs[h].write, b.sector, b.data)
  }

  ghost predicate Waited(medium: map<nat, Data>, log: seq<Entry>, v: View, h: nat, i: nat, k: nat) {
    && Carried(medium, log, i, k) && h in v.reqs && v.reqs[h].b in v.bufs && Only(log, i, k, h)
    && var b := v.bufs[v.reqs[h].b];
    && log[i] == Made(h, v.reqs[h].b, v.reqs[h].write, b.sector, log[i].data) && b.data == log[k].data
  }

  predicate Carriable(phase: Phase) {
    phase == Queued || phase == Fetched
  }

  ghost predicate Story(medium: map<nat, Data>, log: seq<Entry>, v: View, h: nat) {
    h in v.reqs &&
    if Carriable(v.reqs[h].phase) then exists i: nat :: Waits(log, v, h, i)
    else exists i: nat, k: nat :: Waited(medium, log, v, h, i, k)
  }

  ghost predicate InLine(v: View) {
    && (forall i | 0 <= i < |v.queue| :: v.queue[i] in v.reqs && v.reqs[v.queue[i]].phase == Queued)
    && (forall i, j | 0 <= i < j < |v.queue| :: v.queue[i] != v.queue[j])
  }

  ghost predicate OwnBufs(v: View) {
    forall h: nat, g: nat | h in v.reqs && g in v.reqs && h != g :: v.reqs[h].b != v.reqs[g].b
  }

  /** The medium is the writes of the log played over what it was at first. */
  ghost predicate Replayed(medium: map<nat, Data>, log: seq<Entry>, v: View) {
    v.medium.Keys == medium.Keys && forall s: nat | s in medium :: v.medium[s] == Stored(log, medium, s)
  }

  ghost predicate Placed(v: View) {
    && (forall b: nat | b in v.bufs :: v.bufs[b].sector in v.medium)
    && (forall h: nat | h in v.reqs :: v.reqs[h].b in v.bufs)
  }

  ghost predicate Shaped(v: View) {
    Placed(v) && InLine(v) && OwnBufs(v)
  }

  lemma CallShaped(v: View, b: nat, write: bool, e: Entry)
    requires Shaped(v) && May(v, Call(b, write), e)
    ensures Shaped(Next(v, Call(b, write), e))
  {
  }

  lemma WakeShaped(v: View, h: nat, e: Entry)
    requires Shaped(v) && May(v, Wake(h), e)
    ensures Shaped(Next(v, Wake(h), e))
  {
  }

  lemma FetchShaped(v: View)
    requires Shaped(v)
    ensures Shaped(Next(v, Fetch, Nothing))
  {
  }

  lemma CarryShaped(v: View, h: nat, e: Entry)
    requires Shaped(v) && May(v, Carry(h), e)
    ensures Shaped(Next(v, Carry(h), e))
  {
  }

  lemma InterruptShaped(v: View)
    requires Shaped(v)
    ensures Shaped(Next(v, Interrupt, Nothing))
  {
  }

  lemma ShapedNext(v: View, event: Event, e: Entry)
    requires Shaped(v) && May(v, event, e)
    ensures Shaped(Next(v, event, e))
  {
    match event
    case Call(b, write) => CallShaped(v, b, write, e);
    case Wake(h) => WakeShaped(v, h, e);
    case Put(b, _, _) =>
    case Fetch => FetchShaped(v);
    case Carry(h) => CarryShaped(v, h, e);
    case Interrupt => InterruptShaped(v);
  }

  /** What the law keeps. */
  ghost predicate Told(medium: map<nat, Data>, log: seq<Entry>, v: View) {
    && Shaped(v) && Replayed(medium, log, v)
    && forall h: nat | h in v.reqs :: Story(medium, log, v, h)
  }

  lemma ReplayedNext(medium: map<nat, Data>, log: seq<Entry>, v: View, event: Event, e: Entry)
    requires Replayed(medium, log, v) && Placed(v) && May(v, event, e)
    ensures Replayed(medium, log + [e], Next(v, event, e))
  {
    assert (log + [e])[..|log|] == log;
  }

  lemma OnlyNext(log: seq<Entry>, i: nat, k: nat, h: nat, e: Entry)
    requires Only(log, i, k, h) && (About(e, h) ==> k == |log|)
    ensures Only(log + [e], i, k, h)
  {
  }

  /** A request goes on, and its buffer is left alone. */
  ghost predicate Kept(v: View, v': View, h: nat) {
    && h in v.reqs && h in v'.reqs && v.reqs[h].b in v.bufs && v.reqs[h].b in v'.bufs
    && v'.reqs[h] == v.reqs[h].(phase := v'.reqs[h].phase) && Carriable(v'.reqs[h].phase) == Carriable(v.reqs[h].phase)
    && v'.bufs[v.reqs[h].b] == v.bufs[v.reqs[h].b].(disk := v'.bufs[v.reqs[h].b].disk)
  }

  /** A step that is not about h and leaves its buffer alone. */
  lemma StoryKept(medium: map<nat, Data>, log: seq<Entry>, v: View, v': View, e: Entry, h: nat)
    requires Story(medium, log, v, h) && Kept(v, v', h) && !About(e, h)
    ensures Story(medium, log + [e], v', h)
  {
    var log' := log + [e];
    if Carriable(v.reqs[h].phase) {
      var i: nat :| Waits(log, v, h, i);
      OnlyNext(log, i, i, h, e);
      assert Waits(log', v', h, i);
    } else {
      var i: nat, k: nat :| Waited(medium, log, v, h, i, k);
      OnlyNext(log, i, k, h, e);
      assert log'[..k] == log[..k];
      assert Waited(medium, log', v', h, i, k);
    }
  }

  lemma MadeTold(medium: map<nat, Data>, log: seq<Entry>, v: View, b: nat, write: bool, e: Entry)
    requires Told(medium, log, v) && May(v, Call(b, write), e) && e.Made?
    ensures Told(medium, log + [e], Next(v, Call(b, write), e))
  {
    var v' := Next(v, Call(b, write), e);
    ReplayedNext(medium, log, v, Call(b, write), e);
    ShapedNext(v, Call(b, write), e);
    assert Waits(log + [e], v', e.h, |log|);
    forall h: nat | h in v.reqs
      ensures Story(medium, log + [e], v', h)
    {
      StoryKept(medium, log, v, v', e, h);
    }
  }

  lemma MovedStory(medium: map<nat, Data>, log: seq<Entry>, v: View, h: nat, e: Entry)
    requires Shaped(v) && Replayed(medium, log, v) && Story(medium, log, v, h) && May(v, Carry(h), e) && e.Moved?
    ensures Story(medium, log + [e], Next(v, Carry(h), e), h)
  {
    var i: nat :| Waits(log, v, h, i);
    assert (log + [e])[..|log|] == log;
    assert Waited(medium, log + [e], Next(v, Carry(h), e), h, i, |log|);
  }

  lemma MovedKept(v: View, h: nat, e: Entry, g: nat)
    requires Shaped(v) && May(v, Carry(h), e) && e.Moved? && g in v.reqs && g != h
    ensures Kept(v, Next(v, Carry(h), e), g) && !About(e, g)
  {
  }

  lemma MovedTold(medium: map<nat, Data>, log: seq<Entry>, v: View, h: nat, e: Entry)
    requires Told(medium, log, v) && May(v, Carry(h), e) && e.Moved?
    ensures Told(medium, log + [e], Next(v, Carry(h), e))
  {
    var v' := Next(v, Carry(h), e);
    ReplayedNext(medium, log, v, Carry(h), e);
    ShapedNext(v, Carry(h), e);
    MovedStory(medium, log, v, h, e);
    forall g: nat | g in v.reqs && g != h
      ensures Story(medium, log + [e], v', g)
    {
      MovedKept(v, h, e, g);
      StoryKept(medium, log, v, v', e, g);
    }
  }

  lemma FetchKept(v: View, h: nat)
    requires Shaped(v) && h in v.reqs
    ensures Kept(v, Next(v, Fetch, Nothing), h)
  {
  }

  lemma InterruptKept(v: View, h: nat)
    requires Shaped(v) && h in v.reqs
    ensures Kept(v, Next(v, Interrupt, Nothing), h)
  {
  }

  lemma OtherKept(v: View, event: Event, e: Entry, h: nat)
    requires Shaped(v) && May(v, event, e) && !e.Made? && !e.Moved? && h in Next(v, event, e).reqs
    ensures Kept(v, Next(v, event, e), h) && !About(e, h)
  {
    if event.Fetch? { FetchKept(v, h); }
    if event.Interrupt? { InterruptKept(v, h); }
  }

  /** Steps that begin or carry out no request. */
  lemma OtherTold(medium: map<nat, Data>, log: seq<Entry>, v: View, event: Event, e: Entry)
    requires Told(medium, log, v) && May(v, event, e) && !e.Made? && !e.Moved?
    ensures Told(medium, log + [e], Next(v, event, e))
  {
    var v' := Next(v, event, e);
    ReplayedNext(medium, log, v, event, e);
    ShapedNext(v, event, e);
    forall h: nat | h in v'.reqs
      ensures Story(medium, log + [e], v', h)
    {
      OtherKept(v, event, e, h);
      StoryKept(medium, log, v, v', e, h);
    }
  }

  lemma Sooner(v: View, events: seq<Event>, log: seq<Entry>, n: nat)
    requires Lawful(v, events, log) && n <= |log|
    ensures Lawful(v, events, log[..n])
  {
    forall j: nat | j < n
      ensures MayAt(v, events, log[..n], j)
    {
      assert MayAt(v, events, log, j);
      assert log[..n][..j] == log[..j];
    }
  }

  /** No request is in flight, and every buffer belongs to a sector there is. */
  ghost predicate Clean(v: View) {
    v.reqs == map[] && v.queue == [] && forall b: nat | b in v.bufs :: v.bufs[b].sector in v.medium
  }

  lemma {:induction false} LawTold(v: View, events: seq<Event>, log: seq<Entry>)
    requires Lawful(v, events, log) && Clean(v)
    ensures Told(v.medium, log, After(v, events, log))
  {
    if log != [] {
      var n := |log| - 1;
      var rest, e := log[..n], log[n];
      Sooner(v, events, log, n);
      LawTold(v, events, rest);
      assert MayAt(v, events, log, n) && log == rest + [e];
      TellNext(v.medium, rest, After(v, events, rest), events[n], e);
    }
  }

  lemma TellNext(medium: map<nat, Data>, log: seq<Entry>, v: View, event: Event, e: Entry)
    requires Told(medium, log, v) && May(v, event, e)
    ensures Told(medium, log + [e], Next(v, event, e))
  {
    if e.Made? {
      MadeTold(medium, log, v, event.b, event.write, e);
    } else if e.Moved? {
      MovedTold(medium, log, v, event.h, e);
    } else {
      OtherTold(medium, log, v, event, e);
    }
  }

  /** Whatever the order the device serves requests in, a call returns after exactly one transfer of its own:
      a write put on the medium what the buffer held at the call, a read has what the medium held at the transfer. */
  lemma ServedOnce(v: View, events: seq<Event>, log: seq<Entry>, j: nat)
    requires Lawful(v, events, log) && Clean(v) && j < |log| && log[j].Returned?
    ensures exists i: nat, k: nat :: Served(v.medium, log, i, k, j)
  {
    var rest, h := log[..j], log[j].h;
    Sooner(v, events, log, j);
    LawTold(v, events, rest);
    assert MayAt(v, events, log, j);
    var w := After(v, events, rest);
    assert Story(v.medium, rest, w, h);
    var i: nat, k: nat :| Waited(v.medium, rest, w, h, i, k);
    assert Served(v.medium, log, i, k, j);
  }

  /** A state of the driver and the device, without its rings and descriptors. */
  ghost function Seen(s: State): View {
    View(s.medium, s.bufs, map h: nat | h in s.g.chains ::
         Req(s.g.chains[h].buf, s.g.chains[h].write, s.g.chains[h].phase),
         s.g.queue)
  }

  lemma SameRequests(s: State, b: nat)
    ensures Seen(s).reqs.Keys == s.g.chains.Keys
    ensures Busy(Seen(s), b) <==> exists h: nat :: h in s.g.chains && s.g.chains[h].buf == b
  {
    if Busy(Seen(s), b) {
      var h: nat :| h in Seen(s).reqs && Seen(s).reqs[h].b == b;
      assert h in s.g.chains && s.g.chains[h].buf == b;
    }
    if h: nat :| h in s.g.chains && s.g.chains[h].buf == b {
      assert h in Seen(s).reqs && Seen(s).reqs[h].b == b;
    }
  }

  lemma {:induction false} Below(s: set<nat>, n: nat)
    requires forall x | x in s :: x < n
    ensures |s| <= n && (|s| == n ==> forall x: nat | x < n :: x in s)
  {
    if n > 0 {
      var t := s - {n - 1};
      Below(t, n - 1);
      assert |t| == |s| - if n - 1 in s then 1 else 0;
    } else {
      assert s == {};
    }
  }

  lemma Covered(s: set<nat>, n: nat)
    requires forall x: nat | x < n :: x in s
    ensures |s| >= n
    decreases n
  {
    if n > 0 {
      var t := s - {n - 1};
      Covered(t, n - 1);
    }
  }

  function Members(q: seq<nat>): (r: set<nat>)
    ensures |r| <= |q| && forall d | d in q :: d in r
  {
    if q == [] then {} else Members(q[1..]) + {q[0]}
  }

  function Trio(a: nat, b: nat, c: nat): (r: set<nat>)
    ensures |r| <= 3 && a in r && b in r && c in r
    ensures a != b && b != c && a != c ==> |r| == 3
  {
    {a} + {b} + {c}
  }

  /** With at most one request in flight three descriptors are free. */
  lemma FewFree(free: seq<bool>, owner: seq<nat>, chains: map<nat, Chain>, idx: seq<nat>)
    requires Partition(free, owner, chains) && |idx| < 3 && forall d: nat | d < NUM && free[d] :: d in idx
    ensures |chains.Keys| >= MOST
  {
    var found := Members(idx);
    if h: nat :| h in chains {
      if |chains.Keys| == 1 {
        assert |chains.Keys - {h}| == 0;
        var all := found + Trio(h, chains[h].mid, chains[h].last);
        forall d: nat | d < NUM
          ensures d in all
        {
          assert DescOk(free, owner, chains, d);
          assert !free[d] ==> owner[d] in chains.Keys - {h} || owner[d] == h;
        }
        Covered(all, NUM);
      }
    } else {
      forall d: nat | d < NUM
        ensures d in found
      {
        assert DescOk(free, owner, chains, d);
      }
      Covered(found, NUM);
    }
  }

  /** The descriptors a, b and c, all owned by o. */
  ghost predicate Owned(owner: seq<nat>, r: set<nat>, o: nat) {
    forall d | d in r :: d < |owner| == NUM && owner[d] == o
  }

  lemma OwnedApart(owner: seq<nat>, x: set<nat>, y: set<nat>, z: set<nat>, o: nat, p: nat, q: nat)
    requires Owned(owner, x, o) && Owned(owner, y, p) && Owned(owner, z, q) && o != p && o != q && p != q
    ensures |x| + |y| + |z| <= NUM
  {
    assert x !! y && (x + y) !! z;
    Below(x + y + z, NUM);
  }

  lemma TrioOwned(free: seq<bool>, owner: seq<nat>, chains: map<nat, Chain>, h: nat)
    requires Partition(free, owner, chains) && h in chains
    ensures h != NONE && |Trio(h, chains[h].mid, chains[h].last)| == 3
    ensures Owned(owner, Trio(h, chains[h].mid, chains[h].last), h)
  {
    assert ChainOk(free, owner, chains, h);
  }

  /** With two in flight there are not. */
  lemma ManyFree(free: seq<bool>, owner: seq<nat>, chains: map<nat, Chain>, a: nat, b: nat, c: nat)
    requires Partition(free, owner, chains) && a < b < c < NUM && free[a] && free[b] && free[c]
    ensures |chains.Keys| < MOST
  {
    if |chains.Keys| >= MOST {
      var h :| h in chains.Keys;
      assert |chains.Keys - {h}| > 0;
      var g :| g in chains.Keys - {h};
      TrioOwned(free, owner, chains, h);
      TrioOwned(free, owner, chains, g);
      assert DescOk(free, owner, chains, a) && DescOk(free, owner, chains, b) && DescOk(free, owner, chains, c);
      OwnedApart(owner, Trio(h, chains[h].mid, chains[h].last), Trio(g, chains[g].mid, chains[g].last), Trio(a, b, c),
                 h, g, NONE);
    }
  }

  /** The calls in progress, by the first descriptor each remembers in idx[0]. */
  ghost predicate Waiting(calls: map<nat, nat>, chains: map<nat, Chain>) {
    calls.Keys == chains.Keys && forall h: nat | h in chains :: chains[h].buf == calls[h]
  }

  lemma WaitingOn(calls: map<nat, nat>, s: State, b: nat)
    requires Waiting(calls, s.g.chains)
    ensures b in calls.Values <==> Busy(Seen(s), b)
    ensures b !in calls.Values ==> forall h: nat | h in s.g.chains :: s.g.chains[h].buf != b
  {
    SameRequests(s, b);
    if h: nat :| h in s.g.chains && s.g.chains[h].buf == b {
      assert h in calls && calls[h] == b;
    }
  }

  lemma MadeSeen(s: State, t: State, h: nat, m: nat, l: nat, b: nat, write: bool)
    requires Good(s) && Submitted(s, t, h, m, l, b, write) && h !in s.g.chains && h < m < l && s.free[h] && s.free[m]
    requires s.free[l]
    requires !s.bufs[b].disk && !Busy(Seen(s), b)
    ensures
      var e := Made(h, b, write, s.bufs[b].sector, s.bufs[b].data);
      May(Seen(s), Call(b, write), e) && Seen(t) == Next(Seen(s), Call(b, write), e)
  {
    ManyFree(s.free, s.g.owner, s.g.chains, h, m, l);
    SameRequests(s, b);
  }

  lemma RefusedSeen(s: State, t: State, idx: seq<nat>, b: nat, write: bool)
    requires Good(s) && |idx| < 3 && (forall d: nat | d < NUM && s.free[d] :: d in idx) && t == s.(desc := t.desc)
    ensures May(Seen(s), Call(b, write), Nothing) && Seen(t) == Next(Seen(s), Call(b, write), Nothing)
  {
    FewFree(s.free, s.g.owner, s.g.chains, idx);
    SameRequests(s, b);
  }

  method CallOne(d: Disk, b: nat, write: bool, calls: map<nat, nat>) returns (calls': map<nat, nat>, e: Entry)
    requires d.Valid() && Waiting(calls, d.g.chains)
    modifies d
    ensures d.Valid() && Waiting(calls', d.g.chains)
    ensures May(old(Seen(d.Snap())), Call(b, write), e)
    ensures Seen(d.Snap()) == Next(old(Seen(d.Snap())), Call(b, write), e)
  {
    calls', e := calls, Nothing;
    ghost var s := d.Snap();
    WaitingOn(calls, s, b);
    if b in d.bufs && !d.bufs[b].disk && b !in calls.Values {
      var sector, data := d.bufs[b].sector, d.bufs[b].data;
      var ok, idx := d.Submit(b, write);
      if ok {
        calls', e := calls[idx[0] := b], Made(idx[0], b, write, sector, data);
        MadeSeen(s, d.Snap(), idx[0], idx[1], idx[2], b, write);
      } else {
        RefusedSeen(s, d.Snap(), idx, b, write);
      }
    }
  }

  lemma Formed(s: State, h: nat)
    requires Good(s) && h in s.g.chains
    ensures s.g.chains[h].buf in s.bufs && s.bufs[s.g.chains[h].buf].sector in s.medium
    ensures s.bufs[s.g.chains[h].buf].disk == (s.g.chains[h].phase != Acked)
    ensures h < NUM == |s.ops| && s.ops[h].write == s.g.chains[h].write
  {
    assert FormatOk(s.desc, s.ops, s.info, s.bufs, s.g.chains, h);
  }

  method WakeOne(d: Disk, h: nat, calls: map<nat, nat>) returns (calls': map<nat, nat>, e: Entry)
    requires d.Valid() && Waiting(calls, d.g.chains)
    modifies d
    ensures d.Valid() && Waiting(calls', d.g.chains)
    ensures May(old(Seen(d.Snap())), Wake(h), e) && Seen(d.Snap()) == Next(old(Seen(d.Snap())), Wake(h), e)
  {
    calls', e := calls, Nothing;
    if h in calls {
      Formed(d.Snap(), h);
      if !d.bufs[calls[h]].disk {
        e := Returned(h, d.bufs[calls[h]].data);
        d.Finish(h, calls[h]);
        calls' := calls - {h};
      }
    }
  }

  method PutOne(d: Disk, b: nat, sector: nat, data: Data, calls: map<nat, nat>) returns (e: Entry)
    requires d.Valid() && Waiting(calls, d.g.chains)
    modifies d
    ensures d.Valid() && Waiting(calls, d.g.chains)
    ensures May(old(Seen(d.Snap())), Put(b, sector, data), e)
    ensures Seen(d.Snap()) == Next(old(Seen(d.Snap())), Put(b, sector, data), e)
  {
    e := Nothing;
    WaitingOn(calls, d.Snap(), b);
    if b in d.bufs && sector in d.medium && b !in calls.Values {
      d.Set(b, sector, data);
      e := Changed;
    }
  }

  method FetchOne(d: Disk, calls: map<nat, nat>)
    requires d.Valid() && Waiting(calls, d.g.chains)
    modifies d
    ensures d.Valid() && Waiting(calls, d.g.chains) && Seen(d.Snap()) == Next(old(Seen(d.Snap())), Fetch, Nothing)
  {
    d.DeviceFetch();
  }

  lemma MovedSeen(s: State, h: nat)
    requires Good(s) && h in s.g.chains && s.g.chains[h].phase == Fetched && |s.info| == |s.usedRing| == NUM && h < NUM
    requires s.g.chains[h].buf in s.bufs && s.bufs[s.g.chains[h].buf].sector in s.medium
    ensures
      var c := s.g.chains[h];
      var sector := s.bufs[c.buf].sector;
      var e := Moved(h, c.write, sector, if c.write then s.bufs[c.buf].data else s.medium[sector]);
      May(Seen(s), Carry(h), e) && Seen(CompleteOf(s, h)) == Next(Seen(s), Carry(h), e)
  {
  }

  method CarryOne(d: Disk, h: nat, calls: map<nat, nat>) returns (e: Entry)
    requires d.Valid() && Waiting(calls, d.g.chains)
    modifies d
    ensures d.Valid() && Waiting(calls, d.g.chains)
    ensures May(old(Seen(d.Snap())), Carry(h), e) && Seen(d.Snap()) == Next(old(Seen(d.Snap())), Carry(h), e)
  {
    e := Nothing;
    ghost var s := d.Snap();
    assert TakenOk(s.pending, s.g.chains, h);
    if h in d.pending {
      Formed(s, h);
      var b, write := calls[h], d.ops[h].write;
      var sector := d.bufs[b].sector;
      e := Moved(h, write, sector, if write then d.bufs[b].data else d.medium[sector]);
      d.DeviceComplete(h);
      MovedSeen(s, h);
    }
  }

  lemma AckSeen(s: State, t: State)
    requires t.g.chains == AckChains(s.g.chains) && t.bufs == AckBufs(s.bufs, s.g.chains)
    requires t.medium == s.medium && t.g.queue == s.g.queue
    ensures Seen(t) == Next(Seen(s), Interrupt, Nothing)
  {
    forall b: nat | b in s.bufs
      ensures Through(Seen(s), b) == DoneOn(s.g.chains, b)
    {
      if h: nat :| h in s.g.chains && s.g.chains[h].phase == Done && s.g.chains[h].buf == b {
        assert h in Seen(s).reqs && Seen(s).reqs[h].phase == Done && Seen(s).reqs[h].b == b;
      }
    }
  }

  method InterruptOne(d: Disk, calls: map<nat, nat>)
    requires d.Valid() && Waiting(calls, d.g.chains)
    modifies d
    ensures d.Valid() && Waiting(calls, d.g.chains) && Seen(d.Snap()) == Next(old(Seen(d.Snap())), Interrupt, Nothing)
  {
    ghost var s := d.Snap();
    d.Intr();
    AckSeen(s, d.Snap());
  }

  method Handle(d: Disk, event: Event, calls: map<nat, nat>) returns (calls': map<nat, nat>, e: Entry)
    requires d.Valid() && Waiting(calls, d.g.chains)
    modifies d
    ensures d.Valid() && Waiting(calls', d.g.chains)
    ensures May(old(Seen(d.Snap())), event, e) && Seen(d.Snap()) == Next(old(Seen(d.Snap())), event, e)
  {
    calls', e := calls, Nothing;
    match event
    case Call(b, write) => calls', e := CallOne(d, b, write, calls);
    case Wake(h) => calls', e := WakeOne(d, h, calls);
    case Put(b, sector, data) => e := PutOne(d, b, sector, data, calls);
    case Fetch => FetchOne(d, calls);
    case Carry(h) => e := CarryOne(d, h, calls);
    case Interrupt => InterruptOne(d, calls);
  }

  lemma LawfulNext(v: View, events: seq<Event>, log: seq<Entry>, e: Entry)
    requires Lawful(v, events, log) && |log| < |events| && May(After(v, events, log), events[|log|], e)
    ensures Lawful(v, events, log + [e])
    ensures After(v, events, log + [e]) == Next(After(v, events, log), events[|log|], e)
  {
    var log' := log + [e];
    assert log'[..|log|] == log;
    forall j: nat | j < |log'|
      ensures MayAt(v, events, log', j)
    {
      if j < |log| { assert MayAt(v, events, log, j); }
      assert j < |log| ==> log'[..j] == log[..j];
    }
  }

  lemma QueueKnown(s: State)
    requires Good(s)
    ensures s.g.queue == [] || s.g.queue[0] in s.g.chains
  {
    assert s.g.queue == [] || RingAt(s.availRing, s.g.seen, s.g.queue, s.g.chains, Queued, 0);
  }

  lemma CleanSeen(s: State)
    requires Good(s) && s.g.chains == map[]
    ensures Clean(Seen(s))
  {
    QueueKnown(s);
  }

  /** Any run of processes and device.  Every step does what the law of the log says, and the medium and the
      buffers are as the log leaves them; every request made is either in the driver's account of completions,
      where no request is twice, or still in flight. */
  method Run(d: Disk, events: seq<Event>) returns (log: seq<Entry>)
    requires d.Valid() && d.g.chains == map[]
    modifies d
    ensures d.Valid() && |log| == |events| && Lawful(old(Seen(d.Snap())), events, log)
    ensures Seen(d.Snap()) == After(old(Seen(d.Snap())), events, log) && d.medium.Keys == old(d.medium).Keys
    ensures forall s: nat | s in d.medium :: d.medium[s] == Stored(log, old(d.medium), s)
    ensures forall j: nat | j < |log| && log[j].Returned? ::
      exists i: nat, k: nat :: Served(old(d.medium), log, i, k, j)
    ensures Distinct(d.g.log) && forall n: nat | n < |d.g.place| :: RequestOk(d.g.place, d.g.log, d.g.chains, n)
  {
    var calls: map<nat, nat> := map[];
    ghost var v := Seen(d.Snap());
    CleanSeen(d.Snap());
    log := [];
    for i := 0 to |events|
      invariant d.Valid() && Waiting(calls, d.g.chains) && |log| == i
      invariant Lawful(v, events, log) && Seen(d.Snap()) == After(v, events, log)
    {
      var e;
      calls, e := Handle(d, events[i], calls);
      LawfulNext(v, events, log, e);
      log := log + [e];
    }
    LawTold(v, events, log);
    forall j: nat | j < |log| && log[j].Returned?
      ensures exists i: nat, k: nat :: Served(v.medium, log, i, k, j)
    {
      ServedOnce(v, events, log, j);
    }
  }
}
