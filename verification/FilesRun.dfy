/** Whole runs of the file table of kernel/file.c by any number of processes: a log of what each call gave, a law
    of such logs that speaks of descriptors and files alone, and what it says of the life of a pipe. */
module FilesRun {
  import opened Common
  import opened Files

  datatype Event =
    | Opens(p: nat, device: bool, readable: bool, writable: bool)
    | Dups(p: nat, k: nat)
    | Closes(p: nat, k: nat)
    | Pipes(p: nat, noPage: bool, copyFails: bool)
    | Forks(p: nat, np: nat)
    | ExitCloses(k: nat)
    | ExitClears(k: nat)

  /** What came of it: descriptors, or a close and the pipe whose page it gave back.  A pipe call that fails may
      have made a pipe and given it back. */
  datatype Result =
    | Fd(k: nat)
    | Fds(k0: nat, k1: nat, pipe: nat)
    | Closed(freed: Option<nat>)
    | Failed(freed: Option<nat>)
    | Copied
    | Cleared
    | Refused

  /** The open files and the descriptors of all processes. */
  datatype View = View(files: seq<File>, slots: seq<nat>, closing: set<nat>, next: nat)

  /** What an event gave, and the table after it. */
  datatype Entry = Entry(res: Result, view: View)

  /** Slot k is a descriptor for an end of pipe x. */
  predicate Names(v: View, k: nat, x: nat) {
    && k < |v.slots| && k !in v.closing && v.slots[k] < |v.files| && v.files[v.slots[k]].kind == FD_PIPE
    && v.files[v.slots[k]].pipe == x
  }

  ghost predicate Used(v: View, x: nat) {
    exists k: nat :: Names(v, k, x)
  }

  /** Slot k is the only descriptor for pipe x. */
  ghost predicate LastOf(v: View, k: nat, x: nat) {
    Names(v, k, x) && forall j: nat | j != k :: !Names(v, j, x)
  }

  /** Counts are exact, a file is free just when no descriptor names it, and pipes have names already given. */
  ghost predicate Sound(v: View) {
    && |v.files| == NFILE && |v.slots| == NSLOT && (forall k: nat | k in v.closing :: k < NSLOT && v.slots[k] < NFILE)
    && (forall f: nat | f < NFILE :: v.files[f].ref == Count(Effective(v.slots, v.closing), f))
    && (forall f: nat | f < NFILE :: v.files[f].ref == 0 <==> v.files[f].kind == FD_NONE)
    && (forall f: nat | f < NFILE && v.files[f].kind == FD_PIPE :: v.files[f].pipe < v.next)
  }

  predicate Usable(v: View, p: nat, k: nat) {
    p < N_PROC && OwnSlot(p, k) && k < |v.slots| && v.slots[k] < NFILE && k !in v.closing
  }

  predicate Vacant(v: View, p: nat, k: nat) {
    OwnSlot(p, k) && k < |v.slots| && v.slots[k] == NOFD
  }

  ghost predicate NoSlot(v: View, p: nat) {
    forall k: nat :: !Vacant(v, p, k)
  }

  ghost predicate NoFile(v: View) {
    forall f | 0 <= f < |v.files| :: v.files[f].ref != 0
  }

  /** The lowest descriptor that process p has not in use. */
  ghost predicate Lowest(v: View, p: nat, k: nat) {
    Vacant(v, p, k) && forall i: nat | i < k :: !Vacant(v, p, i)
  }

  /** The table after, with these slots. */
  ghost predicate Moved(v: View, v': View, slots: seq<nat>, closing: set<nat>) {
    v'.slots == slots && v'.closing == closing && v'.next == v.next && SameLive(v.files, v'.files)
  }

  ghost predicate OpenedAt(v: View, v': View, k: nat, f: nat, kind: Kind, readable: bool, writable: bool) {
    && f < |v.files| && v.files[f].ref == 0 && k < |v.slots|
    && v' == v.(slots := v.slots[k := f],
                files := v.files[f := v.files[f].(kind := kind, ref := 1, readable := readable, writable := writable)])
  }

  ghost predicate PipedAt(v: View, v': View, k0: nat, k1: nat, f0: nat, f1: nat) {
    && f0 < f1 < |v.files| && v.files[f0].ref == 0 && v.files[f1].ref == 0 && k0 < k1 < |v.slots|
    && v' == v.(slots := v.slots[k0 := f0][k1 := f1], next := v.next + 1,
                files := v.files[f0 := File(FD_PIPE, 1, true, false, v.next)]
                                [f1 := File(FD_PIPE, 1, false, true, v.next)])
  }

  /** Closing slot k gives back the page of the pipe that no other descriptor names. */
  ghost predicate Frees(v: View, k: nat, freed: Option<nat>) {
    forall x: nat :: freed == Some(x) <==> LastOf(v, k, x)
  }

  ghost predicate OpenMay(v: View, p: nat, kind: Kind, readable: bool, writable: bool, e: Entry) {
    if p >= N_PROC then e == Entry(Refused, v)
    else if NoFile(v) || NoSlot(v, p) then e == Entry(Failed(None), v)
    else
      && e.res.Fd? && Lowest(v, p, e.res.k)
      && exists f: nat :: OpenedAt(v, e.view, e.res.k, f, kind, readable, writable)
  }

  ghost predicate DupMay(v: View, p: nat, k: nat, e: Entry) {
    if !Usable(v, p, k) then e == Entry(Refused, v)
    else if NoSlot(v, p) then e == Entry(Failed(None), v)
    else e.res.Fd? && Lowest(v, p, e.res.k) && Moved(v, e.view, v.slots[e.res.k := v.slots[k]], v.closing)
  }

  ghost predicate CloseMay(v: View, p: nat, k: nat, e: Entry) {
    if !Usable(v, p, k) then e == Entry(Refused, v)
    else e.res.Closed? && Frees(v, k, e.res.freed) && Moved(v, e.view, v.slots[k := NOFD], v.closing)
  }

  ghost predicate PipeMay(v: View, p: nat, noPage: bool, copyFails: bool, e: Entry) {
    if p >= N_PROC then e == Entry(Refused, v)
    else if noPage || copyFails || Scarce(v.files) || Crammed(v.slots, p) then
      && e.res.Failed? && e.view.slots == v.slots && e.view.closing == v.closing && SameLive(v.files, e.view.files)
      && v.next <= e.view.next <= v.next + 1 && e.res.freed == if e.view.next == v.next then None else Some(v.next)
    else
      && e.res.Fds? && e.res.pipe == v.next && Lowest(v, p, e.res.k0) && Vacant(v, p, e.res.k1) && e.res.k0 < e.res.k1
      && (forall i: nat | i < e.res.k1 && i != e.res.k0 :: !Vacant(v, p, i))
      && exists f0: nat, f1: nat :: PipedAt(v, e.view, e.res.k0, e.res.k1, f0, f1)
  }

  /** fork needs a child whose slots are empty, as exit leaves them, and a parent that is not exiting. */
  predicate Forkable(v: View, p: nat, np: nat) {
    && p < N_PROC && np < N_PROC && p != np && |v.slots| == NSLOT
    && (forall k | np * NOFILE <= k < np * NOFILE + NOFILE :: v.slots[k] == NOFD)
    && (forall k | p * NOFILE <= k < p * NOFILE + NOFILE :: k !in v.closing)
  }

  ghost predicate ForkMay(v: View, p: nat, np: nat, e: Entry) {
    if !Forkable(v, p, np) then e == Entry(Refused, v)
    else
      && e.res == Copied && |e.view.slots| == NSLOT && Moved(v, e.view, e.view.slots, v.closing)
      && forall k: nat | k < NSLOT :: e.view.slots[k] == ForkedSlot(v.slots, p, np, NOFILE, k)
  }

  ghost predicate ExitMay(v: View, k: nat, e: Entry) {
    if k >= |v.slots| || v.slots[k] >= NFILE || k in v.closing then e == Entry(Refused, v)
    else e.res.Closed? && Frees(v, k, e.res.freed) && Moved(v, e.view, v.slots, v.closing + {k})
  }

  ghost predicate ClearMay(v: View, k: nat, e: Entry) {
    if k !in v.closing || k >= |v.slots| then e == Entry(Refused, v)
    else e == Entry(Cleared, v.(slots := v.slots[k := NOFD], closing := v.closing - {k}))
  }

  /** What may come of the next event. */
  ghost predicate May(v: View, event: Event, e: Entry) {
    match event
    case Opens(p, device, readable, writable) =>
      OpenMay(v, p, if device then FD_DEVICE else FD_INODE, readable, writable, e)
    case Dups(p, k) => DupMay(v, p, k, e)
    case Closes(p, k) => CloseMay(v, p, k, e)
    case Pipes(p, noPage, copyFails) => PipeMay(v, p, noPage, copyFails, e)
    case Forks(p, np) => ForkMay(v, p, np, e)
    case ExitCloses(k) => ExitMay(v, k, e)
    case ExitClears(k) => ClearMay(v, k, e)
  }

  function Before(v: View, log: seq<Entry>, j: nat): View
    requires j <= |log|
  {
    if j == 0 then v else log[j - 1].view
  }

  ghost predicate MayAt(v: View, events: seq<Event>, log: seq<Entry>, j: nat) {
    j < |log| <= |events| && Sound(log[j].view) && May(Before(v, log, j), events[j], log[j])
  }

  /** Every entry is one the log before it allows. */
  ghost predicate Lawful(v: View, events: seq<Event>, log: seq<Entry>) {
    |log| <= |events| && Sound(v) && forall j: nat | j < |log| :: MayAt(v, events, log, j)
  }

  /** The pipe whose page an entry gives back. */
  function FreedBy(e: Entry): Option<nat> {
    if e.res.Closed? || e.res.Failed? then e.res.freed else None
  }

  function FreedIn(log: seq<Entry>): seq<nat> {
    if log == [] then [] else
      var rest, x := FreedIn(log[..|log| - 1]), FreedBy(log[|log| - 1]);
      if x.Some? then rest + [x.value] else rest
  }

  /** A pipe is named by the descriptors whose file stays open. */
  lemma StillNames(v: View, v': View, k: nat, k': nat, x: nat)
    requires Sound(v) && Sound(v') && SameLive(v.files, v'.files) && Names(v, k, x)
    requires k' < |v'.slots| && k' !in v'.closing && v'.slots[k'] == v.slots[k]
    ensures Names(v', k', x)
  {
    var e, e', f := Effective(v.slots, v.closing), Effective(v'.slots, v'.closing), v.slots[k];
    assert e[k] == f && e'[k'] == f;
    CountWhere(e, f);
    CountWhere(e', f);
  }

  /** Two tables with the same files but for counts. */
  lemma SameNames(v: View, v': View, k: nat, k': nat, x: nat)
    requires Sound(v) && Sound(v') && SameLive(v.files, v'.files) && k < |v.slots| && k' < |v'.slots|
    requires k !in v.closing && k' !in v'.closing && v'.slots[k'] == v.slots[k]
    ensures Names(v, k, x) <==> Names(v', k', x)
  {
    if Names(v, k, x) { StillNames(v, v', k, k', x); }
    if Names(v', k', x) {
      var e, e', f := Effective(v.slots, v.closing), Effective(v'.slots, v'.closing), v.slots[k];
      assert e[k] == f && e'[k'] == f;
      CountWhere(e, f);
      CountWhere(e', f);
    }
  }

  lemma CloseUsed(v: View, v': View, k: nat, freed: Option<nat>, x: nat)
    requires Sound(v) && Sound(v') && SameLive(v.files, v'.files) && Frees(v, k, freed) && |v'.slots| == |v.slots|
    requires k < |v.slots| && k !in v.closing && (v'.slots[k] == NOFD || k in v'.closing)
    requires forall j: nat | j < |v.slots| && j != k ::
      v'.slots[j] == v.slots[j] && (j in v'.closing <==> j in v.closing)
    ensures Used(v', x) <==> Used(v, x) && freed != Some(x)
  {
    forall j: nat | j != k
      ensures Names(v', j, x) <==> Names(v, j, x)
    {
      if j < |v.slots| && j !in v.closing { SameNames(v, v', j, j, x); }
    }
    if Used(v, x) && freed != Some(x) {
      assert !LastOf(v, k, x);
      var j: nat :| Names(v, j, x) && j != k;
      assert Names(v', j, x);
    }
  }

  lemma DupUsed(v: View, p: nat, k: nat, e: Entry, x: nat)
    requires Sound(v) && Sound(e.view) && DupMay(v, p, k, e)
    ensures Used(e.view, x) <==> Used(v, x)
  {
    if e.res.Fd? {
      var n := e.res.k;
      SameNames(v, e.view, k, n, x);
      forall j: nat | j != n
        ensures Names(e.view, j, x) <==> Names(v, j, x)
      {
        if j < |v.slots| && j !in v.closing { SameNames(v, e.view, j, j, x); }
      }
    }
  }

  lemma OpenUsed(v: View, p: nat, kind: Kind, readable: bool, writable: bool, e: Entry, x: nat)
    requires Sound(v) && Sound(e.view) && OpenMay(v, p, kind, readable, writable, e) && kind != FD_PIPE
    ensures Used(e.view, x) <==> Used(v, x)
  {
    if e.res.Fd? {
      var k := e.res.k;
      var f: nat :| OpenedAt(v, e.view, k, f, kind, readable, writable);
      forall j: nat | j != k
        ensures Names(e.view, j, x) <==> Names(v, j, x)
      {
        if j < |v.slots| && j !in v.closing { SameNames(v, e.view, j, j, x); }
      }
      assert !Names(v, k, x) && !Names(e.view, k, x);
    }
  }

  lemma PipeUsed(v: View, p: nat, noPage: bool, copyFails: bool, e: Entry, x: nat)
    requires Sound(v) && Sound(e.view) && PipeMay(v, p, noPage, copyFails, e) && x < v.next
    ensures Used(e.view, x) <==> Used(v, x)
  {
    if e.res.Fds? {
      var k0, k1 := e.res.k0, e.res.k1;
      var f0: nat, f1: nat :| PipedAt(v, e.view, k0, k1, f0, f1);
      forall j: nat | j != k0 && j != k1
        ensures Names(e.view, j, x) <==> Names(v, j, x)
      {
        if j < |v.slots| && j !in v.closing { SameNames(v, e.view, j, j, x); }
      }
      assert !Names(v, k0, x) && !Names(v, k1, x) && !Names(e.view, k0, x) && !Names(e.view, k1, x);
    } else if e.res.Failed? {
      forall j: nat
        ensures Names(e.view, j, x) <==> Names(v, j, x)
      {
        if j < |v.slots| && j !in v.closing { SameNames(v, e.view, j, j, x); }
      }
    }
  }

  /** Where the descriptor in slot j of the table after fork comes from. */
  function Source(p: nat, np: nat, j: nat): nat {
    if OwnSlot(np, j) then j - np * NOFILE + p * NOFILE else j
  }

  lemma ForkNames(v: View, p: nat, np: nat, e: Entry, j: nat, x: nat)
    requires Sound(v) && Sound(e.view) && ForkMay(v, p, np, e) && e.res == Copied
    ensures Names(e.view, j, x) <==> Names(v, Source(p, np, j), x)
    ensures Names(v, j, x) ==> Source(p, np, j) == j
  {
    if j < NSLOT {
      var i := Source(p, np, j);
      assert e.view.slots[j] == ForkedSlot(v.slots, p, np, NOFILE, j);
      if i !in v.closing && j !in v.closing { SameNames(v, e.view, i, j, x); }
    }
  }

  lemma ForkUsed(v: View, p: nat, np: nat, e: Entry, x: nat)
    requires Sound(v) && Sound(e.view) && ForkMay(v, p, np, e)
    ensures Used(e.view, x) <==> Used(v, x)
  {
    if e.res == Copied {
      if Used(v, x) {
        var j: nat :| Names(v, j, x);
        ForkNames(v, p, np, e, j, x);
      }
      if Used(e.view, x) {
        var j: nat :| Names(e.view, j, x);
        ForkNames(v, p, np, e, j, x);
      }
    }
  }

  lemma ClearUsed(v: View, k: nat, e: Entry, x: nat)
    requires Sound(v) && ClearMay(v, k, e)
    ensures Used(e.view, x) <==> Used(v, x)
  {
    forall j: nat
      ensures Names(e.view, j, x) <==> Names(v, j, x)
    {
    }
  }

  /** A pipe goes out of use just when its page is given back. */
  lemma UsedNext(v: View, event: Event, e: Entry, x: nat)
    requires Sound(v) && Sound(e.view) && May(v, event, e) && x < v.next
    ensures Used(e.view, x) <==> Used(v, x) && FreedBy(e) != Some(x)
    ensures FreedBy(e) == Some(x) ==> Used(v, x)
    ensures v.next <= e.view.next
  {
    match event
    case Opens(p, device, readable, writable) =>
      OpenUsed(v, p, if device then FD_DEVICE else FD_INODE, readable, writable, e, x);
    case Dups(p, k) => DupUsed(v, p, k, e, x);
    case Closes(p, k) => if e.res.Closed? { CloseUsed(v, e.view, k, e.res.freed, x); }
    case Pipes(p, noPage, copyFails) => PipeUsed(v, p, noPage, copyFails, e, x);
    case Forks(p, np) => ForkUsed(v, p, np, e, x);
    case ExitCloses(k) => if e.res.Closed? { CloseUsed(v, e.view, k, e.res.freed, x); }
    case ExitClears(k) => ClearUsed(v, k, e, x);
  }

  lemma MadeUsed(v: View, events: seq<Event>, log: seq<Entry>, i: nat)
    requires Lawful(v, events, log) && i < |log| && log[i].res.Fds?
    ensures Used(log[i].view, log[i].res.pipe) && log[i].res.pipe < log[i].view.next
  {
    assert MayAt(v, events, log, i);
    var b, e := Before(v, log, i), log[i];
    var f0: nat, f1: nat :| PipedAt(b, e.view, e.res.k0, e.res.k1, f0, f1);
    assert i > 0 ==> MayAt(v, events, log, i - 1);
    assert Names(e.view, e.res.k0, e.res.pipe);
  }

  /** Entry m, after i and no later than j, gives back the page of pipe x. */
  ghost predicate FreedAt(log: seq<Entry>, i: nat, j: nat, x: nat, m: nat) {
    i < m <= j < |log| && FreedBy(log[m]) == Some(x)
  }

  /** The life of a pipe, in any run: made by entry i, its page has been given back by entry j exactly if no
      descriptor of any process names either of its ends any more, and it was given back once. */
  lemma {:induction false} LivesWhileUsed(v: View, events: seq<Event>, log: seq<Entry>, i: nat, j: nat)
    requires Lawful(v, events, log) && i <= j < |log| && log[i].res.Fds?
    ensures log[i].res.pipe < log[j].view.next
    ensures Used(log[j].view, log[i].res.pipe) <==> forall m: nat :: !FreedAt(log, i, j, log[i].res.pipe, m)
    ensures forall m: nat, n: nat | FreedAt(log, i, j, log[i].res.pipe, m) && FreedAt(log, i, j, log[i].res.pipe, n) ::
      m == n
  {
    var x := log[i].res.pipe;
    if j == i {
      MadeUsed(v, events, log, i);
    } else {
      LivesWhileUsed(v, events, log, i, j - 1);
      assert MayAt(v, events, log, j) && MayAt(v, events, log, j - 1);
      UsedNext(log[j - 1].view, events[j], log[j], x);
      forall m: nat
        ensures FreedAt(log, i, j, x, m) <==> FreedAt(log, i, j - 1, x, m) || (m == j && FreedBy(log[j]) == Some(x))
      {
      }
      if FreedBy(log[j]) == Some(x) { assert FreedAt(log, i, j, x, j); }
      var k: nat := j - 1;
      if m: nat :| FreedAt(log, i, k, x, m) { assert FreedAt(log, i, j, x, m); }
    }
  }

  function See(t: Table): View
    reads t
  {
    View(t.files, t.slots, t.closing, t.next)
  }

  lemma SeenSound(t: Table)
    requires t.Valid()
    ensures Sound(See(t))
  {
    forall f: nat | f < NFILE
      ensures RefOk(t.Snap(), Effective(t.slots, t.closing), f)
      ensures t.files[f].kind == FD_PIPE ==> t.files[f].pipe < t.next
    {
      assert RefOk(t.Snap(), Effective(t.slots, t.closing), f);
      assert EndOk(t.Snap(), t.files[f].pipe, true);
    }
  }

  lemma CountOne(slots: seq<nat>, k: nat)
    requires k < |slots| && slots[k] != NOFD
    ensures Count(slots, slots[k]) == 1 <==> forall j | 0 <= j < |slots| && j != k :: slots[j] != slots[k]
  {
    var f, rest := slots[k], slots[k := NOFD];
    CountSet(slots, k, NOFD, f);
    CountWhere(rest, f);
    if j :| 0 <= j < |slots| && j != k && slots[j] == f { assert rest[j] == f; }
    if j :| 0 <= j < |rest| && rest[j] == f { assert j != k && slots[j] == f; }
  }

  lemma CloseLive(s: State, f: nat)
    requires f < |s.files| && s.files[f].ref > 0
    ensures SameLive(s.files, FileClosed(s, f).files)
  {
  }

  lemma NameEnd(s: State, v: View, j: nat, x: nat)
    requires Good(s, Effective(v.slots, v.closing)) && v.files == s.files
    ensures Names(v, j, x) ==>
      var w := s.files[v.slots[j]].writable;
      (x, w) in s.ends && s.ends[(x, w)] == v.slots[j]
  {
    assert j < |v.slots| && v.slots[j] < NFILE ==> RefOk(s, Effective(v.slots, v.closing), v.slots[j]);
  }

  /** No other descriptor names the pipe just when its file has no other and its other end is closed. */
  lemma LastIff(s: State, v: View, k: nat)
    requires Good(s, Effective(v.slots, v.closing)) && v.files == s.files && k < |v.slots| && k !in v.closing
    requires v.slots[k] < NFILE
    requires s.files[v.slots[k]].kind == FD_PIPE
    ensures
      var file := s.files[v.slots[k]];
      LastOf(v, k, file.pipe) <==> file.ref == 1 && (file.pipe, !file.writable) !in s.ends
  {
    var slots, f := Effective(v.slots, v.closing), v.slots[k];
    var x, w := s.files[f].pipe, s.files[f].writable;
    assert RefOk(s, slots, f) && EndOk(s, x, !w) && EndOk(s, x, w);
    CountOne(slots, k);
    if (x, !w) in s.ends {
      var g := s.ends[(x, !w)];
      assert RefOk(s, slots, g);
      CountWhere(slots, g);
      var j :| 0 <= j < |slots| && slots[j] == g;
      assert Names(v, j, x) && j != k;
    } else if s.files[f].ref == 1 {
      forall j: nat | j != k
        ensures !Names(v, j, x)
      {
        NameEnd(s, v, j, x);
      }
    } else {
      var j :| 0 <= j < |slots| && j != k && slots[j] == f;
      assert Names(v, j, x);
    }
  }

  /** fileclose gives a pipe's page back exactly when its last descriptor goes. */
  lemma CloseFrees(s: State, v: View, k: nat)
    requires Good(s, Effective(v.slots, v.closing)) && v.files == s.files && k < |v.slots| && k !in v.closing
    requires v.slots[k] < NFILE
    ensures
      var file, t := s.files[v.slots[k]], FileClosed(s, v.slots[k]);
      var freed := if file.kind == FD_PIPE && file.pipe !in t.pipes then Some(file.pipe) else None;
      Frees(v, k, freed) && t.freed == s.freed + if freed.Some? then [freed.value] else []
  {
    var f := v.slots[k];
    var file := s.files[f];
    CloseGood(s, Effective(v.slots, v.closing), k);
    assert RefOk(s, Effective(v.slots, v.closing), f);
    if file.kind == FD_PIPE {
      assert EndOk(s, file.pipe, true) && EndOk(s, file.pipe, false);
      LastIff(s, v, k);
    }
  }

  method OpenOne(t: Table, p: nat, device: bool, readable: bool, writable: bool) returns (e: Entry)
    requires t.Valid()
    modifies t
    ensures t.Valid() && e.view == See(t) && t.freed == old(t.freed) && FreedBy(e) == None
    ensures OpenMay(old(See(t)), p, if device then FD_DEVICE else FD_INODE, readable, writable, e)
  {
    if p >= N_PROC { return Entry(Refused, See(t)); }
    var r := t.OpenFile(p, device, readable, writable);
    e := Entry(if r == -1 then Failed(None) else Fd(r), See(t));
    ghost var v := old(See(t));
    if r == -1 {
      assert NoFile(v) || NoSlot(v, p);
    } else {
      assert Lowest(v, p, r);
      ghost var f: nat :| f < NFILE && old(t.files)[f].ref == 0 && t.slots == old(t.slots)[r := f]
        && t.files == old(t.files)[f := old(t.files)[f].(kind := if device then FD_DEVICE else FD_INODE, ref := 1,
                                                         readable := readable, writable := writable)];
      assert OpenedAt(v, See(t), r, f, if device then FD_DEVICE else FD_INODE, readable, writable);
    }
  }

  method DupOne(t: Table, p: nat, k: nat) returns (e: Entry)
    requires t.Valid()
    modifies t
    ensures t.Valid() && e.view == See(t) && t.freed == old(t.freed) && FreedBy(e) == None
    ensures DupMay(old(See(t)), p, k, e)
  {
    if !Usable(See(t), p, k) { return Entry(Refused, See(t)); }
    var r := t.Dup(p, k);
    e := Entry(if r == -1 then Failed(None) else Fd(r), See(t));
    ghost var v := old(See(t));
    assert r == -1 ==> NoSlot(v, p);
    assert r != -1 ==> Lowest(v, p, r);
  }

  method CloseOne(t: Table, p: nat, k: nat) returns (e: Entry)
    requires t.Valid()
    modifies t
    ensures t.Valid() && e.view == See(t) && CloseMay(old(See(t)), p, k, e)
    ensures t.freed == old(t.freed) + if FreedBy(e).Some? then [FreedBy(e).value] else []
  {
    if !Usable(See(t), p, k) { return Entry(Refused, See(t)); }
    var file := t.files[t.slots[k]];
    CloseGood(t.Snap(), Effective(t.slots, t.closing), k);
    CloseFrees(t.Snap(), See(t), k);
    CloseLive(t.Snap(), t.slots[k]);
    t.Close(p, k);
    e := Entry(Closed(if file.kind == FD_PIPE && file.pipe !in t.pipes then Some(file.pipe) else None), See(t));
  }

  method ExitCloseOne(t: Table, k: nat) returns (e: Entry)
    requires t.Valid()
    modifies t
    ensures t.Valid() && e.view == See(t) && ExitMay(old(See(t)), k, e)
    ensures t.freed == old(t.freed) + if FreedBy(e).Some? then [FreedBy(e).value] else []
  {
    if k >= |t.slots| || t.slots[k] >= NFILE || k in t.closing { return Entry(Refused, See(t)); }
    var file := t.files[t.slots[k]];
    CloseGood(t.Snap(), Effective(t.slots, t.closing), k);
    CloseFrees(t.Snap(), See(t), k);
    CloseLive(t.Snap(), t.slots[k]);
    t.ExitClose(k);
    e := Entry(Closed(if file.kind == FD_PIPE && file.pipe !in t.pipes then Some(file.pipe) else None), See(t));
  }

  method PipeOne(t: Table, p: nat, noPage: bool, copyFails: bool) returns (e: Entry)
    requires t.Valid()
    modifies t
    ensures t.Valid() && e.view == See(t) && PipeMay(old(See(t)), p, noPage, copyFails, e)
    ensures t.freed == old(t.freed) + if FreedBy(e).Some? then [FreedBy(e).value] else []
  {
    if p >= N_PROC { return Entry(Refused, See(t)); }
    var x := t.next;
    var r, k0, k1 := t.PipeCall(p, noPage, copyFails);
    ghost var v := old(See(t));
    if r == -1 {
      e := Entry(Failed(if t.next == x then None else Some(x)), See(t));
    } else {
      e := Entry(Fds(k0, k1, x), See(t));
      assert Vacant(v, p, k0) && Vacant(v, p, k1) && Lowest(v, p, k0);
      ghost var f0: nat, f1: nat :| f0 < f1 < NFILE && old(t.files)[f0].ref == 0 && old(t.files)[f1].ref == 0
        && t.slots == old(t.slots)[k0 := f0][k1 := f1] && t.Snap() == PipeMade(old(t.Snap()), f0, f1);
      assert PipedAt(v, See(t), k0, k1, f0, f1);
      assert !Scarce(v.files) && !Crammed(v.slots, p);
    }
  }

  method ForkOne(t: Table, p: nat, np: nat) returns (e: Entry)
    requires t.Valid()
    modifies t
    ensures t.Valid() && e.view == See(t) && t.freed == old(t.freed) && FreedBy(e) == None
    ensures ForkMay(old(See(t)), p, np, e)
  {
    if !Forkable(See(t), p, np) { return Entry(Refused, See(t)); }
    t.ForkFiles(p, np);
    e := Entry(Copied, See(t));
  }

  method ClearOne(t: Table, k: nat) returns (e: Entry)
    requires t.Valid()
    modifies t
    ensures t.Valid() && e.view == See(t) && t.freed == old(t.freed) && FreedBy(e) == None
    ensures ClearMay(old(See(t)), k, e)
  {
    if k !in t.closing { return Entry(Refused, See(t)); }
    t.ExitClear(k);
    e := Entry(Cleared, See(t));
  }

  method Handle(t: Table, event: Event) returns (e: Entry)
    requires t.Valid()
    modifies t
    ensures t.Valid() && e.view == See(t) && May(old(See(t)), event, e)
    ensures t.freed == old(t.freed) + if FreedBy(e).Some? then [FreedBy(e).value] else []
  {
    match event
    case Opens(p, device, readable, writable) => e := OpenOne(t, p, device, readable, writable);
    case Dups(p, k) => e := DupOne(t, p, k);
    case Closes(p, k) => e := CloseOne(t, p, k);
    case Pipes(p, noPage, copyFails) => e := PipeOne(t, p, noPage, copyFails);
    case Forks(p, np) => e := ForkOne(t, p, np);
    case ExitCloses(k) => e := ExitCloseOne(t, k);
    case ExitClears(k) => e := ClearOne(t, k);
  }

  lemma LawfulNext(v: View, events: seq<Event>, log: seq<Entry>, e: Entry)
    requires Lawful(v, events, log) && |log| < |events| && Sound(e.view) && May(Before(v, log, |log|), events[|log|], e)
    ensures Lawful(v, events, log + [e])
    ensures FreedIn(log + [e]) == FreedIn(log) + if FreedBy(e).Some? then [FreedBy(e).value] else []
  {
    var log' := log + [e];
    assert log'[..|log|] == log;
    forall j: nat | j < |log|
      ensures MayAt(v, events, log', j) <==> MayAt(v, events, log, j)
    {
      assert Before(v, log', j) == Before(v, log, j) && log'[j] == log[j];
    }
    assert Before(v, log', |log|) == Before(v, log, |log|);
  }

  /** Any interleaving of these calls: each gives what the law of the log says, reference counts stay exact, and
      the pipes' pages are given back as the log has it, none of them twice. */
  method Run(t: Table, events: seq<Event>) returns (log: seq<Entry>)
    requires t.Valid()
    modifies t
    ensures t.Valid() && |log| == |events| && Lawful(old(See(t)), events, log)
    ensures See(t) == Before(old(See(t)), log, |log|)
    ensures t.freed == old(t.freed) + FreedIn(log) && Distinct(t.freed)
  {
    ghost var v := See(t);
    SeenSound(t);
    log := [];
    for i := 0 to |events|
      invariant t.Valid() && |log| == i && Lawful(v, events, log) && See(t) == Before(v, log, i)
      invariant t.freed == old(t.freed) + FreedIn(log)
    {
      var e := Handle(t, events[i]);
      SeenSound(t);
      LawfulNext(v, events, log, e);
      log := log + [e];
    }
  }
}
