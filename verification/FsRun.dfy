/** Whole runs of the file system of kernel/fs.c, seen as operations on flat byte sequences. */
module FsRun {

  import opened Bytes
  import opened FsLayout
  import opened FsMedium
  import opened Fs

  /** readi up to room bytes before a copy fails, writei up to fault bytes before one does, itrunc, and the
      recycling of the buffer that holds block bn of a file. */
  datatype Op =
    | Read(i: nat, off: nat, n: nat, room: nat)
    | Write(i: nat, off: nat, src: seq<byte>, fault: nat)
    | Trunc(i: nat)
    | Evict(i: nat, bn: nat)

  datatype Event = Got(r: int, data: seq<byte>) | Wrote(r: int) | Cleared | Recycled

  predicate Sensible(op: Op, n: nat) {
    match op
    case Read(i, off, len, _) => i < n && off < U32 && len < U32
    case Write(i, off, src, _) => i < n && off < U32 && |src| < U32
    case Trunc(i) => i < n
    case Evict(i, bn) => i < n && bn < MAXFILE
  }

  /** The files as programs see them and as the medium has them, and whether no block is free. */
  datatype Flat = Flat(now: seq<seq<byte>>, kept: seq<seq<byte>>, full: bool)

  ghost predicate FlatOk(A: Flat) {
    |A.now| == |A.kept| && forall j | 0 <= j < |A.now| :: |A.now[j]| == |A.kept[j]|
  }

  /** readi on a flat file. */
  predicate ReadResult(F: seq<byte>, off: nat, n: nat, room: nat, r: int, data: seq<byte>) {
    if off > |F| || off + n >= U32 then r == 0 && data == []
    else
      var m := if off + n > |F| then |F| - off else n;
      if m <= room then r == m && data == F[off..off + m] else r == -1 && data == F[off..off + room]
  }

  predicate Refused(F: seq<byte>, off: nat, src: seq<byte>) {
    off > |F| || off + |src| > MAXFILE * BSIZE
  }

  /**
    * writei on a flat file: refused outright, or the first r bytes written, or, when a copy failed, those that
    * could be copied, cut off at the size reached.  A count short of the length means that the disk is full and
    * that the next byte lies past the old end, at a block boundary or the start.  The medium's file is brought up
    * to date in the blocks that were written: all that hold the r bytes, or those up to the last block boundary
    * before the failure.
    */
  ghost predicate WriteResult(F: seq<byte>, D: seq<byte>, G: seq<byte>, E: seq<byte>, off: nat, src: seq<byte>,
                              fault: nat, r: int, full: bool)
    requires |F| == |D|
  {
    if Refused(F, off, src) then r == -1 && G == F && E == D
    else
      && Outcome(F, D, off, src, fault, r, if r == -1 then Settled(off, fault) else if r < 0 then 0 else r, G, E)
      && (r != -1 && r < |src| ==> full && Stopped(off, r, |F|))
  }

  /** What an operation does to the files: the file it names changes as above, and no other does. */
  ghost predicate Effect(A: Flat, op: Op, ev: Event, B: Flat)
    requires FlatOk(A) && Sensible(op, |A.now|)
  {
    && |B.now| == |A.now| && FlatOk(B)
    && (forall j | 0 <= j < |A.now| && j != op.i :: B.now[j] == A.now[j] && B.kept[j] == A.kept[j])
    && match op
       case Read(i, off, n, room) => B == A && ev.Got? && ReadResult(A.now[i], off, n, room, ev.r, ev.data)
       case Write(i, off, src, fault) =>
         ev.Wrote? && WriteResult(A.now[i], A.kept[i], B.now[i], B.kept[i], off, src, fault, ev.r, B.full)
       case Trunc(i) => B.now[i] == [] && ev == Cleared
       case Evict(i, bn) =>
         B.full == A.full && B.kept == A.kept && B.now[i] == Committed(A.now[i], A.kept[i], bn) && ev == Recycled
  }

  ghost function FlatOf(fs: FileSystem): (A: Flat)
    requires fs.Valid()
    reads fs
    ensures FlatOk(A) && |A.now| == |fs.nodes|
  {
    Flat(Files(fs.sb, fs.disk, fs.nodes, fs.owner), fs.Stored(), fs.Full())
  }

  lemma ReadEffect(A: Flat, i: nat, off: nat, n: nat, room: nat, r: int, data: seq<byte>)
    requires FlatOk(A) && Sensible(Read(i, off, n, room), |A.now|) && ReadResult(A.now[i], off, n, room, r, data)
    ensures Effect(A, Read(i, off, n, room), Got(r, data), A)
  {
  }

  method ReadStep(fs: FileSystem, i: nat, off: nat, n: nat, room: nat) returns (r: int, data: seq<byte>)
    requires fs.Valid() && i < |fs.nodes| && off < U32 && n < U32
    modifies fs
    ensures fs.Valid() && |fs.nodes| == old(|fs.nodes|)
    ensures Effect(old(FlatOf(fs)), Read(i, off, n, room), Got(r, data), FlatOf(fs))
  {
    ghost var A := FlatOf(fs);
    r, data := fs.Readi(i, off, n, room);
    ReadEffect(A, i, off, n, room, r, data);
  }

  method WriteStep(fs: FileSystem, i: nat, off: nat, src: seq<byte>, fault: nat) returns (r: int)
    requires fs.Valid() && i < |fs.nodes| && off < U32 && |src| < U32
    modifies fs
    ensures fs.Valid() && |fs.nodes| == old(|fs.nodes|)
    ensures Effect(old(FlatOf(fs)), Write(i, off, src, fault), Wrote(r), FlatOf(fs))
  {
    ghost var tot;
    r, tot := fs.Writei(i, off, src, fault);
  }

  method EvictStep(fs: FileSystem, i: nat, bn: nat)
    requires fs.Valid() && i < |fs.nodes| && bn < MAXFILE
    modifies fs
    ensures fs.Valid() && |fs.nodes| == old(|fs.nodes|)
    ensures Effect(old(FlatOf(fs)), Evict(i, bn), Recycled, FlatOf(fs))
  {
    fs.Evict(i, bn);
  }

  method TruncStep(fs: FileSystem, i: nat)
    requires fs.Valid() && i < |fs.nodes|
    modifies fs
    ensures fs.Valid() && |fs.nodes| == old(|fs.nodes|)
    ensures Effect(old(FlatOf(fs)), Trunc(i), Cleared, FlatOf(fs))
  {
    fs.Itrunc(i);
  }

  method Step(fs: FileSystem, op: Op) returns (ev: Event)
    requires fs.Valid() && Sensible(op, |fs.nodes|)
    modifies fs
    ensures fs.Valid() && |fs.nodes| == old(|fs.nodes|)
    ensures Effect(old(FlatOf(fs)), op, ev, FlatOf(fs))
  {
    match op
    case Read(i, off, n, room) =>
      var r, data := ReadStep(fs, i, off, n, room);
      ev := Got(r, data);
    case Write(i, off, src, fault) =>
      var r := WriteStep(fs, i, off, src, fault);
      ev := Wrote(r);
    case Trunc(i) =>
      TruncStep(fs, i);
      ev := Cleared;
    case Evict(i, bn) =>
      EvictStep(fs, i, bn);
      ev := Recycled;
  }

  /** Event k is what operation k does between two states of the files. */
  ghost predicate StepOk(trace: seq<Flat>, ops: seq<Op>, evs: seq<Event>, k: nat) {
    && k < |ops| && k < |evs| && k + 1 < |trace|
    && FlatOk(trace[k]) && Sensible(ops[k], |trace[k].now|) && Effect(trace[k], ops[k], evs[k], trace[k + 1])
  }

  ghost predicate Trail(trace: seq<Flat>, ops: seq<Op>, evs: seq<Event>) {
    |trace| == |evs| + 1 && forall k: nat | k < |evs| :: StepOk(trace, ops, evs, k)
  }

  lemma TrailNext(trace: seq<Flat>, ops: seq<Op>, evs: seq<Event>, ev: Event, B: Flat)
    requires Trail(trace, ops, evs) && |evs| < |ops|
    requires FlatOk(trace[|evs|]) && Sensible(ops[|evs|], |trace[|evs|].now|) && Effect(trace[|evs|], ops[|evs|], ev, B)
    ensures Trail(trace + [B], ops, evs + [ev])
  {
    forall k: nat | k < |evs + [ev]|
      ensures StepOk(trace + [B], ops, evs + [ev], k)
    {
      if k < |evs| { assert StepOk(trace, ops, evs, k); }
    }
  }

  /**
    * Any run of readi, writei and itrunc, with buffers recycled at any point, is a run of the same operations on
    * flat files, and keeps the blocks allocated exactly where they are referred to.
    */
  method Run(fs: FileSystem, ops: seq<Op>) returns (evs: seq<Event>, ghost trace: seq<Flat>)
    requires fs.Valid() && forall op | op in ops :: Sensible(op, |fs.nodes|)
    modifies fs
    ensures fs.Valid() && |evs| == |ops| && |trace| == |ops| + 1
    ensures trace[0] == old(FlatOf(fs)) && trace[|ops|] == FlatOf(fs)
    ensures Trail(trace, ops, evs)
  {
    ghost var A := FlatOf(fs);
    evs, trace := [], [A];
    for k := 0 to |ops|
      invariant fs.Valid() && |fs.nodes| == old(|fs.nodes|) && |evs| == k && Trail(trace, ops, evs)
      invariant trace[0] == old(FlatOf(fs)) && trace[k] == A == FlatOf(fs)
    {
      var ev := Step(fs, ops[k]);
      ghost var B := FlatOf(fs);
      TrailNext(trace, ops, evs, ev, B);
      evs, trace, A := evs + [ev], trace + [B], B;
    }
  }

  // ---------------------------------------------------------------- when nothing is left unwritten

  /** The bytes copied after the last block that was written, as far as they show. */
  ghost predicate SameAsBefore(F: seq<byte>, off: nat, src: seq<byte>, fault: nat) {
    fault <= |src| && forall p | off + Settled(off, fault) <= p < off + fault && p < |F| :: src[p - off] == F[p]
  }

  lemma {:induction false} SettledPast(off: nat, fault: nat, p: nat)
    requires Touched(p, off, Settled(off, fault))
    ensures p < off + Settled(off, fault)
  {
    var tot := Settled(off, fault);
    assert (off + tot - 1) / BSIZE < (off + tot) / BSIZE;
  }

  lemma TouchedIn(p: nat, off: nat, n: nat)
    requires off <= p < off + n
    ensures Touched(p, off, n)
  {
  }

  lemma AgreeDone(F: seq<byte>, G: seq<byte>, E: seq<byte>, off: nat, src: seq<byte>, r: nat)
    requires off <= |F| && r <= |src| && G == Overwrite(F, off, src[..r]) && E == Synced(F, G, off, r)
    ensures E == G
  {
    forall p | 0 <= p < |G|
      ensures E[p] == G[p]
    {
      if off <= p < off + r { TouchedIn(p, off, r); }
    }
  }

  /** After a failed copy the medium has the new bytes up to the last block boundary and the old ones from there. */
  lemma AgreeFault(F: seq<byte>, G: seq<byte>, E: seq<byte>, off: nat, src: seq<byte>, fault: nat)
    requires off <= |F| && fault < |src| && Outcome(F, F, off, src, fault, -1, Settled(off, fault), G, E)
    ensures E == G <==> SameAsBefore(F, off, src, fault)
  {
    var tot := Settled(off, fault);
    forall p | 0 <= p < |G|
      ensures E[p] == if off + tot <= p < off + fault && p < |F| then F[p] else G[p]
    {
      if Touched(p, off, tot) { SettledPast(off, fault, p); }
      if off <= p < off + tot { TouchedIn(p, off, tot); }
    }
    if E == G {
      forall p | off + tot <= p < off + fault && p < |F|
        ensures src[p - off] == F[p]
      {
        assert G[p] == src[p - off] && E[p] == F[p];
      }
    }
  }

  /** A write that ran out of blocks before its fault had nothing of the file left to change. */
  lemma StoppedPast(F: seq<byte>, off: nat, src: seq<byte>, fault: nat, r: nat)
    requires r < |src| && r <= fault < |src| && Stopped(off, r, |F|)
    ensures SameAsBefore(F, off, src, fault)
  {
    SettledFrom(off, fault, r);
  }

  lemma SettledFrom(off: nat, fault: nat, r: nat)
    requires r <= fault && (r == 0 || (off + r) % BSIZE == 0)
    ensures r <= Settled(off, fault)
  {
    var rest := (off + fault) % BSIZE;
    if r > 0 {
      var k, l := (off + r) / BSIZE, (off + fault) / BSIZE;
      assert off + r == k * BSIZE && off + fault == l * BSIZE + rest && k <= l;
    }
  }

  /**
    * Where cache and medium agreed, they agree after writei exactly when it is refused, its source can be read to
    * the end, or what the source has from the last block boundary before the fault on, as far as the file
    * reaches, is what the file has there.
    */
  lemma AgreeIff(F: seq<byte>, G: seq<byte>, E: seq<byte>, off: nat, src: seq<byte>, fault: nat, r: int, full: bool)
    requires WriteResult(F, F, G, E, off, src, fault, r, full)
    ensures E == G <==> Refused(F, off, src) || |src| <= fault || SameAsBefore(F, off, src, fault)
  {
    if !Refused(F, off, src) {
      if r == -1 {
        AgreeFault(F, G, E, off, src, fault);
      } else {
        AgreeDone(F, G, E, off, src, r);
        if fault < |src| { StoppedPast(F, off, src, fault, r); }
      }
    }
  }

  /** In particular when the failure is at a block boundary, before the first byte, or past the file's end. */
  lemma AgreeAtBoundary(F: seq<byte>, G: seq<byte>, E: seq<byte>, off: nat, src: seq<byte>, fault: nat, r: int,
                        full: bool)
    requires WriteResult(F, F, G, E, off, src, fault, r, full)
    requires fault == 0 || (off + fault) % BSIZE == 0 || off + Settled(off, fault) >= |F|
    ensures E == G
  {
    AgreeIff(F, G, E, off, src, fault, r, full);
  }

  /** What a caller of writei can count on, from its arguments alone. */
  method WriteAgreed(fs: FileSystem, i: nat, off: nat, src: seq<byte>, fault: nat) returns (r: int)
    requires fs.Valid() && i < |fs.nodes| && off < U32 && |src| < U32
    requires fs.Stored()[i] == File(fs.disk, fs.nodes[i])
    modifies fs
    ensures fs.Valid() && i < |fs.nodes|
    ensures
      var F := old(File(fs.disk, fs.nodes[i]));
      fs.Stored()[i] == File(fs.disk, fs.nodes[i]) <==>
        Refused(F, off, src) || |src| <= fault || SameAsBefore(F, off, src, fault)
  {
    ghost var F := File(fs.disk, fs.nodes[i]);
    r := WriteStep(fs, i, off, src, fault);
    AgreeIff(F, File(fs.disk, fs.nodes[i]), fs.Stored()[i], off, src, fault, r, fs.Full());
  }

  lemma NotStopped(tot: nat, size: nat)
    requires tot <= 1 && 0 < size
    ensures !Stopped(0, tot, size)
  {
  }

  lemma FirstByte(F: seq<byte>, G: seq<byte>, E: seq<byte>, x: byte, y: byte, tot: nat)
    requires 0 < |F| && Outcome(F, F, 0, [x, y], 1, -1, tot, G, E)
    ensures |G| == |E| == |F| && G[0] == x && E[0] == F[0] && Committed(G, E, 0)[0] == F[0]
  {
    assert Settled(0, 1) == 0;
    assert [x, y][..1] == [x];
  }

  /**
    * Elsewhere a write that fails can be seen and then be gone: with a first byte that differs and a source
    * that faults after it, writei returns -1, the next read finds the new byte, and the read after the
    * buffer was recycled finds the old one.
    */
  method SeenThenGone(fs: FileSystem, i: nat, x: byte, y: byte) returns (r: int, first: seq<byte>, second: seq<byte>)
    requires fs.Valid() && i < |fs.nodes| && fs.nodes[i].size > 0
    requires fs.Stored()[i] == File(fs.disk, fs.nodes[i])
    modifies fs
    ensures r == -1 && first == [x] && second == [old(File(fs.disk, fs.nodes[i])[0])]
  {
    ghost var F, D := File(fs.disk, fs.nodes[i]), fs.Stored()[i];
    ghost var tot;
    r, tot := fs.Writei(i, 0, [x, y], 1);
    NotStopped(tot, |F|);
    ghost var G, E := File(fs.disk, fs.nodes[i]), fs.Stored()[i];
    FirstByte(F, G, E, x, y, tot);
    var n;
    n, first := fs.Readi(i, 0, 1, 1);
    fs.Evict(i, 0);
    n, second := fs.Readi(i, 0, 1, 1);
  }
}
