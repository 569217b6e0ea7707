/** Open files of kernel/file.c and the system calls that make, share and drop descriptors
    (kernel/syscall.c, kernel/pipe.c, fork and exit of kernel/proc.c). */
module Files {
  import opened Common

  const NFILE := 100
  const NOFILE := 16
  const N_PROC := 10
  const NSLOT := 160                   // N_PROC * NOFILE
  const NOFD := 100                    // an empty descriptor slot

  datatype Kind = FD_NONE | FD_PIPE | FD_INODE | FD_DEVICE

  datatype File = File(kind: Kind, ref: nat, readable: bool, writable: bool, pipe: nat)

  /** The flags of a struct pipe: is each end still open? */
  datatype Ends = Ends(readable: bool, writable: bool)

  predicate Open(e: Ends, writable: bool) {
    if writable then e.writable else e.readable
  }

  /** How many slots name file f. */
  function Count(slots: seq<nat>, f: nat): nat {
    if slots == [] then 0 else (if slots[0] == f then 1 else 0) + Count(slots[1..], f)
  }

  lemma {:induction false} CountSet(slots: seq<nat>, k: nat, v: nat, f: nat)
    requires k < |slots|
    ensures Count(slots[k := v], f) + (if slots[k] == f then 1 else 0) == Count(slots, f) + (if v == f then 1 else 0)
  {
    if k == 0 {
      assert slots[k := v][1..] == slots[1..];
    } else {
      assert slots[k := v][1..] == slots[1..][k - 1 := v];
      CountSet(slots[1..], k - 1, v, f);
    }
  }

  lemma {:induction false} CountWhere(slots: seq<nat>, f: nat)
    ensures Count(slots, f) > 0 <==> exists k :: 0 <= k < |slots| && slots[k] == f
  {
    if slots != [] {
      CountWhere(slots[1..], f);
      if k :| 0 <= k < |slots| && slots[k] == f {
        if k > 0 { assert slots[1..][k - 1] == f; }
      }
      if k :| 0 <= k < |slots[1..]| && slots[1..][k] == f {
        assert slots[k + 1] == f;
      }
    }
  }

  /** The file table, the pipes in existence and the pipes freed so far; ends says which file
      is which pipe's read or write end. */
  datatype State = State(files: seq<File>, pipes: map<nat, Ends>, freed: seq<nat>, next: nat,
                         ends: map<(nat, bool), nat>)

  /** A file's reference count is the number of descriptor slots that name it. */
  ghost predicate RefOk(s: State, slots: seq<nat>, f: nat) {
    && |s.files| == NFILE && f < NFILE
    && s.files[f].ref == Count(slots, f)
    && (s.files[f].ref == 0 <==> s.files[f].kind == FD_NONE)
    && (s.files[f].kind == FD_PIPE ==>
          && s.files[f].pipe in s.pipes && Open(s.pipes[s.files[f].pipe], s.files[f].writable)
          && (s.files[f].pipe, s.files[f].writable) in s.ends
          && s.ends[(s.files[f].pipe, s.files[f].writable)] == f)
  }

  /** A pipe's flag says whether that end still has an open file; one end at least has. */
  ghost predicate EndOk(s: State, x: nat, w: bool) {
    && ((x, w) in s.ends <==> x in s.pipes && Open(s.pipes[x], w))
    && ((x, w) in s.ends ==>
          && s.ends[(x, w)] < |s.files| && s.files[s.ends[(x, w)]].kind == FD_PIPE
          && s.files[s.ends[(x, w)]].pipe == x && s.files[s.ends[(x, w)]].writable == w)
    && (x in s.pipes ==> x < s.next && x !in s.freed && (s.pipes[x].readable || s.pipes[x].writable))
    && (x < s.next && x !in s.pipes ==> x in s.freed)
  }

  ghost predicate Good(s: State, slots: seq<nat>) {
    && |s.files| == NFILE && |slots| == NSLOT && (forall k | 0 <= k < NSLOT :: slots[k] <= NOFD)
    && (forall f: nat | f < NFILE :: RefOk(s, slots, f))
    && (forall x: nat, w: bool :: EndOk(s, x, w))
    && Distinct(s.freed) && (forall i | 0 <= i < |s.freed| :: s.freed[i] < s.next)
  }

  /** pipeclose, as far as flags and page go. */
  function PipeClosed(s: State, x: nat, w: bool): State {
    if x !in s.pipes then s else
    var e := if w then s.pipes[x].(writable := false) else s.pipes[x].(readable := false);
    var t := s.(ends := s.ends - {(x, w)});
    if !e.readable && !e.writable then t.(pipes := s.pipes - {x}, freed := s.freed + [x])
    else t.(pipes := s.pipes[x := e])
  }

  /** fileclose */
  function FileClosed(s: State, f: nat): State
    requires f < |s.files|
  {
    var file := s.files[f];
    if file.ref > 1 then s.(files := s.files[f := file.(ref := file.ref - 1)])
    else
      var t := s.(files := s.files[f := file.(ref := 0, kind := FD_NONE)]);
      if file.kind == FD_PIPE then PipeClosed(t, file.pipe, file.writable) else t
  }

  lemma CloseRefs(s: State, slots: seq<nat>, k: nat)
    requires Good(s, slots) && k < NSLOT && slots[k] < NFILE
    ensures s.files[slots[k]].ref > 0 && RefOk(s, slots, slots[k])
    ensures var slots' := slots[k := NOFD]; forall g: nat | g < NFILE :: RefOk(FileClosed(s, slots[k]), slots', g)
  {
    var f := slots[k];
    CountWhere(slots, f);
    assert RefOk(s, slots, f);
    var t, slots' := FileClosed(s, f), slots[k := NOFD];
    forall g: nat | g < NFILE
      ensures RefOk(t, slots', g)
    {
      CountSet(slots, k, NOFD, g);
      assert RefOk(s, slots, g);
    }
  }

  lemma CloseEnds(s: State, slots: seq<nat>, f: nat)
    requires Good(s, slots) && f < NFILE && s.files[f].ref > 0 && RefOk(s, slots, f)
    ensures forall x: nat, w: bool :: EndOk(FileClosed(s, f), x, w)
    ensures var q := FileClosed(s, f).freed; Distinct(q) && forall i | 0 <= i < |q| :: q[i] < s.next
  {
    var t := FileClosed(s, f);
    var y, v := s.files[f].pipe, s.files[f].writable;
    assert EndOk(s, y, v) && EndOk(s, y, !v);
    forall x: nat, w: bool
      ensures EndOk(t, x, w)
    {
      assert EndOk(s, x, w);
    }
  }

  lemma CloseGood(s: State, slots: seq<nat>, k: nat)
    requires Good(s, slots) && k < NSLOT && slots[k] < NFILE
    ensures s.files[slots[k]].ref > 0 && RefOk(s, slots, slots[k])
    ensures Good(FileClosed(s, slots[k]), slots[k := NOFD])
  {
    CloseRefs(s, slots, k);
    CloseEnds(s, slots, slots[k]);
  }

  /** filedup, for a slot that was empty. */
  lemma DupGood(s: State, slots: seq<nat>, k: nat, f: nat)
    requires Good(s, slots) && k < NSLOT && slots[k] == NOFD && f < NFILE && s.files[f].ref > 0
    ensures Good(s.(files := s.files[f := s.files[f].(ref := s.files[f].ref + 1)]), slots[k := f])
  {
    var t, slots' := s.(files := s.files[f := s.files[f].(ref := s.files[f].ref + 1)]), slots[k := f];
    assert RefOk(s, slots, f);
    forall g: nat | g < NFILE
      ensures RefOk(t, slots', g)
    {
      CountSet(slots, k, f, g);
      assert RefOk(s, slots, g);
    }
    forall x: nat, w: bool
      ensures EndOk(t, x, w)
    {
      assert EndOk(s, x, w);
    }
  }

  /** A free file becomes an open inode or device under one descriptor. */
  lemma OpenGood(s: State, slots: seq<nat>, k: nat, f: nat, file: File)
    requires Good(s, slots) && k < NSLOT && slots[k] == NOFD && f < NFILE && s.files[f].ref == 0
    requires file.ref == 1 && (file.kind == FD_INODE || file.kind == FD_DEVICE)
    ensures Good(s.(files := s.files[f := file]), slots[k := f])
  {
    var t, slots' := s.(files := s.files[f := file]), slots[k := f];
    assert RefOk(s, slots, f);
    forall g: nat | g < NFILE
      ensures RefOk(t, slots', g)
    {
      CountSet(slots, k, f, g);
      assert RefOk(s, slots, g);
    }
    forall x: nat, w: bool
      ensures EndOk(t, x, w)
    {
      assert EndOk(s, x, w);
    }
  }

  /** The two ends of a new pipe. */
  function PipeMade(s: State, f0: nat, f1: nat): State
    requires |s.files| == NFILE && f0 < NFILE && f1 < NFILE
  {
    s.(files := s.files[f0 := File(FD_PIPE, 1, true, false, s.next)][f1 := File(FD_PIPE, 1, false, true, s.next)],
       pipes := s.pipes[s.next := Ends(true, true)], next := s.next + 1,
       ends := s.ends[(s.next, false) := f0][(s.next, true) := f1])
  }

  lemma PipeGood(s: State, slots: seq<nat>, f0: nat, f1: nat, k0: nat, k1: nat)
    requires Good(s, slots) && f0 < NFILE && f1 < NFILE && f0 != f1 && s.files[f0].ref == 0 && s.files[f1].ref == 0
    requires k0 < NSLOT && k1 < NSLOT && k0 != k1 && slots[k0] == NOFD && slots[k1] == NOFD
    ensures Good(PipeMade(s, f0, f1), slots[k0 := f0][k1 := f1])
  {
    var t, slots1, slots' := PipeMade(s, f0, f1), slots[k0 := f0], slots[k0 := f0][k1 := f1];
    assert RefOk(s, slots, f0) && RefOk(s, slots, f1);
    assert EndOk(s, s.next, true) && EndOk(s, s.next, false);
    forall g: nat | g < NFILE
      ensures RefOk(t, slots', g)
    {
      CountSet(slots, k0, f0, g);
      CountSet(slots1, k1, f1, g);
      assert RefOk(s, slots, g);
    }
    forall x: nat, w: bool
      ensures EndOk(t, x, w)
    {
      assert EndOk(s, x, w);
      if x != s.next && (x, w) in s.ends { assert RefOk(s, slots, s.ends[(x, w)]); }
    }
  }

  /** A pipe made and at once closed at both ends: its page comes and goes. */
  lemma PipeUndone(s: State, slots: seq<nat>, f0: nat, f1: nat)
    requires Good(s, slots) && f0 < NFILE && f1 < NFILE && f0 != f1 && s.files[f0].ref == 0 && s.files[f1].ref == 0
    ensures
      var t := FileClosed(FileClosed(PipeMade(s, f0, f1), f0), f1);
      && Good(t, slots) && t.pipes == s.pipes && t.freed == s.freed + [s.next] && t.next == s.next + 1
      && forall g | 0 <= g < NFILE && g != f0 && g != f1 :: t.files[g] == s.files[g]
  {
    assert RefOk(s, slots, f0) && RefOk(s, slots, f1);
    assert EndOk(s, s.next, true) && EndOk(s, s.next, false);
    var t := FileClosed(FileClosed(PipeMade(s, f0, f1), f0), f1);
    assert t.pipes == s.pipes && t.ends == s.ends && t.freed == s.freed + [s.next];
    forall g: nat | g < NFILE
      ensures RefOk(t, slots, g)
    {
      assert RefOk(s, slots, g);
    }
    forall x: nat, w: bool
      ensures EndOk(t, x, w)
    {
      assert EndOk(s, x, w);
      if (x, w) in s.ends { assert RefOk(s, slots, s.ends[(x, w)]); }
    }
  }

  /** A pipe's end is open exactly while some descriptor names its file. */
  lemma EndHasDescriptor(s: State, slots: seq<nat>, x: nat, w: bool)
    requires Good(s, slots) && x in s.pipes
    ensures Open(s.pipes[x], w) <==>
      exists k :: 0 <= k < |slots| && slots[k] < NFILE && s.files[slots[k]].kind == FD_PIPE
                  && s.files[slots[k]].pipe == x && s.files[slots[k]].writable == w
  {
    assert EndOk(s, x, w);
    if Open(s.pipes[x], w) {
      var f := s.ends[(x, w)];
      assert RefOk(s, slots, f);
      CountWhere(slots, f);
    }
    if k :| 0 <= k < |slots| && slots[k] < NFILE && s.files[slots[k]].kind == FD_PIPE
            && s.files[slots[k]].pipe == x && s.files[slots[k]].writable == w {
      assert RefOk(s, slots, slots[k]);
    }
  }

  /** Slots in use: those an exiting process has closed and not yet cleared are not. */
  function Effective(slots: seq<nat>, closing: set<nat>): (e: seq<nat>)
    ensures |e| == |slots|
    ensures forall k | 0 <= k < |e| :: e[k] == if k in closing then NOFD else slots[k]
  {
    seq(|slots|, k requires 0 <= k < |slots| => if k in closing then NOFD else slots[k])
  }

  lemma EffectiveSet(slots: seq<nat>, closing: set<nat>, k: nat, v: nat)
    requires k < |slots| && k !in closing
    ensures Effective(slots[k := v], closing) == Effective(slots, closing)[k := v]
  {
  }

  /** The files in use both before and after are the same but for their reference counts. */
  ghost predicate SameLive(files: seq<File>, files': seq<File>) {
    |files'| == |files| &&
    forall f | 0 <= f < |files| && files[f].ref > 0 && files'[f].ref > 0 :: files'[f] == files[f].(ref := files'[f].ref)
  }

  predicate OwnSlot(p: nat, k: int) {
    p * NOFILE <= k < p * NOFILE + NOFILE
  }

  /** Slot k when fork has copied i descriptors of p to np. */
  function ForkedSlot(slots: seq<nat>, p: nat, np: nat, i: nat, k: nat): nat
    requires |slots| == NSLOT && p < N_PROC && np < N_PROC && i <= NOFILE && k < NSLOT
  {
    if np * NOFILE <= k < np * NOFILE + i then slots[k - np * NOFILE + p * NOFILE] else slots[k]
  }

  /** No reference is lost. */
  ghost predicate Growing(files: seq<File>, files': seq<File>) {
    |files'| == |files| && forall f | 0 <= f < |files| :: files[f].ref <= files'[f].ref
  }

  /** At most one file is free. */
  ghost predicate Scarce(files: seq<File>) {
    forall i, j | 0 <= i < j < |files| :: files[i].ref != 0 || files[j].ref != 0
  }

  /** At most one descriptor slot of process p is empty. */
  ghost predicate Crammed(slots: seq<nat>, p: nat) {
    forall i, j | OwnSlot(p, i) && OwnSlot(p, j) && i < j < |slots| :: slots[i] != NOFD || slots[j] != NOFD
  }

  class Table {
    var files: seq<File>               // ftable
    var slots: seq<nat>                // the ofile arrays of all processes, one after the other
    var closing: set<nat>              // slots whose file exit is closing, until it clears them
    var pipes: map<nat, Ends>
    ghost var freed: seq<nat>          // pipes whose page was given back, in order
    var next: nat                      // a name for the next pipe
    ghost var ends: map<(nat, bool), nat>

    ghost function Snap(): State
      reads this
    {
      State(files, pipes, freed, next, ends)
    }

    ghost predicate Valid()
      reads this
    {
      && Good(Snap(), Effective(slots, closing))
      && forall k: nat | k in closing :: k < |slots| && slots[k] < NFILE
    }

    constructor ()
      ensures Valid() && closing == {} && pipes == map[] && forall k | 0 <= k < NSLOT :: slots[k] == NOFD
    {
      files := seq(NFILE, i => File(FD_NONE, 0, false, false, 0));
      slots := seq(NSLOT, i => NOFD);
      closing, pipes, freed, next, ends := {}, map[], [], 0, map[];
      new;
      forall f: nat | f < NFILE
        ensures RefOk(Snap(), Effective(slots, closing), f)
      {
        CountWhere(Effective(slots, closing), f);
      }
      assert forall x: nat, w: bool :: EndOk(Snap(), x, w);
    }

    /** filealloc's scan: the first file nobody refers to, or NFILE. */
    method FindFile() returns (f: nat)
      requires |files| == NFILE
      ensures f <= NFILE && (f < NFILE ==> files[f].ref == 0) && forall i | 0 <= i < f :: files[i].ref != 0
    {
      f := 0;
      while f < NFILE
        invariant f <= NFILE && forall i | 0 <= i < f :: files[i].ref != 0
      {
        if files[f].ref == 0 { return; }
        f := f + 1;
      }
    }

    /** fdalloc's scan: process p's first empty slot, or NSLOT. */
    method FindSlot(p: nat) returns (k: nat)
      requires |slots| == NSLOT && p < N_PROC
      ensures k == NSLOT || (OwnSlot(p, k) && slots[k] == NOFD)
      ensures forall i | OwnSlot(p, i) && i < k :: slots[i] != NOFD
    {
      k := p * NOFILE;
      while k < p * NOFILE + NOFILE
        invariant p * NOFILE <= k <= p * NOFILE + NOFILE
        invariant forall i | OwnSlot(p, i) && i < k :: slots[i] != NOFD
      {
        if slots[k] == NOFD { return; }
        k := k + 1;
      }
      k := NSLOT;
    }

    /** pipeclose */
    method Pipeclose(x: nat, w: bool)
      requires x in pipes
      modifies this`pipes, this`freed, this`ends
      ensures Snap() == PipeClosed(old(Snap()), x, w)
    {
      var e := if w then pipes[x].(writable := false) else pipes[x].(readable := false);
      ends := ends - {(x, w)};
      if !e.readable && !e.writable {
        pipes, freed := pipes - {x}, freed + [x];
      } else {
        pipes := pipes[x := e];
      }
    }

    /** fileclose; the file must be in use, or the kernel panics. */
    method Fileclose(f: nat)
      requires |files| == NFILE && f < NFILE && files[f].ref > 0
      requires files[f].kind == FD_PIPE ==> files[f].pipe in pipes
      modifies this`files, this`pipes, this`freed, this`ends
      ensures Snap() == FileClosed(old(Snap()), f)
    {
      var ff := files[f];
      files := files[f := ff.(ref := ff.ref - 1)];
      if ff.ref - 1 > 0 { return; }
      files := files[f := ff.(ref := 0, kind := FD_NONE)];
      if ff.kind == FD_PIPE { Pipeclose(ff.pipe, ff.writable); }
    }

    /** sys_dup, for descriptor slot k of process p. */
    method Dup(p: nat, k: nat) returns (r: int)
      requires Valid() && p < N_PROC && OwnSlot(p, k) && slots[k] < NFILE && k !in closing
      modifies this`files, this`slots
      ensures Valid() && closing == old(closing) && pipes == old(pipes)
      ensures r == -1 ==> unchanged(this) && forall i | OwnSlot(p, i) && i < NSLOT :: slots[i] != NOFD
      ensures r != -1 ==> OwnSlot(p, r) && old(slots)[r] == NOFD && slots == old(slots)[r := old(slots)[k]]
      ensures r != -1 ==> forall i | OwnSlot(p, i) && i < r :: old(slots)[i] != NOFD
      ensures SameLive(old(files), files)
    {
      var n := FindSlot(p);
      if n == NSLOT { return -1; }
      var f := slots[k];
      CloseGood(Snap(), Effective(slots, closing), k);
      DupGood(Snap(), Effective(slots, closing), n, f);
      EffectiveSet(slots, closing, n, f);
      slots := slots[n := f];
      files := files[f := files[f].(ref := files[f].ref + 1)];
      r := n;
    }

    /** sys_close */
    method Close(p: nat, k: nat)
      requires Valid() && p < N_PROC && OwnSlot(p, k) && k < NSLOT && slots[k] < NFILE && k !in closing
      modifies this`files, this`slots, this`pipes, this`freed, this`ends
      ensures Valid() && closing == old(closing) && slots == old(slots)[k := NOFD]
      ensures Snap() == FileClosed(old(Snap()), old(slots)[k])
    {
      CloseGood(Snap(), Effective(slots, closing), k);
      EffectiveSet(slots, closing, k, NOFD);
      var f := slots[k];
      slots := slots[k := NOFD];
      Fileclose(f);
    }

    /** The descriptor part of sys_open. */
    method OpenFile(p: nat, device: bool, readable: bool, writable: bool) returns (r: int)
      requires Valid() && p < N_PROC
      modifies this`files, this`slots, this`pipes, this`freed, this`ends
      ensures Valid() && closing == old(closing) && pipes == old(pipes) && freed == old(freed)
      ensures r == -1 ==> slots == old(slots) && files == old(files)
      ensures r == -1 <==> (forall f | 0 <= f < NFILE :: old(files)[f].ref != 0) ||
                           (forall i | OwnSlot(p, i) && i < NSLOT :: old(slots)[i] != NOFD)
      ensures r != -1 ==> exists f: nat ::
        && f < NFILE && old(files)[f].ref == 0 && OwnSlot(p, r) && old(slots)[r] == NOFD
        && slots == old(slots)[r := f]
        && files == old(files)[f := old(files)[f].(kind := if device then FD_DEVICE else FD_INODE, ref := 1,
                                                   readable := readable, writable := writable)]
      ensures r != -1 ==> forall i | OwnSlot(p, i) && i < r :: old(slots)[i] != NOFD
    {
      var f := FindFile();
      if f == NFILE { return -1; }
      assert RefOk(Snap(), Effective(slots, closing), f);
      files := files[f := files[f].(ref := 1)];
      var k := FindSlot(p);
      if k == NSLOT {
        Fileclose(f);
        assert Snap() == old(Snap());
        return -1;
      }
      var kind := if device then FD_DEVICE else FD_INODE;
      ghost var file := files[f].(kind := kind, readable := readable, writable := writable);
      OpenGood(old(Snap()), Effective(slots, closing), k, f, file);
      EffectiveSet(slots, closing, k, f);
      slots := slots[k := f];
      files := files[f := files[f].(kind := kind, readable := readable, writable := writable)];
      assert Snap() == old(Snap()).(files := old(files)[f := file]);
      r := k;
    }

    /** The new pipe's fields and those of its two files. */
    method SetPipe(f0: nat, f1: nat)
      requires |files| == NFILE && f0 < f1 < NFILE && files[f0].ref == files[f1].ref == 1
      modifies this`files, this`pipes, this`next, this`ends
      ensures Snap() == PipeMade(old(Snap()), f0, f1)
    {
      files := files[f0 := File(FD_PIPE, files[f0].ref, true, false, next)];
      files := files[f1 := File(FD_PIPE, files[f1].ref, false, true, next)];
      pipes := pipes[next := Ends(true, true)];
      ends := ends[(next, false) := f0][(next, true) := f1];
      next := next + 1;
    }

    /** pipealloc: a pipe with its two files, or nothing. */
    method Pipealloc(noPage: bool) returns (ok: bool, f0: nat, f1: nat)
      requires Valid()
      modifies this`files, this`pipes, this`freed, this`next, this`ends
      ensures !ok ==> Snap() == old(Snap())
      ensures ok ==> f0 < f1 < NFILE && old(files)[f0].ref == 0 && old(files)[f1].ref == 0 && !noPage
      ensures ok ==> Snap() == PipeMade(old(Snap()), f0, f1)
      ensures !ok && !noPage ==> Scarce(old(files))
    {
      f0 := FindFile();
      f1 := NFILE;
      if f0 == NFILE { return false, f0, f1; }
      assert RefOk(Snap(), Effective(slots, closing), f0);
      files := files[f0 := files[f0].(ref := 1)];
      f1 := FindFile();
      if f1 == NFILE {
        Fileclose(f0);
        assert files == old(files);
        return false, f0, f1;
      }
      assert RefOk(old(Snap()), Effective(slots, closing), f1);
      files := files[f1 := files[f1].(ref := 1)];
      if noPage {
        Fileclose(f0);
        Fileclose(f1);
        assert files == old(files);
        return false, f0, f1;
      }
      SetPipe(f0, f1);
      assert files == PipeMade(old(Snap()), f0, f1).files;
      return true, f0, f1;
    }

    /** The two fdallocs of sys_pipe, the first taken back when the second fails. */
    method TwoSlots(p: nat, f0: nat, f1: nat) returns (ok: bool, k0: nat, k1: nat)
      requires |slots| == NSLOT && p < N_PROC && f0 < NFILE && f1 < NFILE
      modifies this`slots
      ensures !ok ==> slots == old(slots) && Crammed(slots, p)
      ensures ok ==>
        && OwnSlot(p, k0) && OwnSlot(p, k1) && k0 < k1 < NSLOT && old(slots)[k0] == NOFD && old(slots)[k1] == NOFD
        && slots == old(slots)[k0 := f0][k1 := f1]
        && forall i | OwnSlot(p, i) && i < k1 && i != k0 :: old(slots)[i] != NOFD
    {
      ok, k1 := false, NSLOT;
      k0 := FindSlot(p);
      if k0 == NSLOT { return; }
      slots := slots[k0 := f0];
      k1 := FindSlot(p);
      if k1 == NSLOT {
        slots := slots[k0 := NOFD];
        assert slots == old(slots);
        return;
      }
      slots := slots[k1 := f1];
      ok := true;
    }

    /** The end of sys_pipe when it fails: both files are closed. */
    method DropPipe(f0: nat, f1: nat, ghost s: State)
      requires Good(s, Effective(slots, closing)) && f0 < f1 < NFILE && s.files[f0].ref == 0 && s.files[f1].ref == 0
      requires Snap() == PipeMade(s, f0, f1) && forall k: nat | k in closing :: k < |slots| && slots[k] < NFILE
      modifies this`files, this`pipes, this`freed, this`ends
      ensures Valid() && pipes == s.pipes && freed == s.freed + [s.next] && SameLive(s.files, files)
    {
      PipeUndone(s, Effective(slots, closing), f0, f1);
      Fileclose(f0);
      Fileclose(f1);
    }

    /** sys_pipe; copying the descriptors out may fail. */
    method PipeCall(p: nat, noPage: bool, copyFails: bool) returns (r: int, k0: nat, k1: nat)
      requires Valid() && p < N_PROC
      modifies this`files, this`slots, this`pipes, this`freed, this`next, this`ends
      ensures Valid() && closing == old(closing) && (r == 0 || r == -1)
      ensures r == -1 ==> slots == old(slots) && pipes == old(pipes) && SameLive(old(files), files)
      ensures r == -1 ==>
        old(next) <= next <= old(next) + 1 && freed == old(freed) + if next == old(next) then [] else [old(next)]
      ensures r == -1 ==> noPage || copyFails || Scarce(old(files)) || Crammed(old(slots), p)
      ensures r == 0 ==> !noPage && !copyFails && forall i | OwnSlot(p, i) && i < k1 && i != k0 :: old(slots)[i] != NOFD
      ensures r == 0 ==>
        && OwnSlot(p, k0) && OwnSlot(p, k1) && k0 < k1 < NSLOT && old(slots)[k0] == NOFD && old(slots)[k1] == NOFD
        && exists f0: nat, f1: nat ::
             && f0 < f1 < NFILE && old(files)[f0].ref == 0 && old(files)[f1].ref == 0
             && slots == old(slots)[k0 := f0][k1 := f1] && Snap() == PipeMade(old(Snap()), f0, f1)
    {
      var ok, f0, f1 := Pipealloc(noPage);
      k0, k1 := NSLOT, NSLOT;
      if !ok { return -1, k0, k1; }
      ok, k0, k1 := TwoSlots(p, f0, f1);
      if !ok {
        DropPipe(f0, f1, old(Snap()));
        return -1, k0, k1;
      }
      if copyFails {
        slots := slots[k0 := NOFD];
        slots := slots[k1 := NOFD];
        assert slots == old(slots);
        DropPipe(f0, f1, old(Snap()));
        return -1, k0, k1;
      }
      PipeGood(old(Snap()), Effective(old(slots), closing), f0, f1, k0, k1);
      EffectiveSet(old(slots), closing, k0, f0);
      EffectiveSet(old(slots)[k0 := f0], closing, k1, f1);
      return 0, k0, k1;
    }

    /** fork's loop: the child np gets a copy of every descriptor of p. */
    method ForkFiles(p: nat, np: nat)
      requires Valid() && p < N_PROC && np < N_PROC && p != np
      requires forall k: nat | OwnSlot(np, k) :: slots[k] == NOFD
      requires forall k: nat | OwnSlot(p, k) :: k !in closing
      modifies this`files, this`slots
      ensures Valid() && closing == old(closing) && pipes == old(pipes) && |slots| == NSLOT
      ensures forall k: nat | k < NSLOT :: slots[k] == ForkedSlot(old(slots), p, np, NOFILE, k)
      ensures SameLive(old(files), files)
    {
      var i := 0;
      while i < NOFILE
        invariant 0 <= i <= NOFILE && Valid() && closing == old(closing) && pipes == old(pipes)
        invariant SameLive(old(files), files) && Growing(old(files), files)
        invariant |slots| == NSLOT && forall k: nat | k < NSLOT :: slots[k] == ForkedSlot(old(slots), p, np, i, k)
      {
        var k, n := p * NOFILE + i, np * NOFILE + i;
        assert OwnSlot(p, k) && OwnSlot(np, n) && !OwnSlot(np, k);
        assert slots[k] == old(slots)[k] && slots[n] == NOFD;
        if slots[k] != NOFD { CopySlot(k, n); }
        i := i + 1;
      }
    }

    /** The child gets its own reference to the open file in one slot. */
    method CopySlot(k: nat, n: nat)
      requires Valid() && k < NSLOT && n < NSLOT && slots[k] < NFILE && k !in closing && slots[n] == NOFD
      modifies this`files, this`slots
      ensures Valid() && slots == old(slots)[n := old(slots)[k]] && SameLive(old(files), files)
      ensures Growing(old(files), files)
    {
      var f := slots[k];
      CloseGood(Snap(), Effective(slots, closing), k);
      DupGood(Snap(), Effective(slots, closing), n, f);
      EffectiveSet(slots, closing, n, f);
      files := files[f := files[f].(ref := files[f].ref + 1)];
      slots := slots[n := f];
    }

    /** exit closes a descriptor: fileclose may sleep before the slot is cleared ... */
    method ExitClose(k: nat)
      requires Valid() && k < NSLOT && slots[k] < NFILE && k !in closing
      modifies this`files, this`closing, this`pipes, this`freed, this`ends
      ensures Valid() && closing == old(closing) + {k} && Snap() == FileClosed(old(Snap()), slots[k])
    {
      CloseGood(Snap(), Effective(slots, closing), k);
      assert Effective(slots, closing + {k}) == Effective(slots, closing)[k := NOFD];
      closing := closing + {k};
      Fileclose(slots[k]);
    }

    /** ... and then it is. */
    method ExitClear(k: nat)
      requires Valid() && k in closing
      modifies this`slots, this`closing
      ensures Valid() && closing == old(closing) - {k} && k < |old(slots)| && slots == old(slots)[k := NOFD]
    {
      assert Effective(slots[k := NOFD], closing - {k}) == Effective(slots, closing);
      slots := slots[k := NOFD];
      closing := closing - {k};
    }
  }
}
