/** Whole runs of dirlookup, dirlink and the unlinking of names in one directory of kernel/fs.c: with names that
    fit, the directory is the finite map these calls build. */
module DirRun {
  import opened Bytes
  import opened FsLayout
  import opened FsMedium
  import opened Fs
  import opened Dir

  datatype Op = Lookup(name: Name) | Link(name: Name, inum: nat) | Unlink(name: Name)

  type Table = map<Name, nat>

  /** The directory binds exactly what the map does. */
  ghost predicate Tabled(F: seq<byte>, t: Table) {
    forall n: Name, x: nat :: Binds(F, n, x) <==> n in t && t[n] == x
  }

  /** A name that dirlink stores whole, and an inode number that is one. */
  predicate Sensible(op: Op) {
    IsName(op.name) && |op.name| < DIRSIZ && (op.Link? ==> 0 < op.inum < 65536)
  }

  /** The map between two calls, the size of the directory, and whether no block of the disk is free. */
  datatype Mark = Mark(table: Table, size: nat, full: bool)

  /** As many names as entries: none can be used again. */
  predicate Tight(m: Mark) {
    m.size == ENTRY * |m.table|
  }

  /** What a call does to the map and the size.  Entries given up are used again, so that a link makes the directory
      larger only if it has as many names as entries.  A name is not linked only if it is bound, or there is no such
      entry and the directory is as large as a file can be or its next block is missing on a full disk. */
  predicate Does(from: Mark, op: Op, r: int, to: Mark) {
    var t, t' := from.table, to.table;
    match op
    case Lookup(name) => to == from && r == if name in t then t[name] else 0
    case Link(name, inum) =>
      if r == 0 then
        name !in t && t' == t[name := inum] && to.size == if Tight(from) then from.size + ENTRY else from.size
      else
        && r == -1 && t' == t && to.size == from.size
        && (name in t || (Tight(from) && (from.size == MAXFILE * BSIZE || (to.full && from.size % BSIZE == 0))))
    case Unlink(name) =>
      if name in t then r == 0 && t' == t - {name} && to.size == from.size else r == -1 && to == from
  }

  /** The names bound by the first n entries. */
  ghost function Names(F: seq<byte>, n: nat): set<Name>
    requires n <= Count(F)
  {
    if n == 0 then {} else Names(F, n - 1) + if Live(F, n - 1) then {NameOf(Entry(F, n - 1))} else {}
  }

  lemma {:induction false} NamesIff(F: seq<byte>, n: nat, name: Name)
    requires n <= Count(F)
    ensures name in Names(F, n) <==> exists k: nat, x: nat :: k < n && BindsAt(F, k, name, x)
  {
    if n > 0 {
      NamesIff(F, n - 1, name);
      if Live(F, n - 1) && NameOf(Entry(F, n - 1)) == name {
        assert BindsAt(F, n - 1, name, Inum(Entry(F, n - 1)));
      }
    }
  }

  /** Entries are as many as names exactly if all are live. */
  lemma {:induction false} NamesCount(F: seq<byte>, n: nat)
    requires IsDirectory(F) && n <= Count(F)
    ensures |Names(F, n)| <= n && (|Names(F, n)| == n <==> forall k: nat | k < n :: Live(F, k))
  {
    if n > 0 {
      NamesCount(F, n - 1);
      if Live(F, n - 1) {
        var name := NameOf(Entry(F, n - 1));
        NamesIff(F, n - 1, name);
        assert BindsAt(F, n - 1, name, Inum(Entry(F, n - 1)));
        assert name !in Names(F, n - 1);
      }
    }
  }

  lemma TightIff(F: seq<byte>, t: Table)
    requires IsDirectory(F) && Tabled(F, t)
    ensures |F| == ENTRY * |t| <==> Packed(F)
  {
    var n := Count(F);
    NamesCount(F, n);
    forall name: Name
      ensures name in Names(F, n) <==> name in t
    {
      NamesIff(F, n, name);
      if name in t { assert Binds(F, name, t[name]); }
      if k: nat, x: nat :| k < n && BindsAt(F, k, name, x) { assert Binds(F, name, x); }
    }
    assert Names(F, n) == t.Keys;
  }

  lemma NotTabled(F: seq<byte>, t: Table, name: Name)
    requires Tabled(F, t) && Unbound(F, name)
    ensures name !in t
  {
    assert !Binds(F, name, if name in t then t[name] else 0);
  }

  lemma LinkTabled(F: seq<byte>, F': seq<byte>, t: Table, name: Name, inum: nat)
    requires Tabled(F, t) && Linked(F, F', name, inum) && Unbound(F, name) && |name| < DIRSIZ && 0 < inum < 65536
    ensures name !in t && Tabled(F', t[name := inum])
  {
    NotTabled(F, t, name);
    var t' := t[name := inum];
    forall n: Name, x: nat
      ensures Binds(F', n, x) <==> n in t' && t'[n] == x
    {
      assert Binds(F, n, x) <==> n in t && t[n] == x;
    }
  }

  /** A link takes the end of the directory just when every entry is live. */
  lemma LinkedSize(F: seq<byte>, F': seq<byte>)
    requires exists k: nat :: FirstFree(F, k) && OnlyEntry(F, F', k)
    ensures |F'| == if Packed(F) then |F| + ENTRY else |F|
  {
    var k: nat :| FirstFree(F, k) && OnlyEntry(F, F', k);
    assert k < Count(F) ==> !Live(F, k);
  }

  lemma UnlinkTabled(F: seq<byte>, F': seq<byte>, t: Table, name: Name)
    requires Tabled(F, t) && forall n: Name, x: nat :: Binds(F', n, x) <==> Binds(F, n, x) && n != name
    ensures Tabled(F', t - {name})
  {
    forall n: Name, x: nat
      ensures Binds(F', n, x) <==> n in t - {name} && (t - {name})[n] == x
    {
      assert Binds(F, n, x) <==> n in t && t[n] == x;
    }
  }

  /** Directory i of the file system holds the bytes F, which are the map t with unique names. */
  ghost predicate Holds(fs: FileSystem, i: nat, F: seq<byte>, t: Table)
    reads fs
  {
    && fs.Valid() && i < |fs.nodes| && Shows(fs.disk, fs.nodes[i], F) && |F| == fs.nodes[i].size
    && IsDirectory(F) && Tabled(F, t)
  }

  /** The same, with what a mark says. */
  ghost predicate At(fs: FileSystem, i: nat, F: seq<byte>, m: Mark)
    reads fs
  {
    Holds(fs, i, F, m.table) && m.size == |F| && m.full == fs.Full()
  }

  /** No file but the directory changes. */
  twostate predicate OthersStay(fs: FileSystem, i: nat)
    requires old(fs.Valid()) && fs.Valid() && |fs.nodes| == |old(fs.nodes)|
    reads fs
  {
    forall j | 0 <= j < |fs.nodes| && j != i :: File(fs.disk, fs.nodes[j]) == old(File(fs.disk, fs.nodes[j]))
  }

  method StepLookup(fs: FileSystem, i: nat, name: Name, ghost F: seq<byte>, ghost m: Mark) returns (r: int)
    requires At(fs, i, F, m) && Sensible(Lookup(name))
    modifies fs
    ensures unchanged(fs) && Does(m, Lookup(name), r, m)
  {
    var off;
    r, off := Dirlookup(fs, i, name, F);
    if r != 0 { assert Binds(F, name, r); } else { NotTabled(F, m.table, name); }
  }

  method StepLink(fs: FileSystem, i: nat, name: Name, inum: nat, ghost F: seq<byte>, ghost m: Mark)
      returns (r: int, ghost F': seq<byte>, ghost m': Mark)
    requires At(fs, i, F, m) && Sensible(Link(name, inum))
    modifies fs
    ensures At(fs, i, F', m') && Does(m, Link(name, inum), r, m') && |fs.nodes| == |old(fs.nodes)| && OthersStay(fs, i)
  {
    TightIff(F, m.table);
    r, F' := Dirlink(fs, i, name, inum, F);
    m' := Mark(m.table, |F'|, fs.Full());
    if r == 0 {
      LinkTabled(F, F', m.table, name, inum);
      LinkedSize(F, F');
      m' := m'.(table := m.table[name := inum]);
    } else if name !in m.table {
      assert Unbound(F, name);
    }
  }

  method StepUnlink(fs: FileSystem, i: nat, name: Name, ghost F: seq<byte>, ghost m: Mark)
      returns (r: int, ghost F': seq<byte>, ghost m': Mark)
    requires At(fs, i, F, m) && Sensible(Unlink(name))
    modifies fs
    ensures At(fs, i, F', m') && Does(m, Unlink(name), r, m') && |fs.nodes| == |old(fs.nodes)| && OthersStay(fs, i)
  {
    var inum, off := Dirlookup(fs, i, name, F);
    if inum == 0 {
      NotTabled(F, m.table, name);
      return -1, F, m;
    }
    assert Binds(F, name, inum);
    F' := Unbind(fs, i, off, F, name, inum);
    UnlinkTabled(F, F', m.table, name);
    r, m' := 0, Mark(m.table - {name}, |F'|, fs.Full());
  }

  method Step(fs: FileSystem, i: nat, op: Op, ghost F: seq<byte>, ghost m: Mark)
      returns (r: int, ghost F': seq<byte>, ghost m': Mark)
    requires At(fs, i, F, m) && Sensible(op)
    modifies fs
    ensures At(fs, i, F', m') && Does(m, op, r, m') && |fs.nodes| == |old(fs.nodes)| && OthersStay(fs, i)
  {
    F', m' := F, m;
    match op
    case Lookup(name) => r := StepLookup(fs, i, name, F, m);
    case Link(name, inum) => r, F', m' := StepLink(fs, i, name, inum, F, m);
    case Unlink(name) => r, F', m' := StepUnlink(fs, i, name, F, m);
  }

  ghost predicate Trail(marks: seq<Mark>, ops: seq<Op>, results: seq<int>) {
    && |marks| == |results| + 1 <= |ops| + 1
    && forall k | 0 <= k < |results| :: Does(marks[k], ops[k], results[k], marks[k + 1])
  }

  lemma TrailNext(marks: seq<Mark>, ops: seq<Op>, results: seq<int>, r: int, m: Mark)
    requires Trail(marks, ops, results) && |results| < |ops| && Does(marks[|results|], ops[|results|], r, m)
    ensures Trail(marks + [m], ops, results + [r])
  {
  }

  /** Any run of calls with names of at most 13 bytes: the directory is at every point the map that the calls
      built, and a name is never bound twice. */
  method Run(fs: FileSystem, i: nat, ops: seq<Op>, ghost F: seq<byte>, ghost t: Table)
      returns (results: seq<int>, ghost F': seq<byte>, ghost marks: seq<Mark>)
    requires Holds(fs, i, F, t) && forall op | op in ops :: Sensible(op)
    modifies fs
    ensures |results| == |ops| && Trail(marks, ops, results) && marks[0] == Mark(t, |F|, old(fs.Full()))
    ensures At(fs, i, F', marks[|ops|]) && |fs.nodes| == |old(fs.nodes)| && OthersStay(fs, i)
  {
    ghost var m := Mark(t, |F|, fs.Full());
    results, F', marks := [], F, [m];
    for k := 0 to |ops|
      invariant |results| == k && Trail(marks, ops, results) && marks[0] == Mark(t, |F|, old(fs.Full()))
      invariant marks[k] == m
      invariant At(fs, i, F', m) && |fs.nodes| == |old(fs.nodes)| && OthersStay(fs, i)
    {
      var r;
      r, F', m := Step(fs, i, ops[k], F', m);
      TrailNext(marks, ops, results, r, m);
      results, marks := results + [r], marks + [m];
    }
  }
}
