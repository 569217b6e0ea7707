/** Directories of kernel/fs.c: finite maps from names to inode numbers, stored in files as
    16-byte entries and read and written through readi and writei. */
module Dir {
  import opened Bytes
  import opened FsLayout
  import opened FsInode
  import opened FsMedium
  import opened Fs

  const DIRSIZ := 14
  const ENTRY := 16                    // sizeof(struct dirent): a 2-byte inum, then the name

  type Name = seq<byte>

  /** The string before the first NUL. */
  function CString(b: seq<byte>): Name {
    if b == [] || b[0] == 0 then [] else [b[0]] + CString(b[1..])
  }

  function Take(s: Name, n: nat): Name {
    if |s| <= n then s else s[..n]
  }

  predicate IsName(s: Name) {
    forall i | 0 <= i < |s| :: s[i] != 0
  }

  function Inum(e: seq<byte>): nat
    requires |e| == ENTRY
  {
    GetLe(e, 0, 2)
  }

  function NameOf(e: seq<byte>): Name
    requires |e| == ENTRY
  {
    CString(e[2..])
  }

  function Count(F: seq<byte>): nat {
    |F| / ENTRY
  }

  function Entry(F: seq<byte>, k: nat): (e: seq<byte>)
    requires k < Count(F)
    ensures |e| == ENTRY
  {
    F[ENTRY * k..ENTRY * k + ENTRY]
  }

  /** Slot k is live and binds the name to inode x. */
  predicate BindsAt(F: seq<byte>, k: nat, name: Name, x: nat) {
    k < Count(F) && x != 0 && Inum(Entry(F, k)) == x && NameOf(Entry(F, k)) == name
  }

  predicate Live(F: seq<byte>, k: nat) {
    k < Count(F) && Inum(Entry(F, k)) != 0
  }

  /** Every entry is live. */
  ghost predicate Packed(F: seq<byte>) {
    forall k: nat | k < Count(F) :: Live(F, k)
  }

  /** Slot k is the first that is not live, or the end where all are. */
  ghost predicate FirstFree(F: seq<byte>, k: nat) {
    k <= Count(F) && !Live(F, k) && forall j: nat | j < k :: Live(F, j)
  }

  /** F' is F with entry k changed or added and all others as they were. */
  ghost predicate OnlyEntry(F: seq<byte>, F': seq<byte>, k: nat) {
    && k <= Count(F) && |F'| == (if k == Count(F) then |F| + ENTRY else |F|) && |F| % ENTRY == 0
    && forall j: nat | j < Count(F) && j != k :: j < Count(F') && Entry(F', j) == Entry(F, j)
  }

  /** The directory as a relation between names and inode numbers ... */
  ghost predicate Binds(F: seq<byte>, name: Name, x: nat) {
    exists k: nat :: BindsAt(F, k, name, x)
  }

  ghost predicate Unbound(F: seq<byte>, name: Name) {
    forall x: nat :: !Binds(F, name, x)
  }

  /** ... and that it is a map: live names are unique. */
  ghost predicate IsDirectory(F: seq<byte>) {
    && |F| % ENTRY == 0
    && forall j: nat, k: nat, name: Name, x: nat, y: nat ::
         BindsAt(F, j, name, x) && BindsAt(F, k, name, y) ==> j == k
  }

  lemma {:induction false} CStringIsName(b: seq<byte>)
    ensures IsName(CString(b)) && |CString(b)| <= |b|
    ensures forall i | 0 <= i < |CString(b)| :: CString(b)[i] == b[i]
    ensures |CString(b)| < |b| ==> b[|CString(b)|] == 0
  {
    if b != [] && b[0] != 0 { CStringIsName(b[1..]); }
  }

  lemma {:induction false} CStringOf(s: Name, rest: seq<byte>)
    requires IsName(s) && (rest == [] || rest[0] == 0)
    ensures CString(s + rest) == s
  {
    if s == [] {
      assert s + rest == rest;
    } else {
      assert (s + rest)[1..] == s[1..] + rest;
      CStringOf(s[1..], rest);
    }
  }

  function At(s: seq<byte>, i: nat): byte {
    if i < |s| then s[i] else 0
  }

  /** strncmp of a string and a name field: 0 iff they agree as strings cut to n bytes. */
  method Strncmp(p: Name, q: seq<byte>, n: nat) returns (r: int)
    requires IsName(p) && |q| == n
    ensures r == 0 <==> Take(p, n) == CString(q)
  {
    CStringIsName(q);
    var i := 0;
    while i < n && At(p, i) != 0 && At(p, i) == q[i]
      invariant 0 <= i <= n && i <= |p| && i <= |CString(q)|
      invariant forall j | 0 <= j < i :: p[j] == CString(q)[j]
    {
      i := i + 1;
    }
    if i == n {
      return 0;
    }
    if i < |CString(q)| { assert CString(q)[i] == q[i]; }
    if i < |p| && i < |CString(q)| { assert Take(p, n)[i] == p[i]; }
    return At(p, i) as int - q[i] as int;
  }

  /** safestrcpy into an n-byte field: at most n - 1 bytes, then a NUL; the rest is left. */
  method Safestrcpy(s: seq<byte>, t: Name) returns (r: seq<byte>)
    requires |s| > 0 && IsName(t)
    ensures |r| == |s| && CString(r) == Take(t, |s| - 1)
  {
    r := s;
    var i := 0;
    while i < |s| - 1 && At(t, i) != 0
      invariant 0 <= i <= |s| - 1 && i <= |t| && |r| == |s|
      invariant r[..i] == t[..i]
    {
      r := r[i := t[i]];
      i := i + 1;
    }
    r := r[i := 0];
    assert r == t[..i] + r[i..];
    CStringOf(t[..i], r[i..]);
  }

  /** Entry k of a directory after 16 bytes at entry j, possibly just behind the last. */
  lemma OverwriteEntry(F: seq<byte>, j: nat, e: seq<byte>, k: nat)
    requires |F| % ENTRY == 0 && j <= Count(F) && |e| == ENTRY && k < Count(Overwrite(F, ENTRY * j, e))
    ensures Count(Overwrite(F, ENTRY * j, e)) == if j == Count(F) then j + 1 else Count(F)
    ensures Entry(Overwrite(F, ENTRY * j, e), k) == if k == j then e else Entry(F, k)
  {
  }

  lemma PlacedAt(F: seq<byte>, k: nat, e: seq<byte>)
    requires |F| % ENTRY == 0 && k <= Count(F) && |e| == ENTRY
    ensures OnlyEntry(F, Overwrite(F, ENTRY * k, e), k)
  {
    var F' := Overwrite(F, ENTRY * k, e);
    forall j: nat | j < Count(F) && j != k
      ensures j < Count(F') && Entry(F', j) == Entry(F, j)
    {
      OverwriteEntry(F, k, e, j);
    }
  }

  /** A live entry written to a slot that was not live adds exactly its binding. */
  lemma BindsAfter(F: seq<byte>, j: nat, e: seq<byte>, name: Name, x: nat)
    requires |F| % ENTRY == 0 && j <= Count(F) && |e| == ENTRY
    requires j < Count(F) ==> Inum(Entry(F, j)) == 0
    ensures Binds(Overwrite(F, ENTRY * j, e), name, x) <==>
            Binds(F, name, x) || (x != 0 && Inum(e) == x && NameOf(e) == name)
  {
    var F' := Overwrite(F, ENTRY * j, e);
    if k: nat :| BindsAt(F', k, name, x) {
      OverwriteEntry(F, j, e, k);
      if k != j { assert BindsAt(F, k, name, x); }
    }
    if k: nat :| BindsAt(F, k, name, x) {
      OverwriteEntry(F, j, e, k);
      assert BindsAt(F', k, name, x);
    }
    if x != 0 && Inum(e) == x && NameOf(e) == name {
      OverwriteEntry(F, j, e, j);
      assert BindsAt(F', j, name, x);
    }
  }

  /** The new directory's names are unique exactly when the stored name was not live. */
  lemma UniqueAfter(F: seq<byte>, j: nat, e: seq<byte>)
    requires IsDirectory(F) && j <= Count(F) && |e| == ENTRY && Inum(e) != 0
    requires j < Count(F) ==> Inum(Entry(F, j)) == 0
    ensures IsDirectory(Overwrite(F, ENTRY * j, e)) <==> Unbound(F, NameOf(e))
  {
    var F' := Overwrite(F, ENTRY * j, e);
    OverwriteEntry(F, j, e, j);
    assert BindsAt(F', j, NameOf(e), Inum(e));
    if k: nat, x: nat :| BindsAt(F, k, NameOf(e), x) {
      OverwriteEntry(F, j, e, k);
      assert BindsAt(F', k, NameOf(e), x) && k != j;
    }
    if Unbound(F, NameOf(e)) {
      forall m: nat, k: nat, name: Name, x: nat, y: nat | BindsAt(F', m, name, x) && BindsAt(F', k, name, y)
        ensures m == k
      {
        OverwriteEntry(F, j, e, m);
        OverwriteEntry(F, j, e, k);
        if m != j { assert BindsAt(F, m, name, x) && Binds(F, name, x); }
        if k != j { assert BindsAt(F, k, name, y) && Binds(F, name, y); }
      }
    }
  }

  /** readi of one entry. */
  method ReadEntry(fs: FileSystem, i: nat, k: nat, ghost F: seq<byte>) returns (e: seq<byte>)
    requires fs.Valid() && i < |fs.nodes| && Shows(fs.disk, fs.nodes[i], F) && |F| == fs.nodes[i].size
    requires k < Count(F)
    modifies fs`disk, fs`medium, fs`nodes, fs`owner
    ensures unchanged(fs) && e == Entry(F, k)
  {
    FileShows(fs.disk, fs.nodes[i], F);
    var r;
    r, e := fs.Readi(i, ENTRY * k, ENTRY, ENTRY);
  }

  /** dirlookup: the first live entry of that name, or 0. */
  method Dirlookup(fs: FileSystem, i: nat, name: Name, ghost F: seq<byte>) returns (inum: nat, off: nat)
    requires fs.Valid() && i < |fs.nodes| && Shows(fs.disk, fs.nodes[i], F) && |F| == fs.nodes[i].size
    requires |F| % ENTRY == 0 && IsName(name)
    modifies fs`disk, fs`medium, fs`nodes, fs`owner
    ensures unchanged(fs)
    ensures inum == 0 ==> Unbound(F, Take(name, DIRSIZ))
    ensures inum != 0 ==>
      && off % ENTRY == 0 && BindsAt(F, off / ENTRY, Take(name, DIRSIZ), inum)
      && forall k: nat, x: nat | k < off / ENTRY :: !BindsAt(F, k, Take(name, DIRSIZ), x)
  {
    off := 0;
    ghost var k: nat := 0;
    while off < fs.nodes[i].size
      invariant off == ENTRY * k && k <= Count(F) && unchanged(fs)
      invariant forall j: nat, x: nat | j < k :: !BindsAt(F, j, Take(name, DIRSIZ), x)
    {
      var de := ReadEntry(fs, i, off / ENTRY, F);
      inum := GetLe(de, 0, 2);
      if inum != 0 {
        var c := Strncmp(name, de[2..], DIRSIZ);
        if c == 0 { return; }
      }
      off, k := off + ENTRY, k + 1;
    }
    inum := 0;
  }

  lemma EntryInBlock(k: nat)
    ensures ENTRY * k % BSIZE + ENTRY <= BSIZE
  {
  }

  /** An entry never straddles two blocks. */
  lemma EntryStops(k: nat, tot: nat)
    requires tot < ENTRY && (ENTRY * k + tot) % BSIZE == 0
    ensures tot == 0
  {
    EntryInBlock(k);
    if tot > 0 { SameBlock(ENTRY * k, ENTRY * k + tot, ENTRY); }
  }

  /** The largest file has no room for entry k. */
  predicate Refused(F: seq<byte>, k: nat) {
    ENTRY * k + ENTRY > MAXFILE * BSIZE
  }

  lemma RefusedEnd(F: seq<byte>, k: nat)
    requires |F| % ENTRY == 0 && k <= Count(F) && |F| <= MAXFILE * BSIZE && Refused(F, k)
    ensures k == Count(F) && |F| == MAXFILE * BSIZE
  {
  }

  lemma EntryOffset(F: seq<byte>, k: nat)
    requires |F| % ENTRY == 0 && k <= Count(F) && |F| <= MAXFILE * BSIZE
    ensures ENTRY * k <= |F| && ENTRY * k < U32 && (ENTRY * k >= |F| ==> k == Count(F))
  {
  }

  /** An entry is written whole or, where its block is missing, not at all. */
  lemma EntryWritten(F: seq<byte>, k: nat, e: seq<byte>, r: int, tot: nat, G: seq<byte>)
    requires k <= Count(F) && |e| == ENTRY && 0 <= r == tot <= ENTRY && G == Overwrite(F, ENTRY * k, e[..tot])
    requires tot < ENTRY ==> Stopped(ENTRY * k, tot, |F|)
    ensures G == if r == ENTRY then Overwrite(F, ENTRY * k, e) else F
    ensures r != ENTRY ==> ENTRY * k >= |F| && ENTRY * k % BSIZE == 0
  {
    assert e[..ENTRY] == e;
    if r != ENTRY {
      EntryStops(k, tot);
      assert Overwrite(F, ENTRY * k, e[..0]) == F;
    }
  }

  /** writei of one entry: all of it or nothing, and nothing only where a block is missing. */
  method WriteEntry(fs: FileSystem, i: nat, k: nat, e: seq<byte>, ghost F: seq<byte>)
    returns (r: int, ghost F': seq<byte>)
    requires fs.Valid() && i < |fs.nodes| && Shows(fs.disk, fs.nodes[i], F) && |F| == fs.nodes[i].size
    requires |F| % ENTRY == 0 && k <= Count(F) && |e| == ENTRY
    modifies fs
    ensures fs.Valid() && i < |fs.nodes| == |old(fs.nodes)|
    ensures Shows(fs.disk, fs.nodes[i], F') && |F'| == fs.nodes[i].size
    ensures F' == if r == ENTRY then Overwrite(F, ENTRY * k, e) else F
    ensures r != ENTRY ==> k == Count(F) && (|F| == MAXFILE * BSIZE || (fs.Full() && |F| % BSIZE == 0))
    ensures forall j | 0 <= j < |fs.nodes| && j != i ::
      File(fs.disk, fs.nodes[j]) == old(File(fs.disk, fs.nodes[j]))
  {
    FileShows(fs.disk, fs.nodes[i], F);
    EntryOffset(F, k);
    ghost var tot;
    r, tot := fs.Writei(i, ENTRY * k, e, ENTRY);
    F' := File(fs.disk, fs.nodes[i]);
    ShowsFile(fs.disk, fs.nodes[i]);
    if Refused(F, k) {
      RefusedEnd(F, k);
    } else {
      EntryWritten(F, k, e, r, tot, F');
    }
  }

  /** dirlink's second loop: the first slot that is not live, or the end; the entry read
      last stays in the buffer. */
  method FreeSlot(fs: FileSystem, i: nat, ghost F: seq<byte>) returns (k: nat, de: seq<byte>)
    requires fs.Valid() && i < |fs.nodes| && Shows(fs.disk, fs.nodes[i], F) && |F| == fs.nodes[i].size
    requires |F| % ENTRY == 0
    modifies fs`disk, fs`medium, fs`nodes, fs`owner
    ensures unchanged(fs) && |de| == ENTRY && k <= Count(F)
    ensures FirstFree(F, k)
  {
    k := 0;
    de := Zeros(ENTRY);
    while ENTRY * k < fs.nodes[i].size
      invariant 0 <= k <= Count(F) && unchanged(fs) && |de| == ENTRY && forall j: nat | j < k :: Live(F, j)
    {
      de := ReadEntry(fs, i, k, F);
      if GetLe(de, 0, 2) == 0 { break; }
      k := k + 1;
    }
  }

  /** F' is directory F with one binding added: to the inode's low 16 bits, under at most
      13 bytes of the name. */
  ghost predicate Linked(F: seq<byte>, F': seq<byte>, name: Name, inum: nat) {
    forall n: Name, x: nat ::
      Binds(F', n, x) <==> Binds(F, n, x) || (x != 0 && x == inum % 65536 && n == Take(name, DIRSIZ - 1))
  }

  lemma LinkEffect(F: seq<byte>, k: nat, de: seq<byte>, name: Name, inum: nat)
    requires IsDirectory(F) && k <= Count(F) && (k < Count(F) ==> Inum(Entry(F, k)) == 0)
    requires |de| == ENTRY && Inum(de) == inum % 65536 && NameOf(de) == Take(name, DIRSIZ - 1)
    ensures Linked(F, Overwrite(F, ENTRY * k, de), name, inum)
    ensures IsDirectory(Overwrite(F, ENTRY * k, de)) <==>
            inum % 65536 == 0 || Unbound(F, Take(name, DIRSIZ - 1))
  {
    var F' := Overwrite(F, ENTRY * k, de);
    forall n: Name, x: nat
      ensures Binds(F', n, x) <==> Binds(F, n, x) || (x != 0 && x == inum % 65536 && n == Take(name, DIRSIZ - 1))
    {
      BindsAfter(F, k, de, n, x);
    }
    if inum % 65536 != 0 { UniqueAfter(F, k, de); } else { UniqueDead(F, k, de); }
  }

  /** dirlink: bind a name that is not bound yet, in the first slot that is not live.
      Names stay unique if and only if no live name equals the 13 bytes it stores. */
  method Dirlink(fs: FileSystem, i: nat, name: Name, inum: nat, ghost F: seq<byte>)
    returns (r: int, ghost F': seq<byte>)
    requires fs.Valid() && i < |fs.nodes| && Shows(fs.disk, fs.nodes[i], F) && |F| == fs.nodes[i].size
    requires IsDirectory(F) && IsName(name)
    modifies fs
    ensures fs.Valid() && i < |fs.nodes| == |old(fs.nodes)|
    ensures Shows(fs.disk, fs.nodes[i], F') && |F'| == fs.nodes[i].size
    ensures r == -1 || r == 0
    ensures r == -1 ==> F' == F
    ensures r == -1 && Unbound(F, Take(name, DIRSIZ)) ==>
      Packed(F) && (|F| == MAXFILE * BSIZE || (fs.Full() && |F| % BSIZE == 0))
    ensures r == 0 ==> exists k: nat :: FirstFree(F, k) && OnlyEntry(F, F', k)
    ensures r == 0 ==> Linked(F, F', name, inum) && Unbound(F, Take(name, DIRSIZ))
    ensures r == 0 ==> (IsDirectory(F') <==>
              inum % 65536 == 0 || Unbound(F, Take(name, DIRSIZ - 1)))
    ensures forall j | 0 <= j < |fs.nodes| && j != i ::
      File(fs.disk, fs.nodes[j]) == old(File(fs.disk, fs.nodes[j]))
  {
    var ip, poff := Dirlookup(fs, i, name, F);
    if ip != 0 {
      assert Binds(F, Take(name, DIRSIZ), ip);
      return -1, F;
    }
    var k, de := FreeSlot(fs, i, F);
    var field := Safestrcpy(de[2..], name);
    de := MakeEntry(field, inum);
    LinkEffect(F, k, de, name, inum);
    r, F' := WriteEntry(fs, i, k, de, F);
    r := if r != ENTRY then -1 else 0;
    PlacedAt(F, k, de);
  }

  /** An entry from its name field and (the low half of) an inode number. */
  function MakeEntry(field: seq<byte>, inum: nat): (e: seq<byte>)
    requires |field| == DIRSIZ
    ensures |e| == ENTRY && Inum(e) == inum % 65536 && NameOf(e) == CString(field)
  {
    var e := PutLe(Zeros(2) + field, 0, 2, inum % 65536);
    assert Pow256(2) == 65536;
    GetPut(Zeros(2) + field, 0, 2, inum % 65536);
    assert e[2..] == field;
    e
  }

  lemma UniqueDead(F: seq<byte>, j: nat, e: seq<byte>)
    requires IsDirectory(F) && j <= Count(F) && |e| == ENTRY && Inum(e) == 0
    ensures IsDirectory(Overwrite(F, ENTRY * j, e))
  {
    var F' := Overwrite(F, ENTRY * j, e);
    forall m: nat, k: nat, name: Name, x: nat, y: nat | BindsAt(F', m, name, x) && BindsAt(F', k, name, y)
      ensures m == k
    {
      OverwriteEntry(F, j, e, m);
      OverwriteEntry(F, j, e, k);
      assert BindsAt(F, m, name, x) && BindsAt(F, k, name, y);
    }
  }

  /** What sys_unlink does with the offset dirlookup gave it: zero that entry. */
  method Unbind(fs: FileSystem, i: nat, off: nat, ghost F: seq<byte>, ghost name: Name, ghost inum: nat)
      returns (ghost F': seq<byte>)
    requires fs.Valid() && i < |fs.nodes| && Shows(fs.disk, fs.nodes[i], F) && |F| == fs.nodes[i].size
    requires IsDirectory(F) && off % ENTRY == 0 && BindsAt(F, off / ENTRY, name, inum)
    modifies fs
    ensures fs.Valid() && i < |fs.nodes| == |old(fs.nodes)|
    ensures Shows(fs.disk, fs.nodes[i], F') && |F'| == fs.nodes[i].size && IsDirectory(F')
    ensures |F'| == |F| && forall n: Name, x: nat :: Binds(F', n, x) <==> Binds(F, n, x) && n != name
    ensures forall j | 0 <= j < |fs.nodes| && j != i ::
      File(fs.disk, fs.nodes[j]) == old(File(fs.disk, fs.nodes[j]))
  {
    ghost var k := off / ENTRY;
    var e: seq<byte> := Zeros(ENTRY);
    GetZero(e, 0, 2);
    var r;
    r, F' := WriteEntry(fs, i, off / ENTRY, e, F);
    UniqueDead(F, k, e);
    forall n: Name, x: nat
      ensures Binds(F', n, x) <==> Binds(F, n, x) && n != name
    {
      UnbindsAfter(F, k, e, name, inum, n, x);
    }
  }

  lemma UnbindsAfter(F: seq<byte>, j: nat, e: seq<byte>, name: Name, inum: nat, n: Name, x: nat)
    requires IsDirectory(F) && |e| == ENTRY && Inum(e) == 0 && BindsAt(F, j, name, inum)
    ensures Binds(Overwrite(F, ENTRY * j, e), n, x) <==> Binds(F, n, x) && n != name
  {
    var F' := Overwrite(F, ENTRY * j, e);
    if k: nat :| BindsAt(F', k, n, x) {
      OverwriteEntry(F, j, e, k);
      assert BindsAt(F, k, n, x);
    }
    if n != name {
      if k: nat :| BindsAt(F, k, n, x) {
        OverwriteEntry(F, j, e, k);
        assert BindsAt(F', k, n, x);
      }
    }
  }

  /** A directory as dirlookup sees it after a link.  The new name is found, and names stay
      unique, exactly when the name is short enough: dirlink stores at most 13 bytes of it,
      dirlookup compares 14. */
  lemma LookupAfterLink(F: seq<byte>, F': seq<byte>, name: Name, inum: nat)
    requires IsDirectory(F) && Linked(F, F', name, inum) && 0 < inum < 65536
    requires Unbound(F, Take(name, DIRSIZ))
    ensures Binds(F', Take(name, DIRSIZ), inum) <==> |name| < DIRSIZ
    ensures forall n: Name, x: nat | n != Take(name, DIRSIZ - 1) :: Binds(F', n, x) <==> Binds(F, n, x)
    ensures |name| < DIRSIZ ==> forall x: nat :: Binds(F', name, x) <==> x == inum
  {
    assert Binds(F', Take(name, DIRSIZ), inum) <==>
           Binds(F, Take(name, DIRSIZ), inum) || Take(name, DIRSIZ) == Take(name, DIRSIZ - 1);
    if |name| >= DIRSIZ { assert |Take(name, DIRSIZ)| != |Take(name, DIRSIZ - 1)|; }
  }

  /** Fourteen times 'a', linked in an empty directory, cannot be looked up again. */
  lemma LongNameLost()
    ensures
      var name: Name := seq(DIRSIZ, i => 97);
      var F' := Overwrite([], 0, MakeEntry(seq(DIRSIZ - 1, i => 97) + [0], 1));
      Linked([], F', name, 1) && Unbound([], Take(name, DIRSIZ)) && Unbound(F', Take(name, DIRSIZ))
  {
    var name: Name := seq(DIRSIZ, i => 97);
    var short: Name := seq(DIRSIZ - 1, i => 97);
    var de := MakeEntry(short + [0], 1);
    CStringOf(short, [0]);
    assert Take(name, DIRSIZ - 1) == short;
    LinkEffect([], 0, de, name, 1);
    assert |Take(name, DIRSIZ)| != |short|;
  }
}
