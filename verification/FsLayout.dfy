/** How kernel/fs.c lays files out on a disk: the bitmap, an inode's direct and indirect
    blocks, and who owns which block. */
module FsLayout {
  import opened Bytes

  const BSIZE := 1024
  const NDIRECT := 12
  const NINDIRECT := 256
  const MAXFILE := 268                 // NDIRECT + NINDIRECT
  const BPB := 8192                    // bitmap bits per block
  const NSLOT := 269                   // block references an inode can hold

  type Block = b: seq<byte> | |b| == BSIZE witness Zeros(BSIZE)

  /** Blocks below datastart hold metadata; the bitmap begins at bmapstart. */
  datatype Superblock = Superblock(size: nat, bmapstart: nat, datastart: nat)

  /** addrs holds NDIRECT direct blocks and then the indirect block; 0 means none. */
  datatype Inode = Inode(size: nat, addrs: seq<nat>)

  /** A place where a block number can be stored: slots 0..12 are addrs, the rest are the
      entries of the indirect block. */
  datatype Ref = Ref(ino: nat, slot: nat)

  /** Sizes balloc can scan: its 32-bit block counter, stepped by BPB, does not wrap. */
  predicate SuperblockOk(sb: Superblock) {
    0 < sb.bmapstart && sb.bmapstart + (sb.size + BPB - 1) / BPB <= sb.datastart <= sb.size <= 0x1_0000_0000 - BPB
  }

  predicate Used(disk: seq<Block>, sb: Superblock, b: nat)
    requires SuperblockOk(sb) && |disk| == sb.size && b < sb.size
  {
    BitIn(disk[sb.bmapstart + b / BPB], b % BPB)
  }

  predicate Shape(disk: seq<Block>, n: Inode) {
    |n.addrs| == NDIRECT + 1 && n.addrs[NDIRECT] < |disk| && n.size <= MAXFILE * BSIZE
  }

  function Slot(disk: seq<Block>, n: Inode, k: nat): nat
    requires Shape(disk, n) && k < NSLOT
  {
    if k <= NDIRECT then n.addrs[k]
    else if n.addrs[NDIRECT] == 0 then 0
    else GetLe(disk[n.addrs[NDIRECT]], 4 * (k - NDIRECT - 1), 4)
  }

  /** The slot of the file's bn-th block. */
  function SlotOf(bn: nat): nat {
    if bn < NDIRECT then bn else bn + 1
  }

  predicate Mapped(disk: seq<Block>, n: Inode, bn: nat)
    requires Shape(disk, n)
  {
    bn < MAXFILE && 0 < Slot(disk, n, SlotOf(bn)) < |disk|
  }

  /** Byte p of the file, whether or not p lies below its size. */
  function ByteAt(disk: seq<Block>, n: Inode, p: nat): byte
    requires Shape(disk, n) && Mapped(disk, n, p / BSIZE)
  {
    disk[Slot(disk, n, SlotOf(p / BSIZE))][p % BSIZE]
  }

  ghost predicate NoHoles(disk: seq<Block>, n: Inode)
    requires Shape(disk, n)
  {
    forall bn: nat | bn * BSIZE < n.size :: Mapped(disk, n, bn)
  }

  /** The file as a flat sequence of bytes. */
  ghost function File(disk: seq<Block>, n: Inode): (f: seq<byte>)
    requires Shape(disk, n) && NoHoles(disk, n)
    ensures |f| == n.size
    ensures forall p | 0 <= p < n.size :: f[p] == ByteAt(disk, n, p)
  {
    seq(n.size, p requires 0 <= p < n.size => ByteAt(disk, n, p))
  }

  /** What slot k of inode i refers to belongs to it alone. */
  ghost predicate Holds(disk: seq<Block>, nodes: seq<Inode>, owner: map<nat, Ref>, i: nat, k: nat) {
    i < |nodes| && k < NSLOT && Shape(disk, nodes[i]) &&
    var b := Slot(disk, nodes[i], k);
    b != 0 ==> b in owner && owner[b] == Ref(i, k)
  }

  /** An owned block is a data block and its owner does refer to it. */
  ghost predicate Backed(sb: Superblock, disk: seq<Block>, nodes: seq<Inode>, owner: map<nat, Ref>, b: nat) {
    && sb.datastart <= b < sb.size && b in owner
    && owner[b].ino < |nodes| && owner[b].slot < NSLOT
    && Shape(disk, nodes[owner[b].ino]) && Slot(disk, nodes[owner[b].ino], owner[b].slot) == b
  }

  ghost predicate Shapes(sb: Superblock, disk: seq<Block>, nodes: seq<Inode>) {
    && SuperblockOk(sb) && |disk| == sb.size
    && forall i | 0 <= i < |nodes| :: Shape(disk, nodes[i])
  }

  predicate Dead(r: Ref, ino: nat, dead: nat) {
    r.ino == ino && NDIRECT < r.slot <= NDIRECT + dead
  }

  /** References and owners are inverse to each other; the indirect entries below 13 + dead
      of inode ino are about to go and exempt. */
  ghost predicate Refs(sb: Superblock, disk: seq<Block>, nodes: seq<Inode>, owner: map<nat, Ref>,
                       ino: nat, dead: nat)
  {
    && (forall i: nat, k: nat | i < |nodes| && k < NSLOT && !Dead(Ref(i, k), ino, dead) ::
          Holds(disk, nodes, owner, i, k))
    && (forall b: nat | b in owner :: Backed(sb, disk, nodes, owner, b) && !Dead(owner[b], ino, dead))
  }

  /** The bitmap marks the metadata blocks, the owned blocks and the extra ones, no others. */
  ghost predicate Bits(sb: Superblock, disk: seq<Block>, owner: map<nat, Ref>, extra: set<nat>)
    requires SuperblockOk(sb) && |disk| == sb.size
  {
    forall b: nat | b < sb.size ::
      Used(disk, sb, b) <==> b < sb.datastart || b in owner || b in extra
  }

  ghost predicate Inv(sb: Superblock, disk: seq<Block>, nodes: seq<Inode>, owner: map<nat, Ref>) {
    && Shapes(sb, disk, nodes)
    && Refs(sb, disk, nodes, owner, 0, 0)
    && Bits(sb, disk, owner, {})
    && forall i | 0 <= i < |nodes| :: NoHoles(disk, nodes[i])
  }

  /** Marking block r in the bitmap and zeroing it. */
  function Claim(sb: Superblock, disk: seq<Block>, r: nat): seq<Block>
    requires SuperblockOk(sb) && |disk| == sb.size && r < sb.size
  {
    var m := sb.bmapstart + r / BPB;
    disk[m := PutBit(disk[m], r % BPB, true)][r := Zeros(BSIZE)]
  }

  function Unclaim(sb: Superblock, disk: seq<Block>, r: nat): seq<Block>
    requires SuperblockOk(sb) && |disk| == sb.size && r < sb.size
  {
    var m := sb.bmapstart + r / BPB;
    disk[m := PutBit(disk[m], r % BPB, false)]
  }

  lemma ClaimBits(sb: Superblock, disk: seq<Block>, r: nat, b: nat)
    requires SuperblockOk(sb) && |disk| == sb.size && sb.datastart <= r < sb.size && b < sb.size
    ensures Used(Claim(sb, disk, r), sb, b) <==> b == r || Used(disk, sb, b)
    ensures Used(Unclaim(sb, disk, r), sb, b) <==> b != r && Used(disk, sb, b)
  {
    if b / BPB == r / BPB { assert b % BPB == r % BPB <==> b == r; }
  }

  /** Two disks that agree on every owned block (on indirect ones, at least). */
  ghost predicate Agree(disk: seq<Block>, disk': seq<Block>, owner: map<nat, Ref>, indirectOnly: bool) {
    |disk| == |disk'| &&
    forall b: nat | b in owner && b < |disk| && (indirectOnly ==> owner[b].slot == NDIRECT) :: disk'[b] == disk[b]
  }

  lemma SlotFrame(disk: seq<Block>, disk': seq<Block>, nodes: seq<Inode>, owner: map<nat, Ref>, i: nat, k: nat)
    requires Holds(disk, nodes, owner, i, NDIRECT) && k < NSLOT && Agree(disk, disk', owner, true)
    ensures Shape(disk', nodes[i]) && Slot(disk', nodes[i], k) == Slot(disk, nodes[i], k)
  {
    assert Slot(disk, nodes[i], NDIRECT) == nodes[i].addrs[NDIRECT];
  }

  lemma RefsFrame(sb: Superblock, disk: seq<Block>, disk': seq<Block>, nodes: seq<Inode>, owner: map<nat, Ref>,
                  ino: nat, dead: nat)
    requires Shapes(sb, disk, nodes) && Refs(sb, disk, nodes, owner, ino, dead) && Agree(disk, disk', owner, true)
    ensures Shapes(sb, disk', nodes) && Refs(sb, disk', nodes, owner, ino, dead)
    ensures forall i: nat | i < |nodes| && NoHoles(disk, nodes[i]) :: NoHoles(disk', nodes[i])
  {
    forall i: nat, k: nat | i < |nodes| && k < NSLOT
      ensures Shape(disk', nodes[i]) && Slot(disk', nodes[i], k) == Slot(disk, nodes[i], k)
    {
      assert Holds(disk, nodes, owner, i, NDIRECT);
      SlotFrame(disk, disk', nodes, owner, i, k);
    }
    forall i: nat, k: nat | i < |nodes| && k < NSLOT && !Dead(Ref(i, k), ino, dead)
      ensures Holds(disk', nodes, owner, i, k)
    {
      assert Holds(disk, nodes, owner, i, k);
    }
    forall b: nat | b in owner
      ensures Backed(sb, disk', nodes, owner, b)
    {
      assert Backed(sb, disk, nodes, owner, b);
    }
    forall i: nat, bn: nat | i < |nodes| && NoHoles(disk, nodes[i]) && bn * BSIZE < nodes[i].size
      ensures Mapped(disk', nodes[i], bn)
    {
      assert Mapped(disk, nodes[i], bn);
    }
  }

  /** Slot k of inode i kept its block, if it had one; with exact, it is as it was. */
  ghost predicate Keeps(disk: seq<Block>, nodes: seq<Inode>, disk': seq<Block>, nodes': seq<Inode>,
                        i: nat, k: nat, exact: bool)
  {
    && i < |nodes| && i < |nodes'| && k < NSLOT && Shape(disk, nodes[i]) && Shape(disk', nodes'[i])
    && (exact || Slot(disk, nodes[i], k) != 0 ==> Slot(disk', nodes'[i], k) == Slot(disk, nodes[i], k))
  }

  /** Every reference, owner and file byte there was is still there. */
  ghost predicate Extends(disk: seq<Block>, nodes: seq<Inode>, owner: map<nat, Ref>,
                          disk': seq<Block>, nodes': seq<Inode>, owner': map<nat, Ref>)
  {
    && |disk'| == |disk| && |nodes'| == |nodes|
    && (forall i | 0 <= i < |nodes| ::
          Shape(disk, nodes[i]) && Shape(disk', nodes'[i]) && nodes'[i].size == nodes[i].size)
    && (forall i: nat, k: nat | i < |nodes| && k < NSLOT :: Keeps(disk, nodes, disk', nodes', i, k, false))
    && (forall b: nat | b in owner && b < |disk| ::
          b in owner' && (owner[b].slot != NDIRECT ==> disk'[b] == disk[b]))
  }

  lemma ExtendsByte(disk: seq<Block>, nodes: seq<Inode>, owner: map<nat, Ref>,
                    disk': seq<Block>, nodes': seq<Inode>, owner': map<nat, Ref>, i: nat, p: nat)
    requires Extends(disk, nodes, owner, disk', nodes', owner') && i < |nodes|
    requires Mapped(disk, nodes[i], p / BSIZE) && Holds(disk, nodes, owner, i, SlotOf(p / BSIZE))
    ensures Mapped(disk', nodes'[i], p / BSIZE) && ByteAt(disk', nodes'[i], p) == ByteAt(disk, nodes[i], p)
  {
    assert Keeps(disk, nodes, disk', nodes', i, SlotOf(p / BSIZE), false);
  }

  /** After balloc: block r is marked, zeroed and nobody's yet. */
  lemma ClaimInv(sb: Superblock, disk: seq<Block>, nodes: seq<Inode>, owner: map<nat, Ref>, r: nat)
    requires Inv(sb, disk, nodes, owner) && r < sb.size && !Used(disk, sb, r)
    ensures sb.datastart <= r && r !in owner
    ensures Shapes(sb, Claim(sb, disk, r), nodes) && Refs(sb, Claim(sb, disk, r), nodes, owner, 0, 0)
    ensures Bits(sb, Claim(sb, disk, r), owner, {r})
    ensures forall i: nat | i < |nodes| :: NoHoles(Claim(sb, disk, r), nodes[i])
    ensures Extends(disk, nodes, owner, Claim(sb, disk, r), nodes, owner)
    ensures forall i: nat, k: nat | i < |nodes| && k < NSLOT ::
              Keeps(disk, nodes, Claim(sb, disk, r), nodes, i, k, true)
    ensures Claim(sb, disk, r)[r] == Zeros(BSIZE)
  {
    var disk' := Claim(sb, disk, r);
    assert sb.datastart <= r && r !in owner;
    assert Agree(disk, disk', owner, false) by {
      forall b: nat | b in owner && b < |disk|
        ensures disk'[b] == disk[b]
      {
        assert Backed(sb, disk, nodes, owner, b);
      }
    }
    RefsFrame(sb, disk, disk', nodes, owner, 0, 0);
    forall b: nat | b < sb.size
      ensures Used(disk', sb, b) <==> b < sb.datastart || b in owner || b in {r}
    {
      ClaimBits(sb, disk, r, b);
    }
    forall i: nat, k: nat | i < |nodes| && k < NSLOT
      ensures Keeps(disk, nodes, disk', nodes, i, k, true)
    {
      assert Holds(disk, nodes, owner, i, NDIRECT);
      SlotFrame(disk, disk', nodes, owner, i, k);
    }
    forall i: nat, k: nat | i < |nodes| && k < NSLOT
      ensures Keeps(disk, nodes, disk', nodes, i, k, false)
    {
      assert Keeps(disk, nodes, disk', nodes, i, k, true);
    }
  }

  /** What bmap's allocation may change: slot k of inode i, from nothing to r. */
  ghost predicate Fills(disk: seq<Block>, nodes: seq<Inode>, disk': seq<Block>, nodes': seq<Inode>,
                        i: nat, k: nat, r: nat)
  {
    && |disk'| == |disk| && |nodes'| == |nodes| && i < |nodes| && k < NSLOT
    && (forall j | 0 <= j < |nodes| ::
          Shape(disk, nodes[j]) && Shape(disk', nodes'[j]) && nodes'[j].size == nodes[j].size)
    && Slot(disk, nodes[i], k) == 0 && Slot(disk', nodes'[i], k) == r
    && forall j: nat, l: nat | j < |nodes| && l < NSLOT && Ref(j, l) != Ref(i, k) ::
         Keeps(disk, nodes, disk', nodes', j, l, true)
  }

  /** The disk changed in inode i's indirect block at most. */
  ghost predicate OnlyIndirect(disk: seq<Block>, disk': seq<Block>, n: Inode)
    requires |disk'| == |disk| && Shape(disk, n)
  {
    forall b: nat | b < |disk| && (b != n.addrs[NDIRECT] || b == 0) :: disk'[b] == disk[b]
  }

  lemma FillRefs(sb: Superblock, disk: seq<Block>, nodes: seq<Inode>, owner: map<nat, Ref>,
                 disk': seq<Block>, nodes': seq<Inode>, i: nat, k: nat, r: nat)
    requires Shapes(sb, disk, nodes) && Refs(sb, disk, nodes, owner, 0, 0)
    requires sb.datastart <= r < sb.size && r !in owner && Fills(disk, nodes, disk', nodes', i, k, r)
    ensures Shapes(sb, disk', nodes') && Refs(sb, disk', nodes', owner[r := Ref(i, k)], 0, 0)
  {
    var owner' := owner[r := Ref(i, k)];
    forall j: nat, l: nat | j < |nodes| && l < NSLOT
      ensures Holds(disk', nodes', owner', j, l)
    {
      assert Holds(disk, nodes, owner, j, l);
      assert Ref(j, l) != Ref(i, k) ==> Keeps(disk, nodes, disk', nodes', j, l, true);
    }
    forall b: nat | b in owner'
      ensures Backed(sb, disk', nodes', owner', b)
    {
      if b != r {
        assert Backed(sb, disk, nodes, owner, b);
        var w := owner[b];
        assert w == Ref(w.ino, w.slot) != Ref(i, k);
        assert Keeps(disk, nodes, disk', nodes', w.ino, w.slot, true);
      }
    }
  }

  /** Filling slot k with the claimed block r makes r owned. */
  lemma FillInv(sb: Superblock, disk: seq<Block>, nodes: seq<Inode>, owner: map<nat, Ref>,
                disk': seq<Block>, nodes': seq<Inode>, i: nat, k: nat, r: nat)
    requires Shapes(sb, disk, nodes) && Refs(sb, disk, nodes, owner, 0, 0) && Bits(sb, disk, owner, {r})
    requires forall j: nat | j < |nodes| :: NoHoles(disk, nodes[j])
    requires sb.datastart <= r < sb.size && r !in owner && Fills(disk, nodes, disk', nodes', i, k, r)
    requires OnlyIndirect(disk, disk', nodes[i])
    ensures Inv(sb, disk', nodes', owner[r := Ref(i, k)])
    ensures Extends(disk, nodes, owner, disk', nodes', owner[r := Ref(i, k)])
  {
    FillRefs(sb, disk, nodes, owner, disk', nodes', i, k, r);
    var owner' := owner[r := Ref(i, k)];
    var ind := nodes[i].addrs[NDIRECT];
    assert Holds(disk, nodes, owner, i, NDIRECT) && ind == Slot(disk, nodes[i], NDIRECT);
    if ind != 0 { assert Backed(sb, disk, nodes, owner, ind); }
    forall b: nat | b < sb.size
      ensures Used(disk', sb, b) <==> b < sb.datastart || b in owner'
    {
      assert Used(disk, sb, b) <==> b < sb.datastart || b in owner || b in {r};
    }
    forall j: nat, bn: nat | j < |nodes| && bn * BSIZE < nodes'[j].size
      ensures Mapped(disk', nodes'[j], bn)
    {
      assert Mapped(disk, nodes[j], bn);
      assert Ref(j, SlotOf(bn)) != Ref(i, k) ==> Keeps(disk, nodes, disk', nodes', j, SlotOf(bn), true);
    }
    forall j: nat, l: nat | j < |nodes| && l < NSLOT
      ensures Keeps(disk, nodes, disk', nodes', j, l, false)
    {
      assert Ref(j, l) != Ref(i, k) ==> Keeps(disk, nodes, disk', nodes', j, l, true);
    }
  }

  lemma FillDirect(disk: seq<Block>, nodes: seq<Inode>, i: nat, k: nat, r: nat)
    requires i < |nodes| && k <= NDIRECT && r < |disk|
    requires forall j | 0 <= j < |nodes| :: Shape(disk, nodes[j])
    requires Slot(disk, nodes[i], k) == 0 && (k == NDIRECT ==> disk[r] == Zeros(BSIZE))
    ensures Fills(disk, nodes, disk, nodes[i := nodes[i].(addrs := nodes[i].addrs[k := r])], i, k, r)
  {
    var nodes' := nodes[i := nodes[i].(addrs := nodes[i].addrs[k := r])];
    forall j: nat, l: nat | j < |nodes| && l < NSLOT && Ref(j, l) != Ref(i, k)
      ensures Keeps(disk, nodes, disk, nodes', j, l, true)
    {
      if k == NDIRECT && l > NDIRECT { GetZero(disk[r], 4 * (l - NDIRECT - 1), 4); }
    }
  }

  lemma EntryBytes(b: Block, e: nat, v: nat, f: nat)
    requires e < NINDIRECT && f < NINDIRECT && v < 0x1_0000_0000
    ensures GetLe(PutLe(b, 4 * e, 4, v), 4 * f, 4) == if f == e then v else GetLe(b, 4 * f, 4)
  {
    if f == e {
      assert Pow256(4) == 0x1_0000_0000 by { assert Pow256(2) == 65536; }
      GetPut(b, 4 * e, 4, v);
    } else {
      GetSame(PutLe(b, 4 * e, 4, v), b, 4 * f, 4);
    }
  }

  lemma FillEntry(sb: Superblock, disk: seq<Block>, nodes: seq<Inode>, owner: map<nat, Ref>, i: nat, e: nat, r: nat)
    requires Shapes(sb, disk, nodes) && Refs(sb, disk, nodes, owner, 0, 0)
    requires i < |nodes| && e < NINDIRECT && r < sb.size && nodes[i].addrs[NDIRECT] != 0
    requires Slot(disk, nodes[i], NDIRECT + 1 + e) == 0
    ensures
      var ind := nodes[i].addrs[NDIRECT];
      Fills(disk, nodes, disk[ind := PutLe(disk[ind], 4 * e, 4, r)], nodes, i, NDIRECT + 1 + e, r)
  {
    var ind := nodes[i].addrs[NDIRECT];
    var disk' := disk[ind := PutLe(disk[ind], 4 * e, 4, r)];
    EntryBytes(disk[ind], e, r, e);
    forall j: nat, l: nat | j < |nodes| && l < NSLOT && Ref(j, l) != Ref(i, NDIRECT + 1 + e)
      ensures Keeps(disk, nodes, disk', nodes, j, l, true)
    {
      assert Holds(disk, nodes, owner, i, NDIRECT) && Holds(disk, nodes, owner, j, NDIRECT);
      assert Slot(disk, nodes[j], NDIRECT) == nodes[j].addrs[NDIRECT];
      assert Slot(disk, nodes[i], NDIRECT) == ind;
      if j == i && l > NDIRECT { EntryBytes(disk[ind], e, r, l - NDIRECT - 1); }
    }
  }

  /** Writing into a data block of inode i: nothing but that block's bytes changes. */
  lemma WriteInv(sb: Superblock, disk: seq<Block>, nodes: seq<Inode>, owner: map<nat, Ref>, i: nat, bn: nat,
                 data: Block)
    requires Inv(sb, disk, nodes, owner) && i < |nodes| && Mapped(disk, nodes[i], bn)
    ensures
      var b := Slot(disk, nodes[i], SlotOf(bn));
      && Inv(sb, disk[b := data], nodes, owner)
      && forall j: nat, k: nat | j < |nodes| && k < NSLOT ::
           Slot(disk[b := data], nodes[j], k) == Slot(disk, nodes[j], k)
  {
    var b := Slot(disk, nodes[i], SlotOf(bn));
    var disk' := disk[b := data];
    assert Holds(disk, nodes, owner, i, SlotOf(bn));
    assert Backed(sb, disk, nodes, owner, b);
    RefsFrame(sb, disk, disk', nodes, owner, 0, 0);
    forall j: nat, k: nat | j < |nodes| && k < NSLOT
      ensures Slot(disk', nodes[j], k) == Slot(disk, nodes[j], k)
    {
      assert Holds(disk, nodes, owner, j, NDIRECT);
      SlotFrame(disk, disk', nodes, owner, j, k);
    }
    forall c: nat | c < sb.size
      ensures Used(disk', sb, c) <==> c < sb.datastart || c in owner
    {
      assert Used(disk, sb, c) == Used(disk', sb, c);
    }
  }

  lemma WriteByte(sb: Superblock, disk: seq<Block>, nodes: seq<Inode>, owner: map<nat, Ref>,
                  i: nat, bn: nat, data: Block, j: nat, p: nat)
    requires Inv(sb, disk, nodes, owner) && i < |nodes| && Mapped(disk, nodes[i], bn)
    requires j < |nodes| && Mapped(disk, nodes[j], p / BSIZE)
    ensures
      var disk' := disk[Slot(disk, nodes[i], SlotOf(bn)) := data];
      && Shape(disk', nodes[j]) && Mapped(disk', nodes[j], p / BSIZE)
      && ByteAt(disk', nodes[j], p) ==
         if j == i && p / BSIZE == bn then data[p % BSIZE] else ByteAt(disk, nodes[j], p)
  {
    WriteInv(sb, disk, nodes, owner, i, bn, data);
    assert Holds(disk, nodes, owner, i, SlotOf(bn)) && Holds(disk, nodes, owner, j, SlotOf(p / BSIZE));
  }

  lemma ExtendsTrans(disk: seq<Block>, nodes: seq<Inode>, owner: map<nat, Ref>,
                     disk1: seq<Block>, nodes1: seq<Inode>, owner1: map<nat, Ref>,
                     disk2: seq<Block>, nodes2: seq<Inode>, owner2: map<nat, Ref>)
    requires Extends(disk, nodes, owner, disk1, nodes1, owner1)
    requires Extends(disk1, nodes1, owner1, disk2, nodes2, owner2)
    requires forall b: nat | b in owner && b < |disk| && b in owner1 :: owner1[b] == owner[b]
    ensures Extends(disk, nodes, owner, disk2, nodes2, owner2)
  {
    forall i: nat, k: nat | i < |nodes| && k < NSLOT
      ensures Keeps(disk, nodes, disk2, nodes2, i, k, false)
    {
      assert Keeps(disk, nodes, disk1, nodes1, i, k, false) && Keeps(disk1, nodes1, disk2, nodes2, i, k, false);
    }
  }

  /** The state grew: what was there stays, and of the slots only those of inode i named
      by k, and its indirect slot when k lies beyond it, may have been filled. */
  ghost predicate Grew(disk: seq<Block>, nodes: seq<Inode>, owner: map<nat, Ref>,
                       disk': seq<Block>, nodes': seq<Inode>, owner': map<nat, Ref>, i: nat, k: nat)
  {
    && Extends(disk, nodes, owner, disk', nodes', owner')
    && (forall j: nat, l: nat | j < |nodes| && l < NSLOT && (j != i || (l != k && (l != NDIRECT || k < NDIRECT))) ::
          Keeps(disk, nodes, disk', nodes', j, l, true))
    && (forall b: nat | b in owner && b in owner' :: owner'[b] == owner[b])
  }

  lemma GrewTrans(disk: seq<Block>, nodes: seq<Inode>, owner: map<nat, Ref>,
                  disk1: seq<Block>, nodes1: seq<Inode>, owner1: map<nat, Ref>,
                  disk2: seq<Block>, nodes2: seq<Inode>, owner2: map<nat, Ref>, i: nat, k: nat)
    requires Grew(disk, nodes, owner, disk1, nodes1, owner1, i, NDIRECT) && k > NDIRECT
    requires Grew(disk1, nodes1, owner1, disk2, nodes2, owner2, i, k)
    requires forall b: nat | b in owner :: b < |disk|
    ensures Grew(disk, nodes, owner, disk2, nodes2, owner2, i, k)
  {
    ExtendsTrans(disk, nodes, owner, disk1, nodes1, owner1, disk2, nodes2, owner2);
    forall j: nat, l: nat | j < |nodes| && l < NSLOT && (j != i || (l != k && l != NDIRECT))
      ensures Keeps(disk, nodes, disk2, nodes2, j, l, true)
    {
      assert Keeps(disk, nodes, disk1, nodes1, j, l, true) && Keeps(disk1, nodes1, disk2, nodes2, j, l, true);
    }
  }

  /** One allocation by bmap: claim r, then store it in slot k. */
  lemma AllocFill(sb: Superblock, disk: seq<Block>, nodes: seq<Inode>, owner: map<nat, Ref>,
                  disk': seq<Block>, nodes': seq<Inode>, i: nat, k: nat, r: nat)
    requires Inv(sb, disk, nodes, owner) && r < sb.size && !Used(disk, sb, r)
    requires Fills(Claim(sb, disk, r), nodes, disk', nodes', i, k, r)
    requires OnlyIndirect(Claim(sb, disk, r), disk', nodes[i])
    ensures Inv(sb, disk', nodes', owner[r := Ref(i, k)])
    ensures Grew(disk, nodes, owner, disk', nodes', owner[r := Ref(i, k)], i, k)
    ensures Slot(disk', nodes'[i], k) == r
  {
    ClaimInv(sb, disk, nodes, owner, r);
    var disk1 := Claim(sb, disk, r);
    FillInv(sb, disk1, nodes, owner, disk', nodes', i, k, r);
    ExtendsTrans(disk, nodes, owner, disk1, nodes, owner, disk', nodes', owner[r := Ref(i, k)]);
    forall j: nat, l: nat | j < |nodes| && l < NSLOT && Ref(j, l) != Ref(i, k)
      ensures Keeps(disk, nodes, disk', nodes', j, l, true)
    {
      assert Keeps(disk, nodes, disk1, nodes, j, l, true) && Keeps(disk1, nodes, disk', nodes', j, l, true);
    }
  }

  lemma DirectStep(sb: Superblock, disk: seq<Block>, nodes: seq<Inode>, owner: map<nat, Ref>, i: nat, k: nat, r: nat)
    requires Inv(sb, disk, nodes, owner) && r < sb.size && !Used(disk, sb, r)
    requires i < |nodes| && k <= NDIRECT && Slot(disk, nodes[i], k) == 0
    ensures
      var disk', nodes' := Claim(sb, disk, r), nodes[i := nodes[i].(addrs := nodes[i].addrs[k := r])];
      && Inv(sb, disk', nodes', owner[r := Ref(i, k)])
      && Grew(disk, nodes, owner, disk', nodes', owner[r := Ref(i, k)], i, k)
      && Slot(disk', nodes'[i], k) == r
  {
    var disk', nodes' := Claim(sb, disk, r), nodes[i := nodes[i].(addrs := nodes[i].addrs[k := r])];
    ClaimInv(sb, disk, nodes, owner, r);
    assert Keeps(disk, nodes, disk', nodes, i, k, true);
    FillDirect(disk', nodes, i, k, r);
    AllocFill(sb, disk, nodes, owner, disk', nodes', i, k, r);
  }

  lemma ClaimEntry(sb: Superblock, disk: seq<Block>, nodes: seq<Inode>, owner: map<nat, Ref>, i: nat, e: nat, r: nat)
    requires Inv(sb, disk, nodes, owner) && r < sb.size && !Used(disk, sb, r)
    requires i < |nodes| && e < NINDIRECT && nodes[i].addrs[NDIRECT] != 0
    ensures Shapes(sb, Claim(sb, disk, r), nodes) && Refs(sb, Claim(sb, disk, r), nodes, owner, 0, 0)
    ensures Claim(sb, disk, r)[nodes[i].addrs[NDIRECT]] == disk[nodes[i].addrs[NDIRECT]]
    ensures Slot(Claim(sb, disk, r), nodes[i], NDIRECT + 1 + e) == Slot(disk, nodes[i], NDIRECT + 1 + e)
  {
    ClaimInv(sb, disk, nodes, owner, r);
    assert Keeps(disk, nodes, Claim(sb, disk, r), nodes, i, NDIRECT + 1 + e, true);
    var ind := nodes[i].addrs[NDIRECT];
    assert Holds(disk, nodes, owner, i, NDIRECT) && Slot(disk, nodes[i], NDIRECT) == ind;
    assert Backed(sb, disk, nodes, owner, ind);
  }

  lemma EntryStep(sb: Superblock, disk: seq<Block>, nodes: seq<Inode>, owner: map<nat, Ref>, i: nat, e: nat, r: nat,
                  data: Block)
    requires Inv(sb, disk, nodes, owner) && r < sb.size && !Used(disk, sb, r)
    requires i < |nodes| && e < NINDIRECT && nodes[i].addrs[NDIRECT] != 0
    requires Slot(disk, nodes[i], NDIRECT + 1 + e) == 0
    requires data == PutLe(disk[nodes[i].addrs[NDIRECT]], 4 * e, 4, r)
    ensures
      var disk' := Claim(sb, disk, r)[nodes[i].addrs[NDIRECT] := data];
      && Inv(sb, disk', nodes, owner[r := Ref(i, NDIRECT + 1 + e)])
      && Grew(disk, nodes, owner, disk', nodes, owner[r := Ref(i, NDIRECT + 1 + e)], i, NDIRECT + 1 + e)
      && Slot(disk', nodes[i], NDIRECT + 1 + e) == r
  {
    var disk1, ind := Claim(sb, disk, r), nodes[i].addrs[NDIRECT];
    ClaimEntry(sb, disk, nodes, owner, i, e, r);
    FillEntry(sb, disk1, nodes, owner, i, e, r);
    AllocFill(sb, disk, nodes, owner, disk1[ind := data], nodes, i, NDIRECT + 1 + e, r);
  }

  /** F with the bytes from off on replaced, and F lengthened, by d. */
  function Overwrite(F: seq<byte>, off: nat, d: seq<byte>): (r: seq<byte>)
    requires off <= |F|
    ensures |r| == if off + |d| <= |F| then |F| else off + |d|
    ensures forall p | 0 <= p < |r| :: r[p] == if off <= p < off + |d| then d[p - off] else F[p]
  {
    if off + |d| <= |F| then F[..off] + d + F[off + |d|..] else F[..off] + d
  }

  lemma OverwriteMore(F: seq<byte>, off: nat, a: seq<byte>, b: seq<byte>)
    requires off <= |F|
    ensures Overwrite(Overwrite(F, off, a), off + |a|, b) == Overwrite(F, off, a + b)
  {
  }

  ghost predicate ShowsAt(disk: seq<Block>, n: Inode, F: seq<byte>, p: nat) {
    p < |F| && Shape(disk, n) && Mapped(disk, n, p / BSIZE) && ByteAt(disk, n, p) == F[p]
  }

  /** The inode's blocks hold the bytes F, whatever its size says. */
  ghost predicate Shows(disk: seq<Block>, n: Inode, F: seq<byte>) {
    forall p: nat | p < |F| :: ShowsAt(disk, n, F, p)
  }

  lemma ShowsFile(disk: seq<Block>, n: Inode)
    requires Shape(disk, n) && NoHoles(disk, n)
    ensures Shows(disk, n, File(disk, n))
  {
    forall p: nat | p < n.size
      ensures ShowsAt(disk, n, File(disk, n), p)
    {
      assert Mapped(disk, n, p / BSIZE);
    }
  }

  lemma FileShows(disk: seq<Block>, n: Inode, F: seq<byte>)
    requires Shape(disk, n) && n.size <= |F| && Shows(disk, n, F)
    ensures NoHoles(disk, n) && File(disk, n) == F[..n.size]
  {
    forall bn: nat | bn * BSIZE < n.size
      ensures Mapped(disk, n, bn)
    {
      assert ShowsAt(disk, n, F, bn * BSIZE);
    }
    forall p: nat | p < n.size
      ensures File(disk, n)[p] == F[p]
    {
      assert ShowsAt(disk, n, F, p);
    }
  }

  lemma ExtendsShows(sb: Superblock, disk: seq<Block>, nodes: seq<Inode>, owner: map<nat, Ref>,
                     disk': seq<Block>, nodes': seq<Inode>, owner': map<nat, Ref>, i: nat, F: seq<byte>)
    requires Inv(sb, disk, nodes, owner) && Extends(disk, nodes, owner, disk', nodes', owner')
    requires i < |nodes| && Shows(disk, nodes[i], F)
    ensures Shows(disk', nodes'[i], F)
  {
    forall p: nat | p < |F|
      ensures ShowsAt(disk', nodes'[i], F, p)
    {
      assert ShowsAt(disk, nodes[i], F, p);
      assert Holds(disk, nodes, owner, i, SlotOf(p / BSIZE));
      ExtendsByte(disk, nodes, owner, disk', nodes', owner', i, p);
    }
  }

  lemma SameBlock(off: nat, p: nat, n: nat)
    requires off % BSIZE + n <= BSIZE
    ensures off <= p < off + n ==> p / BSIZE == off / BSIZE
    ensures p / BSIZE == off / BSIZE ==> p - off == p % BSIZE - off % BSIZE
  {
  }

  /** One chunk of writei: bytes c at offset off, inside one block. */
  lemma WriteShows(sb: Superblock, disk: seq<Block>, nodes: seq<Inode>, owner: map<nat, Ref>,
                   i: nat, F: seq<byte>, off: nat, c: seq<byte>)
    requires Inv(sb, disk, nodes, owner) && i < |nodes| && Shows(disk, nodes[i], F)
    requires off <= |F| && off % BSIZE + |c| <= BSIZE && Mapped(disk, nodes[i], off / BSIZE)
    ensures
      var b := Slot(disk, nodes[i], SlotOf(off / BSIZE));
      Shows(disk[b := Patch(disk[b], off % BSIZE, c)], nodes[i], Overwrite(F, off, c))
  {
    var b := Slot(disk, nodes[i], SlotOf(off / BSIZE));
    var data := Patch(disk[b], off % BSIZE, c);
    var G, disk' := Overwrite(F, off, c), disk[b := data];
    forall p: nat | p < |G|
      ensures ShowsAt(disk', nodes[i], G, p)
    {
      if p < |F| { assert ShowsAt(disk, nodes[i], F, p); }
      SameBlock(off, p, |c|);
      WriteByte(sb, disk, nodes, owner, i, off / BSIZE, data, i, p);
    }
  }

  /** Raising the size to cover bytes already written. */
  lemma ResizeInv(sb: Superblock, disk: seq<Block>, nodes: seq<Inode>, owner: map<nat, Ref>, i: nat, F: seq<byte>,
                  z: nat)
    requires Inv(sb, disk, nodes, owner) && i < |nodes| && Shows(disk, nodes[i], F)
    requires z <= |F| && z <= MAXFILE * BSIZE
    ensures
      var nodes' := nodes[i := nodes[i].(size := z)];
      Inv(sb, disk, nodes', owner) && File(disk, nodes'[i]) == F[..z]
  {
    var n' := nodes[i].(size := z);
    var nodes' := nodes[i := n'];
    forall p: nat | p < |F|
      ensures ShowsAt(disk, n', F, p)
    {
      assert ShowsAt(disk, nodes[i], F, p);
    }
    FileShows(disk, n', F);
    forall j: nat, k: nat | j < |nodes| && k < NSLOT
      ensures Holds(disk, nodes', owner, j, k)
    {
      assert Holds(disk, nodes, owner, j, k);
    }
    forall b: nat | b in owner
      ensures Backed(sb, disk, nodes', owner, b)
    {
      assert Backed(sb, disk, nodes, owner, b);
    }
  }

  /** The invariant while inode ino is being truncated: its file is given up, and of its
      indirect entries the first dead have been freed already. */
  ghost predicate TruncInv(sb: Superblock, disk: seq<Block>, nodes: seq<Inode>, owner: map<nat, Ref>,
                           ino: nat, dead: nat)
  {
    && Shapes(sb, disk, nodes) && Refs(sb, disk, nodes, owner, ino, dead) && Bits(sb, disk, owner, {})
    && ino < |nodes| && forall j | 0 <= j < |nodes| && j != ino :: NoHoles(disk, nodes[j])
  }

  lemma FreeBlock(sb: Superblock, disk: seq<Block>, nodes: seq<Inode>, owner: map<nat, Ref>,
                  ino: nat, dead: nat, b: nat)
    requires TruncInv(sb, disk, nodes, owner, ino, dead) && b in owner
    ensures sb.datastart <= b < sb.size && Used(disk, sb, b)
    ensures Bits(sb, Unclaim(sb, disk, b), owner - {b}, {})
    ensures Shapes(sb, Unclaim(sb, disk, b), nodes) && Refs(sb, Unclaim(sb, disk, b), nodes, owner, ino, dead)
    ensures forall j | 0 <= j < |nodes| && j != ino :: NoHoles(Unclaim(sb, disk, b), nodes[j])
  {
    assert Backed(sb, disk, nodes, owner, b);
    var disk' := Unclaim(sb, disk, b);
    assert Agree(disk, disk', owner, true) by {
      forall c: nat | c in owner && c < |disk|
        ensures disk'[c] == disk[c]
      {
        assert Backed(sb, disk, nodes, owner, c);
      }
    }
    RefsFrame(sb, disk, disk', nodes, owner, ino, dead);
    forall c: nat | c < sb.size
      ensures Used(disk', sb, c) <==> c < sb.datastart || c in owner - {b}
    {
      ClaimBits(sb, disk, b, c);
    }
  }

  /** Dropping block b from the owners, once the one slot that named it is gone or dead. */
  lemma RefsWithout(sb: Superblock, disk: seq<Block>, nodes: seq<Inode>, nodes': seq<Inode>, owner: map<nat, Ref>,
                    ino: nat, dead: nat, dead': nat, b: nat)
    requires Shapes(sb, disk, nodes) && Shapes(sb, disk, nodes') && Refs(sb, disk, nodes, owner, ino, dead)
    requires |nodes'| == |nodes| && ino < |nodes| && b in owner
    requires forall j: nat, k: nat | j < |nodes| && k < NSLOT && Ref(j, k) != owner[b] && !Dead(Ref(j, k), ino, dead) ::
               Slot(disk, nodes'[j], k) == Slot(disk, nodes[j], k)
    requires forall k: nat | k < NSLOT && (Ref(ino, k) == owner[b] || Dead(Ref(ino, k), ino, dead)) ::
               Dead(Ref(ino, k), ino, dead') || Slot(disk, nodes'[ino], k) == 0
    requires owner[b].ino == ino && (forall r | Dead(r, ino, dead') :: Dead(r, ino, dead) || r == owner[b])
    ensures Refs(sb, disk, nodes', owner - {b}, ino, dead')
  {
    forall j: nat, k: nat | j < |nodes'| && k < NSLOT && !Dead(Ref(j, k), ino, dead')
      ensures Holds(disk, nodes', owner - {b}, j, k)
    {
      if Ref(j, k) != owner[b] && !Dead(Ref(j, k), ino, dead) {
        assert Slot(disk, nodes'[j], k) == Slot(disk, nodes[j], k);
        assert Holds(disk, nodes, owner, j, k);
        assert Backed(sb, disk, nodes, owner, b);
      }
    }
    forall c: nat | c in owner - {b}
      ensures Backed(sb, disk, nodes', owner - {b}, c) && !Dead(owner[c], ino, dead')
    {
      assert Backed(sb, disk, nodes, owner, c) && Backed(sb, disk, nodes, owner, b);
      assert Ref(owner[c].ino, owner[c].slot) == owner[c] != owner[b];
    }
  }

  /** bfree(a[j]) for the next indirect entry. */
  lemma FreeEntry(sb: Superblock, disk: seq<Block>, nodes: seq<Inode>, owner: map<nat, Ref>, ino: nat, dead: nat)
    requires TruncInv(sb, disk, nodes, owner, ino, dead) && dead < NINDIRECT
    ensures
      var b := Slot(disk, nodes[ino], NDIRECT + 1 + dead);
      if b == 0 then TruncInv(sb, disk, nodes, owner, ino, dead + 1)
      else b in owner && owner[b] == Ref(ino, NDIRECT + 1 + dead) && b < sb.size
           && TruncInv(sb, Unclaim(sb, disk, b), nodes, owner - {b}, ino, dead + 1)
  {
    var b := Slot(disk, nodes[ino], NDIRECT + 1 + dead);
    assert Holds(disk, nodes, owner, ino, NDIRECT + 1 + dead);
    if b != 0 {
      FreeBlock(sb, disk, nodes, owner, ino, dead, b);
      RefsWithout(sb, Unclaim(sb, disk, b), nodes, nodes, owner, ino, dead, dead + 1, b);
    } else {
      forall c: nat | c in owner
        ensures !Dead(owner[c], ino, dead + 1)
      {
        assert Backed(sb, disk, nodes, owner, c);
      }
    }
  }

  /** Freeing the block of an address slot and clearing it; for the indirect block, after its entries. */
  lemma FreeDirect(sb: Superblock, disk: seq<Block>, nodes: seq<Inode>, owner: map<nat, Ref>, ino: nat, dead: nat,
                   k: nat)
    requires TruncInv(sb, disk, nodes, owner, ino, dead) && k <= NDIRECT && nodes[ino].addrs[k] != 0
    requires dead == if k < NDIRECT then 0 else NINDIRECT
    ensures
      var b := nodes[ino].addrs[k];
      && b in owner && owner[b] == Ref(ino, k) && b < sb.size
      && TruncInv(sb, Unclaim(sb, disk, b), nodes[ino := nodes[ino].(addrs := nodes[ino].addrs[k := 0])],
                  owner - {b}, ino, 0)
  {
    var b := nodes[ino].addrs[k];
    assert Holds(disk, nodes, owner, ino, k) && Slot(disk, nodes[ino], k) == b;
    FreeBlock(sb, disk, nodes, owner, ino, dead, b);
    var nodes' := nodes[ino := nodes[ino].(addrs := nodes[ino].addrs[k := 0])];
    RefsWithout(sb, Unclaim(sb, disk, b), nodes, nodes', owner, ino, dead, 0, b);
  }

  /** Of the owners only blocks of inode i were dropped, and no data block was written. */
  ghost predicate Shed(sb: Superblock, disk: seq<Block>, owner: map<nat, Ref>,
                       disk': seq<Block>, owner': map<nat, Ref>, i: nat)
  {
    && |disk| == |disk'| == sb.size
    && (forall b: nat | sb.datastart <= b < sb.size :: disk'[b] == disk[b])
    && (forall b: nat | b in owner' :: b in owner && owner'[b] == owner[b])
    && (forall b: nat | b in owner && b !in owner' :: owner[b].ino == i)
  }

  lemma ShedTrans(sb: Superblock, disk: seq<Block>, owner: map<nat, Ref>, disk1: seq<Block>, owner1: map<nat, Ref>,
                  disk2: seq<Block>, owner2: map<nat, Ref>, i: nat)
    requires Shed(sb, disk, owner, disk1, owner1, i) && Shed(sb, disk1, owner1, disk2, owner2, i)
    ensures Shed(sb, disk, owner, disk2, owner2, i)
  {
    forall b: nat | b in owner && b !in owner2
      ensures owner[b].ino == i
    {
      assert b in owner1 ==> owner1[b].ino == i;
    }
  }

  lemma ShedFree(sb: Superblock, disk: seq<Block>, owner: map<nat, Ref>, b: nat, i: nat)
    requires SuperblockOk(sb) && |disk| == sb.size && b in owner && owner[b].ino == i && b < sb.size
    ensures Shed(sb, disk, owner, Unclaim(sb, disk, b), owner - {b}, i)
  {
  }

  lemma ShedSlot(sb: Superblock, disk: seq<Block>, nodes: seq<Inode>, owner: map<nat, Ref>,
                 disk': seq<Block>, nodes': seq<Inode>, owner': map<nat, Ref>, i: nat, j: nat, k: nat)
    requires Inv(sb, disk, nodes, owner) && Inv(sb, disk', nodes', owner') && Shed(sb, disk, owner, disk', owner', i)
    requires |nodes'| == |nodes| && j < |nodes| && nodes'[j] == nodes[j] && k < NSLOT
    ensures Slot(disk', nodes'[j], k) == Slot(disk, nodes[j], k)
  {
    var ind := Slot(disk, nodes[j], NDIRECT);
    assert Holds(disk, nodes, owner, j, NDIRECT);
    if ind != 0 { assert Backed(sb, disk, nodes, owner, ind); }
  }

  lemma ShedFile(sb: Superblock, disk: seq<Block>, nodes: seq<Inode>, owner: map<nat, Ref>,
                 disk': seq<Block>, nodes': seq<Inode>, owner': map<nat, Ref>, i: nat, j: nat)
    requires Inv(sb, disk, nodes, owner) && Inv(sb, disk', nodes', owner') && Shed(sb, disk, owner, disk', owner', i)
    requires |nodes'| == |nodes| && j < |nodes| && nodes'[j] == nodes[j]
    ensures File(disk', nodes'[j]) == File(disk, nodes[j])
  {
    forall p: nat | p < nodes[j].size
      ensures File(disk', nodes'[j])[p] == File(disk, nodes[j])[p]
    {
      var k := SlotOf(p / BSIZE);
      assert Mapped(disk, nodes[j], p / BSIZE);
      ShedSlot(sb, disk, nodes, owner, disk', nodes', owner', i, j, k);
      assert Holds(disk, nodes, owner, j, k) && Backed(sb, disk, nodes, owner, Slot(disk, nodes[j], k));
    }
  }

  /** What itrunc frees: the blocks of inode i, and no others. */
  lemma ShedUsed(sb: Superblock, disk: seq<Block>, nodes: seq<Inode>, owner: map<nat, Ref>,
                 disk': seq<Block>, nodes': seq<Inode>, owner': map<nat, Ref>, i: nat)
    requires Inv(sb, disk, nodes, owner) && Inv(sb, disk', nodes', owner') && Shed(sb, disk, owner, disk', owner', i)
    requires forall b: nat | b in owner' :: owner'[b].ino != i
    ensures forall b: nat | b < sb.size ::
      Used(disk', sb, b) <==> Used(disk, sb, b) && !(b in owner && owner[b].ino == i)
  {
    forall b: nat | b < sb.size
      ensures Used(disk', sb, b) <==> Used(disk, sb, b) && !(b in owner && owner[b].ino == i)
    {
      if b in owner { assert Backed(sb, disk, nodes, owner, b); }
    }
  }

  function EmptyInode(): Inode {
    Inode(0, seq(NDIRECT + 1, k => 0))
  }

  /** With all its slots gone, the inode owns nothing and its size can be zeroed. */
  lemma TruncDone(sb: Superblock, disk: seq<Block>, nodes: seq<Inode>, owner: map<nat, Ref>, i: nat)
    requires TruncInv(sb, disk, nodes, owner, i, 0)
    requires forall k | 0 <= k <= NDIRECT :: nodes[i].addrs[k] == 0
    ensures Inv(sb, disk, nodes[i := EmptyInode()], owner)
    ensures nodes[i].(size := 0) == EmptyInode()
    ensures forall b: nat | b in owner :: owner[b].ino != i
  {
    var nodes' := nodes[i := EmptyInode()];
    assert nodes[i].addrs == EmptyInode().addrs;
    forall j: nat, k: nat | j < |nodes| && k < NSLOT
      ensures Holds(disk, nodes', owner, j, k)
    {
      assert Holds(disk, nodes, owner, j, k);
    }
    forall b: nat | b in owner
      ensures Backed(sb, disk, nodes', owner, b) && owner[b].ino != i
    {
      assert Backed(sb, disk, nodes, owner, b);
    }
  }

  lemma TruncStart(sb: Superblock, disk: seq<Block>, nodes: seq<Inode>, owner: map<nat, Ref>, i: nat)
    requires Inv(sb, disk, nodes, owner) && i < |nodes|
    ensures TruncInv(sb, disk, nodes, owner, i, 0)
  {
    forall j: nat, k: nat | j < |nodes| && k < NSLOT
      ensures Holds(disk, nodes, owner, j, k)
    {
      assert !Dead(Ref(j, k), 0, 0);
    }
  }

  /** Inode j's blocks hold the bytes G[j] and its size is that of inode j before. */
  ghost predicate FileIs(disk: seq<Block>, nodes: seq<Inode>, sizes: seq<nat>, G: seq<seq<byte>>, j: nat) {
    j < |nodes| && j < |G| && j < |sizes| && Shows(disk, nodes[j], G[j]) && nodes[j].size == sizes[j] <= |G[j]|
  }

  ghost predicate FilesAre(disk: seq<Block>, nodes: seq<Inode>, sizes: seq<nat>, G: seq<seq<byte>>) {
    |G| == |nodes| == |sizes| && forall j: nat | j < |nodes| :: FileIs(disk, nodes, sizes, G, j)
  }

  ghost function Sizes(nodes: seq<Inode>): (z: seq<nat>)
    ensures |z| == |nodes| && forall j | 0 <= j < |nodes| :: z[j] == nodes[j].size
  {
    seq(|nodes|, j requires 0 <= j < |nodes| => nodes[j].size)
  }

  /** All files as flat byte sequences. */
  ghost function Files(sb: Superblock, disk: seq<Block>, nodes: seq<Inode>, owner: map<nat, Ref>): (G: seq<seq<byte>>)
    requires Inv(sb, disk, nodes, owner)
    ensures |G| == |nodes| && forall j | 0 <= j < |nodes| :: G[j] == File(disk, nodes[j])
  {
    seq(|nodes|, j requires 0 <= j < |nodes| => File(disk, nodes[j]))
  }

  lemma FilesStart(sb: Superblock, disk: seq<Block>, nodes: seq<Inode>, owner: map<nat, Ref>)
    requires Inv(sb, disk, nodes, owner)
    ensures FilesAre(disk, nodes, Sizes(nodes), Files(sb, disk, nodes, owner))
  {
    var G := Files(sb, disk, nodes, owner);
    forall j: nat | j < |nodes|
      ensures FileIs(disk, nodes, Sizes(nodes), G, j)
    {
      ShowsFile(disk, nodes[j]);
    }
  }

  lemma FilesExtend(sb: Superblock, disk: seq<Block>, nodes: seq<Inode>, owner: map<nat, Ref>,
                    disk': seq<Block>, nodes': seq<Inode>, owner': map<nat, Ref>, sizes: seq<nat>, G: seq<seq<byte>>)
    requires Inv(sb, disk, nodes, owner) && Extends(disk, nodes, owner, disk', nodes', owner')
    requires FilesAre(disk, nodes, sizes, G)
    ensures FilesAre(disk', nodes', sizes, G)
  {
    forall j: nat | j < |nodes|
      ensures FileIs(disk', nodes', sizes, G, j)
    {
      assert FileIs(disk, nodes, sizes, G, j);
      ExtendsShows(sb, disk, nodes, owner, disk', nodes', owner', j, G[j]);
    }
  }

  /** Writing a chunk into one file changes that file alone. */
  lemma FilesWrite(sb: Superblock, disk: seq<Block>, nodes: seq<Inode>, owner: map<nat, Ref>,
                   sizes: seq<nat>, G: seq<seq<byte>>, i: nat, off: nat, c: seq<byte>)
    requires Inv(sb, disk, nodes, owner) && FilesAre(disk, nodes, sizes, G) && i < |nodes|
    requires off <= |G[i]| && off % BSIZE + |c| <= BSIZE && Mapped(disk, nodes[i], off / BSIZE)
    ensures
      var b := Slot(disk, nodes[i], SlotOf(off / BSIZE));
      var disk' := disk[b := Patch(disk[b], off % BSIZE, c)];
      Inv(sb, disk', nodes, owner) && FilesAre(disk', nodes, sizes, G[i := Overwrite(G[i], off, c)])
  {
    var b := Slot(disk, nodes[i], SlotOf(off / BSIZE));
    var data := Patch(disk[b], off % BSIZE, c);
    var disk', G' := disk[b := data], G[i := Overwrite(G[i], off, c)];
    WriteInv(sb, disk, nodes, owner, i, off / BSIZE, data);
    forall j: nat | j < |nodes|
      ensures FileIs(disk', nodes, sizes, G', j)
    {
      assert FileIs(disk, nodes, sizes, G, j);
      if j == i {
        WriteShows(sb, disk, nodes, owner, i, G[i], off, c);
      } else {
        forall p: nat | p < |G[j]|
          ensures ShowsAt(disk', nodes[j], G[j], p)
        {
          assert ShowsAt(disk, nodes[j], G[j], p);
          WriteByte(sb, disk, nodes, owner, i, off / BSIZE, data, j, p);
        }
      }
    }
  }

  /** The end of writei: the size raised to z, the files are what the blocks show. */
  lemma FilesResize(sb: Superblock, disk: seq<Block>, nodes: seq<Inode>, owner: map<nat, Ref>,
                    sizes: seq<nat>, G: seq<seq<byte>>, i: nat, z: nat)
    requires Inv(sb, disk, nodes, owner) && FilesAre(disk, nodes, sizes, G) && i < |nodes|
    requires z <= |G[i]| && z <= MAXFILE * BSIZE
    ensures
      var nodes' := nodes[i := nodes[i].(size := z)];
      && Inv(sb, disk, nodes', owner) && File(disk, nodes'[i]) == G[i][..z]
      && forall j | 0 <= j < |nodes| && j != i :: sizes[j] <= |G[j]| && File(disk, nodes'[j]) == G[j][..sizes[j]]
  {
    assert FileIs(disk, nodes, sizes, G, i);
    ResizeInv(sb, disk, nodes, owner, i, G[i], z);
    forall j | 0 <= j < |nodes| && j != i
      ensures sizes[j] <= |G[j]| && File(disk, nodes[j]) == G[j][..sizes[j]]
    {
      assert FileIs(disk, nodes, sizes, G, j);
      FileShows(disk, nodes[j], G[j]);
    }
  }
}
