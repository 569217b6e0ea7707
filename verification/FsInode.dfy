/** Inodes on disk: 64-byte records in the inode blocks (kernel/fs.h, ilock and iupdate of kernel/fs.c). */
module FsInode {

  import opened Bytes
  import opened FsLayout

  const DINODE := 64                   // sizeof(struct dinode)
  const IPB := 16                      // inodes per block
  const SIZEAT := 8                    // where the size stands in a record, behind type, numbers and link count
  const ADDRSAT := 12                  // where the block addresses stand

  /** What iupdate can store: thirteen addresses and a size of 32 bits each. */
  predicate Fits(n: Inode) {
    && |n.addrs| == NDIRECT + 1 && n.size < 0x1_0000_0000
    && forall k | 0 <= k <= NDIRECT :: n.addrs[k] < 0x1_0000_0000
  }

  /** Address k of the record at byte o of an inode block. */
  function AddrAt(b: Block, o: nat, k: nat): nat
    requires o + DINODE <= BSIZE && k <= NDIRECT
  {
    GetLe(b, o + ADDRSAT + 4 * k, 4)
  }

  /** The record at byte o of an inode block, as ilock loads it. */
  function RecordAt(b: Block, o: nat): Inode
    requires o + DINODE <= BSIZE
  {
    Inode(GetLe(b, o + SIZEAT, 4), seq(NDIRECT + 1, k requires 0 <= k <= NDIRECT => AddrAt(b, o, k)))
  }

  function Offset(i: nat): (o: nat)
    ensures o + DINODE <= BSIZE
  {
    DINODE * (i % IPB)
  }

  /** Inode i of the table. */
  function DinodeAt(blocks: seq<Block>, i: nat): Inode
    requires i / IPB < |blocks|
  {
    RecordAt(blocks[i / IPB], Offset(i))
  }

  /** The first n inodes, as the inode blocks have them. */
  ghost function Decoded(blocks: seq<Block>, n: nat): (nodes: seq<Inode>)
    requires n <= IPB * |blocks|
    ensures |nodes| == n && forall i | 0 <= i < n :: i / IPB < |blocks| && nodes[i] == DinodeAt(blocks, i)
  {
    seq(n, i requires 0 <= i < n => DinodeAt(blocks, i))
  }

  /** Outside the n bytes from lo on, two blocks are the same. */
  ghost predicate SameOutside(b: Block, c: Block, lo: nat, n: nat) {
    forall p | 0 <= p < BSIZE && !(lo <= p < lo + n) :: b[p] == c[p]
  }

  /** The record at o has the inode's size and its first k addresses. */
  ghost predicate Stores(b: Block, o: nat, n: Inode, k: nat)
    requires o + DINODE <= BSIZE && Fits(n) && k <= NDIRECT + 1
  {
    GetLe(b, o + SIZEAT, 4) == n.size && forall l | 0 <= l < k :: AddrAt(b, o, l) == n.addrs[l]
  }

  lemma WordFits(v: nat)
    requires v < 0x1_0000_0000
    ensures v < Pow256(4)
  {
    assert Pow256(2) == 65536;
  }

  lemma StoreSize(b: Block, o: nat, n: Inode)
    requires o + DINODE <= BSIZE && Fits(n)
    ensures Stores(PutLe(b, o + SIZEAT, 4, n.size), o, n, 0)
    ensures SameOutside(PutLe(b, o + SIZEAT, 4, n.size), b, o, DINODE)
  {
    WordFits(n.size);
    GetPut(b, o + SIZEAT, 4, n.size);
  }

  lemma StoreAddr(b: Block, c: Block, o: nat, n: Inode, k: nat)
    requires o + DINODE <= BSIZE && Fits(n) && k <= NDIRECT && Stores(c, o, n, k) && SameOutside(c, b, o, DINODE)
    ensures Stores(PutLe(c, o + ADDRSAT + 4 * k, 4, n.addrs[k]), o, n, k + 1)
    ensures SameOutside(PutLe(c, o + ADDRSAT + 4 * k, 4, n.addrs[k]), b, o, DINODE)
  {
    var at := o + ADDRSAT + 4 * k;
    var d: Block := PutLe(c, at, 4, n.addrs[k]);
    WordFits(n.addrs[k]);
    GetPut(c, at, 4, n.addrs[k]);
    GetSame(d, c, o + SIZEAT, 4);
    forall l | 0 <= l < k
      ensures AddrAt(d, o, l) == n.addrs[l]
    {
      GetSame(d, c, o + ADDRSAT + 4 * l, 4);
    }
  }

  lemma StoredWhole(b: Block, o: nat, n: Inode)
    requires o + DINODE <= BSIZE && Fits(n) && Stores(b, o, n, NDIRECT + 1)
    ensures RecordAt(b, o) == n
  {
    assert RecordAt(b, o).addrs == n.addrs;
  }

  /** iupdate's assignments: the record at byte o of a block becomes that of inode n. */
  method Encode(b: Block, o: nat, n: Inode) returns (c: Block)
    requires o + DINODE <= BSIZE && Fits(n)
    ensures RecordAt(c, o) == n && SameOutside(c, b, o, DINODE)
  {
    c := PutLe(b, o + SIZEAT, 4, n.size);
    StoreSize(b, o, n);
    var k := 0;
    while k <= NDIRECT
      invariant 0 <= k <= NDIRECT + 1 && Stores(c, o, n, k) && SameOutside(c, b, o, DINODE)
    {
      StoreAddr(b, c, o, n, k);
      c := PutLe(c, o + ADDRSAT + 4 * k, 4, n.addrs[k]);
      k := k + 1;
    }
    StoredWhole(c, o, n);
  }

  lemma NeighbourSame(b: Block, c: Block, o: nat, p: nat)
    requires o + DINODE <= BSIZE && p + DINODE <= BSIZE && (p + DINODE <= o || o + DINODE <= p)
    requires SameOutside(c, b, o, DINODE)
    ensures RecordAt(c, p) == RecordAt(b, p)
  {
    GetSame(c, b, p + SIZEAT, 4);
    forall k | 0 <= k <= NDIRECT
      ensures AddrAt(c, p, k) == AddrAt(b, p, k)
    {
      GetSame(c, b, p + ADDRSAT + 4 * k, 4);
    }
    assert RecordAt(c, p).addrs == RecordAt(b, p).addrs;
  }

  /** A record stored in its block: the table has it there, and every other inode as before. */
  lemma TableStores(blocks: seq<Block>, b: Block, i: nat, n: Inode, j: nat)
    requires i / IPB < |blocks| && j / IPB < |blocks|
    requires RecordAt(b, Offset(i)) == n && SameOutside(b, blocks[i / IPB], Offset(i), DINODE)
    ensures DinodeAt(blocks[i / IPB := b], j) == if j == i then n else DinodeAt(blocks, j)
  {
    if j != i && j / IPB == i / IPB {
      assert j % IPB != i % IPB;
      NeighbourSame(blocks[i / IPB], b, Offset(i), Offset(j));
    }
  }

  /** A sound file system's inodes fit. */
  lemma NodesFit(sb: Superblock, disk: seq<Block>, nodes: seq<Inode>, owner: map<nat, Ref>, i: nat)
    requires Inv(sb, disk, nodes, owner) && i < |nodes|
    ensures Fits(nodes[i])
  {
    forall k | 0 <= k <= NDIRECT
      ensures nodes[i].addrs[k] < 0x1_0000_0000
    {
      assert Holds(disk, nodes, owner, i, k);
      if nodes[i].addrs[k] != 0 { assert Backed(sb, disk, nodes, owner, nodes[i].addrs[k]); }
    }
  }
}
