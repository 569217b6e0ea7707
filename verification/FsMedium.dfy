/** The disk beneath the buffer cache: what of a file system's blocks has been written, when the
    cache holds changes that were not (kernel/fs.c over kernel/bio.c). */
module FsMedium {

  import opened Bytes
  import opened FsLayout

  /** Metadata and indirect blocks are always written; data blocks may lag behind. */
  ghost predicate Mirror(sb: Superblock, disk: seq<Block>, medium: seq<Block>, owner: map<nat, Ref>) {
    && Agree(disk, medium, owner, true)
    && forall b | 0 <= b < sb.datastart && b < |disk| && b < |medium| :: medium[b] == disk[b]
  }

  /** No data block of anybody's was written. */
  ghost predicate Calm(owner: map<nat, Ref>, medium: seq<Block>, medium': seq<Block>) {
    && |medium'| == |medium|
    && forall b: nat | b in owner && b < |medium| && owner[b].slot != NDIRECT :: medium'[b] == medium[b]
  }

  /** The medium after block b was written. */
  function Bwritten(medium: seq<Block>, disk: seq<Block>, b: nat): seq<Block>
    requires b < |medium| && b < |disk|
  {
    medium[b := disk[b]]
  }

  /** Any block may be written. */
  lemma MirrorWrite(sb: Superblock, disk: seq<Block>, medium: seq<Block>, owner: map<nat, Ref>, b: nat, data: Block)
    requires Mirror(sb, disk, medium, owner) && b < |disk|
    ensures Mirror(sb, disk[b := data], medium[b := data], owner)
  {
    forall c: nat | c in owner && c < |disk| && owner[c].slot == NDIRECT
      ensures medium[b := data][c] == disk[b := data][c]
    {
      if c != b { assert medium[c] == disk[c]; }
    }
  }

  lemma MirrorLess(sb: Superblock, disk: seq<Block>, medium: seq<Block>, owner: map<nat, Ref>, b: nat)
    requires Mirror(sb, disk, medium, owner)
    ensures Mirror(sb, disk, medium, owner - {b})
  {
    forall c: nat | c in owner - {b} && c < |disk| && (owner - {b})[c].slot == NDIRECT
      ensures medium[c] == disk[c]
    {
      assert c in owner;
    }
  }

  lemma MirrorMore(sb: Superblock, disk: seq<Block>, medium: seq<Block>, owner: map<nat, Ref>, b: nat, ref: Ref)
    requires Mirror(sb, disk, medium, owner) && b < |disk| && medium[b] == disk[b]
    ensures Mirror(sb, disk, medium, owner[b := ref])
  {
    forall c: nat | c in owner[b := ref] && c < |disk| && owner[b := ref][c].slot == NDIRECT
      ensures medium[c] == disk[c]
    {
      if c != b { assert c in owner; }
    }
  }

  /** balloc on the medium: both blocks it changes are written. */
  function MediumClaim(sb: Superblock, disk: seq<Block>, medium: seq<Block>, r: nat): seq<Block>
    requires SuperblockOk(sb) && |disk| == |medium| == sb.size && r < sb.size
  {
    var m := sb.bmapstart + r / BPB;
    medium[m := PutBit(disk[m], r % BPB, true)][r := Zeros(BSIZE)]
  }

  lemma ClaimCalm(sb: Superblock, disk: seq<Block>, medium: seq<Block>, nodes: seq<Inode>, owner: map<nat, Ref>, r: nat)
    requires Inv(sb, disk, nodes, owner) && |medium| == |disk| && sb.datastart <= r < sb.size && r !in owner
    ensures Calm(owner, medium, MediumClaim(sb, disk, medium, r))
  {
    forall b: nat | b in owner && b < |medium| && owner[b].slot != NDIRECT
      ensures MediumClaim(sb, disk, medium, r)[b] == medium[b]
    {
      assert Backed(sb, disk, nodes, owner, b);
    }
  }

  lemma MirrorClaim(sb: Superblock, disk: seq<Block>, medium: seq<Block>, nodes: seq<Inode>, owner: map<nat, Ref>,
                    r: nat)
    requires Inv(sb, disk, nodes, owner) && Mirror(sb, disk, medium, owner) && r < sb.size && !Used(disk, sb, r)
    ensures Mirror(sb, Claim(sb, disk, r), MediumClaim(sb, disk, medium, r), owner)
    ensures Calm(owner, medium, MediumClaim(sb, disk, medium, r))
    ensures MediumClaim(sb, disk, medium, r)[r] == Claim(sb, disk, r)[r]
  {
    var m := sb.bmapstart + r / BPB;
    var x: Block := PutBit(disk[m], r % BPB, true);
    MirrorWrite(sb, disk, medium, owner, m, x);
    MirrorWrite(sb, disk[m := x], medium[m := x], owner, r, Zeros(BSIZE));
    ClaimCalm(sb, disk, medium, nodes, owner, r);
  }

  lemma CalmWrite(owner: map<nat, Ref>, medium: seq<Block>, medium': seq<Block>, b: nat, data: Block)
    requires Calm(owner, medium, medium') && b < |medium| && b in owner && owner[b].slot == NDIRECT
    ensures Calm(owner, medium, medium'[b := data])
  {
  }

  /** bmap's new indirect entry on the medium, after r was claimed. */
  lemma MirrorEntry(sb: Superblock, disk: seq<Block>, disk1: seq<Block>, medium: seq<Block>, medium1: seq<Block>,
                    nodes: seq<Inode>, owner: map<nat, Ref>, i: nat, r: nat, ref: Ref, data: Block)
    requires Inv(sb, disk, nodes, owner) && Mirror(sb, disk1, medium1, owner) && |disk| == |disk1| == |medium|
    requires r < sb.size && medium1[r] == disk1[r] && Calm(owner, medium, medium1)
    requires i < |nodes| && nodes[i].addrs[NDIRECT] != 0
    ensures
      var ind := nodes[i].addrs[NDIRECT];
      && ind < sb.size && Mirror(sb, disk1[ind := data], medium1[ind := data], owner[r := ref])
      && Calm(owner, medium, medium1[ind := data])
  {
    var ind := nodes[i].addrs[NDIRECT];
    assert Holds(disk, nodes, owner, i, NDIRECT) && Slot(disk, nodes[i], NDIRECT) == ind;
    MirrorMore(sb, disk1, medium1, owner, r, ref);
    MirrorWrite(sb, disk1, medium1, owner[r := ref], ind, data);
    CalmWrite(owner, medium, medium1, ind, data);
  }

  lemma SameBits(sb: Superblock, disk: seq<Block>, disk': seq<Block>, owner: map<nat, Ref>)
    requires SuperblockOk(sb) && |disk| == |disk'| == sb.size && Bits(sb, disk, owner, {})
    requires forall b | 0 <= b < sb.datastart :: disk'[b] == disk[b]
    ensures Bits(sb, disk', owner, {})
  {
    forall b: nat | b < sb.size
      ensures Used(disk', sb, b) <==> b < sb.datastart || b in owner || b in {}
    {
      assert Used(disk, sb, b) <==> Used(disk', sb, b);
    }
  }

  /** Recycling the buffer of any block leaves a sound file system. */
  lemma EvictInv(sb: Superblock, disk: seq<Block>, medium: seq<Block>, nodes: seq<Inode>, owner: map<nat, Ref>, b: nat)
    requires Inv(sb, disk, nodes, owner) && Mirror(sb, disk, medium, owner) && b < |disk|
    ensures Inv(sb, Bwritten(disk, medium, b), nodes, owner) && Mirror(sb, Bwritten(disk, medium, b), medium, owner)
  {
    var disk' := Bwritten(disk, medium, b);
    assert Agree(disk, disk', owner, true);
    RefsFrame(sb, disk, disk', nodes, owner, 0, 0);
    SameBits(sb, disk, disk', owner);
  }

  /** The medium alone is a sound file system, with the same blocks in the same places. */
  lemma MediumInv(sb: Superblock, disk: seq<Block>, medium: seq<Block>, nodes: seq<Inode>, owner: map<nat, Ref>)
    requires Inv(sb, disk, nodes, owner) && Mirror(sb, disk, medium, owner)
    ensures Inv(sb, medium, nodes, owner)
  {
    RefsFrame(sb, disk, medium, nodes, owner, 0, 0);
    SameBits(sb, disk, medium, owner);
  }

  lemma MediumSlot(sb: Superblock, disk: seq<Block>, medium: seq<Block>, nodes: seq<Inode>, owner: map<nat, Ref>,
                   i: nat, k: nat)
    requires Inv(sb, disk, nodes, owner) && Mirror(sb, disk, medium, owner) && i < |nodes| && k < NSLOT
    ensures Shape(medium, nodes[i]) && Slot(medium, nodes[i], k) == Slot(disk, nodes[i], k)
  {
    assert Holds(disk, nodes, owner, i, NDIRECT);
    SlotFrame(disk, medium, nodes, owner, i, k);
  }

  lemma CalmTrans(owner: map<nat, Ref>, owner1: map<nat, Ref>, m0: seq<Block>, m1: seq<Block>, m2: seq<Block>)
    requires Calm(owner, m0, m1) && Calm(owner1, m1, m2)
    requires forall b: nat | b in owner :: b in owner1 && owner1[b] == owner[b]
    ensures Calm(owner, m0, m2)
  {
    forall b: nat | b in owner && b < |m0| && owner[b].slot != NDIRECT
      ensures m2[b] == m0[b]
    {
      assert m1[b] == m0[b];
    }
  }

  /** What bmap adds to the cached file system it adds to the medium too. */
  lemma MediumExtends(sb: Superblock, disk: seq<Block>, nodes: seq<Inode>, owner: map<nat, Ref>, medium: seq<Block>,
                      disk': seq<Block>, nodes': seq<Inode>, owner': map<nat, Ref>, medium': seq<Block>)
    requires Inv(sb, disk, nodes, owner) && Inv(sb, disk', nodes', owner')
    requires Extends(disk, nodes, owner, disk', nodes', owner')
    requires Mirror(sb, disk, medium, owner) && Mirror(sb, disk', medium', owner') && Calm(owner, medium, medium')
    ensures Extends(medium, nodes, owner, medium', nodes', owner')
  {
    forall i: nat, k: nat | i < |nodes| && k < NSLOT
      ensures Keeps(medium, nodes, medium', nodes', i, k, false)
    {
      assert Keeps(disk, nodes, disk', nodes', i, k, false);
      MediumSlot(sb, disk, medium, nodes, owner, i, k);
      MediumSlot(sb, disk', medium', nodes', owner', i, k);
    }
    forall i | 0 <= i < |nodes|
      ensures Shape(medium, nodes[i]) && Shape(medium', nodes'[i])
    {
      assert Keeps(medium, nodes, medium', nodes', i, 0, false);
    }
  }

  lemma MediumFiles(sb: Superblock, disk: seq<Block>, nodes: seq<Inode>, owner: map<nat, Ref>, medium: seq<Block>,
                    disk': seq<Block>, nodes': seq<Inode>, owner': map<nat, Ref>, medium': seq<Block>,
                    sizes: seq<nat>, H: seq<seq<byte>>)
    requires Inv(sb, disk, nodes, owner) && Inv(sb, disk', nodes', owner')
    requires Extends(disk, nodes, owner, disk', nodes', owner')
    requires Mirror(sb, disk, medium, owner) && Mirror(sb, disk', medium', owner') && Calm(owner, medium, medium')
    requires FilesAre(medium, nodes, sizes, H)
    ensures FilesAre(medium', nodes', sizes, H)
  {
    MediumInv(sb, disk, medium, nodes, owner);
    MediumExtends(sb, disk, nodes, owner, medium, disk', nodes', owner', medium');
    FilesExtend(sb, medium, nodes, owner, medium', nodes', owner', sizes, H);
  }

  lemma MappedStays(sb: Superblock, disk: seq<Block>, nodes: seq<Inode>, owner: map<nat, Ref>, i: nat, bn: nat,
                    data: Block)
    requires Inv(sb, disk, nodes, owner) && i < |nodes| && Mapped(disk, nodes[i], bn)
    ensures
      var b := Slot(disk, nodes[i], SlotOf(bn));
      && Shape(disk[b := data], nodes[i]) && Mapped(disk[b := data], nodes[i], bn)
      && Slot(disk[b := data], nodes[i], SlotOf(bn)) == b
  {
    WriteInv(sb, disk, nodes, owner, i, bn, data);
  }

  /** A data block of a file may be changed without being written. */
  lemma DataBlock(sb: Superblock, disk: seq<Block>, medium: seq<Block>, nodes: seq<Inode>, owner: map<nat, Ref>,
                  i: nat, bn: nat, data: Block)
    requires Inv(sb, disk, nodes, owner) && Mirror(sb, disk, medium, owner) && i < |nodes| && Mapped(disk, nodes[i], bn)
    ensures Mirror(sb, disk[Slot(disk, nodes[i], SlotOf(bn)) := data], medium, owner)
  {
    var b := Slot(disk, nodes[i], SlotOf(bn));
    assert Holds(disk, nodes, owner, i, SlotOf(bn)) && Backed(sb, disk, nodes, owner, b);
    forall c: nat | c in owner && c < |disk| && owner[c].slot == NDIRECT
      ensures medium[c] == disk[b := data][c]
    {
      assert c != b && medium[c] == disk[c];
    }
  }

  // ---------------------------------------------------------------- writing a block

  /** h with the bytes of block bn taken from g, and as long as g. */
  function Committed(h: seq<byte>, g: seq<byte>, bn: nat): (r: seq<byte>)
    requires |h| <= |g|
    ensures |r| == |g| && forall p | 0 <= p < |g| :: r[p] == if p / BSIZE == bn || p >= |h| then g[p] else h[p]
  {
    seq(|g|, p requires 0 <= p < |g| => if p / BSIZE == bn || p >= |h| then g[p] else h[p])
  }

  /** What g has beyond the end of h lies in block bn. */
  ghost predicate Overhang(h: seq<byte>, g: seq<byte>, bn: nat) {
    |h| == |g| || bn * BSIZE <= |h| <= |g| <= bn * BSIZE + BSIZE
  }

  /** The n bytes from off on lie in block bn. */
  predicate Lies(off: nat, n: nat, bn: nat) {
    bn * BSIZE <= off < bn * BSIZE + BSIZE && off + n <= bn * BSIZE + BSIZE
  }

  lemma LiesDiv(off: nat, n: nat, bn: nat)
    requires Lies(off, n, bn)
    ensures off / BSIZE == bn && off % BSIZE == off - bn * BSIZE && off % BSIZE + n <= BSIZE
  {
  }

  /** A block that has bytes of the file in it, or just before off, is mapped. */
  lemma EdgeMapped(disk: seq<Block>, nodes: seq<Inode>, sizes: seq<nat>, G: seq<seq<byte>>, i: nat, off: nat, n: nat,
                   bn: nat)
    requires FilesAre(disk, nodes, sizes, G) && i < |nodes| && off <= |G[i]| && Lies(off, n, bn)
    requires Shape(disk, nodes[i]) && bn < MAXFILE
    ensures Slot(disk, nodes[i], SlotOf(bn)) != 0 || off == |G[i]| == bn * BSIZE
  {
    assert FileIs(disk, nodes, sizes, G, i);
    LiesDiv(off, n, bn);
    if off < |G[i]| { assert ShowsAt(disk, nodes[i], G[i], off); }
    if bn * BSIZE < off {
      LiesDiv(off - 1, 1, bn);
      assert ShowsAt(disk, nodes[i], G[i], off - 1);
    }
  }

  /** A data block replaced: the bytes of that block of the file, and no others, change. */
  lemma ReplaceShows(sb: Superblock, disk: seq<Block>, nodes: seq<Inode>, owner: map<nat, Ref>,
                     i: nat, bn: nat, data: Block, j: nat, h: seq<byte>, g: seq<byte>)
    requires Inv(sb, disk, nodes, owner) && i < |nodes| && Mapped(disk, nodes[i], bn)
    requires j < |nodes| && Shows(disk, nodes[j], h) && |h| <= |g|
    requires forall p | 0 <= p < |g| ::
      if j == i && p / BSIZE == bn then g[p] == data[p % BSIZE] else p < |h| && g[p] == h[p]
    ensures Shows(disk[Slot(disk, nodes[i], SlotOf(bn)) := data], nodes[j], g)
  {
    var disk' := disk[Slot(disk, nodes[i], SlotOf(bn)) := data];
    forall p: nat | p < |g|
      ensures ShowsAt(disk', nodes[j], g, p)
    {
      if p < |h| {
        assert ShowsAt(disk, nodes[j], h, p);
      } else {
        var x := g[p];
        assert j == i && p / BSIZE == bn;
      }
      assert Mapped(disk, nodes[j], p / BSIZE);
      WriteByte(sb, disk, nodes, owner, i, bn, data, j, p);
    }
  }

  /** bwrite of a data block: the medium's file gets that block of the cached one. */
  lemma SyncFiles(sb: Superblock, disk: seq<Block>, medium: seq<Block>, nodes: seq<Inode>, owner: map<nat, Ref>,
                  sizes: seq<nat>, G: seq<seq<byte>>, H: seq<seq<byte>>, i: nat, bn: nat)
    requires Inv(sb, disk, nodes, owner) && Mirror(sb, disk, medium, owner) && i < |nodes| && Mapped(disk, nodes[i], bn)
    requires FilesAre(disk, nodes, sizes, G) && FilesAre(medium, nodes, sizes, H)
    requires Overhang(H[i], G[i], bn)
    ensures
      var b := Slot(disk, nodes[i], SlotOf(bn));
      && Mirror(sb, disk, medium[b := disk[b]], owner)
      && FilesAre(medium[b := disk[b]], nodes, sizes, H[i := Committed(H[i], G[i], bn)])
  {
    MediumInv(sb, disk, medium, nodes, owner);
    MediumSlot(sb, disk, medium, nodes, owner, i, SlotOf(bn));
    var b := Slot(disk, nodes[i], SlotOf(bn));
    var medium', H' := medium[b := disk[b]], H[i := Committed(H[i], G[i], bn)];
    assert FileIs(disk, nodes, sizes, G, i);
    forall p | 0 <= p < |H'[i]|
      ensures if p / BSIZE == bn then H'[i][p] == disk[b][p % BSIZE] else p < |H[i]| && H'[i][p] == H[i][p]
    {
      assert ShowsAt(disk, nodes[i], G[i], p);
    }
    forall j: nat | j < |nodes|
      ensures FileIs(medium', nodes, sizes, H', j)
    {
      assert FileIs(medium, nodes, sizes, H, j);
      ReplaceShows(sb, medium, nodes, owner, i, bn, disk[b], j, H[j], H'[j]);
    }
  }

  /** The copy into a buffer: the cached file changes, the medium does not, and the block stays where it is. */
  lemma PatchSound(sb: Superblock, disk: seq<Block>, medium: seq<Block>, nodes: seq<Inode>, owner: map<nat, Ref>,
                   sizes: seq<nat>, G: seq<seq<byte>>, i: nat, off: nat, bn: nat, c: seq<byte>)
    requires Inv(sb, disk, nodes, owner) && Mirror(sb, disk, medium, owner) && FilesAre(disk, nodes, sizes, G)
    requires i < |nodes|
    requires bn < MAXFILE && off <= |G[i]| && Lies(off, |c|, bn) && Slot(disk, nodes[i], SlotOf(bn)) != 0
    ensures
      var addr := Slot(disk, nodes[i], SlotOf(bn));
      addr < |disk| && off % BSIZE + |c| <= BSIZE &&
      var disk' := disk[addr := Patch(disk[addr], off % BSIZE, c)];
      && Inv(sb, disk', nodes, owner) && Mirror(sb, disk', medium, owner)
      && FilesAre(disk', nodes, sizes, G[i := Overwrite(G[i], off, c)])
      && Mapped(disk', nodes[i], bn) && Slot(disk', nodes[i], SlotOf(bn)) == addr
  {
    var addr := Slot(disk, nodes[i], SlotOf(bn));
    LiesDiv(off, |c|, bn);
    assert Mapped(disk, nodes[i], bn) by {
      assert Holds(disk, nodes, owner, i, SlotOf(bn)) && Backed(sb, disk, nodes, owner, addr);
    }
    FilesWrite(sb, disk, nodes, owner, sizes, G, i, off, c);
    MappedStays(sb, disk, nodes, owner, i, bn, Patch(disk[addr], off % BSIZE, c));
    DataBlock(sb, disk, medium, nodes, owner, i, bn, Patch(disk[addr], off % BSIZE, c));
  }

  // ---------------------------------------------------------------- several blocks

  /** Byte p lies in a block that holds one of the n bytes from off on. */
  predicate Touched(p: nat, off: nat, n: nat) {
    0 < n && off / BSIZE <= p / BSIZE <= (off + n - 1) / BSIZE
  }

  /** h after the blocks of the n bytes from off on were written as g has them. */
  function Synced(h: seq<byte>, g: seq<byte>, off: nat, n: nat): (r: seq<byte>)
    requires |h| <= |g|
    ensures |r| == |g| && forall p | 0 <= p < |g| :: r[p] == if Touched(p, off, n) || p >= |h| then g[p] else h[p]
  {
    seq(|g|, p requires 0 <= p < |g| => if Touched(p, off, n) || p >= |h| then g[p] else h[p])
  }

  lemma TouchedMore(p: nat, off: nat, tot: nat, m: nat)
    requires 0 < m && (off + tot) % BSIZE + m <= BSIZE && (tot == 0 || (off + tot) % BSIZE == 0)
    ensures Touched(p, off, tot + m) <==> Touched(p, off, tot) || p / BSIZE == (off + tot) / BSIZE
    ensures off + tot <= p < off + tot + m ==> p / BSIZE == (off + tot) / BSIZE
  {
    var o := off + tot;
    assert (o + m - 1) / BSIZE == o / BSIZE;
    if tot > 0 { assert (o - 1) / BSIZE == o / BSIZE - 1; }
  }

  /** One more chunk of writei. */
  lemma SyncedMore(h: seq<byte>, F: seq<byte>, off: nat, src: seq<byte>, tot: nat, m: nat, bn: nat)
    requires off <= |F| && |h| == |F| && 0 < m && tot + m <= |src|
    requires Lies(off + tot, m, bn) && (tot == 0 || off + tot == bn * BSIZE)
    ensures
      var g, g' := Overwrite(F, off, src[..tot]), Overwrite(F, off, src[..tot + m]);
      && Overhang(Synced(h, g, off, tot), g', bn)
      && Committed(Synced(h, g, off, tot), g', bn) == Synced(h, g', off, tot + m)
  {
    var g, g' := Overwrite(F, off, src[..tot]), Overwrite(F, off, src[..tot + m]);
    var s := Synced(h, g, off, tot);
    LiesDiv(off + tot, m, bn);
    forall p | 0 <= p < |g'|
      ensures Committed(s, g', bn)[p] == Synced(h, g', off, tot + m)[p]
    {
      TouchedMore(p, off, tot, m);
    }
  }

  lemma SyncedStart(G: seq<seq<byte>>, H: seq<seq<byte>>, i: nat, off: nat, src: seq<byte>)
    requires i < |G| && i < |H| && off <= |G[i]| == |H[i]|
    ensures H[i := Synced(H[i], Overwrite(G[i], off, src[..0]), off, 0)] == H
  {
    assert Overwrite(G[i], off, src[..0]) == G[i];
    assert Synced(H[i], G[i], off, 0) == H[i];
  }

  /** How much of a write whose copy fails after fault bytes is in blocks that were written: up
      to the last block boundary. */
  function Settled(off: nat, fault: nat): (tot: nat)
    ensures tot <= fault && (tot == 0 || (off + tot) % BSIZE == 0)
    ensures tot == fault <==> fault == 0 || (off + fault) % BSIZE == 0
  {
    var rest := (off + fault) % BSIZE;
    if rest <= fault then fault - rest else 0
  }

  /** The blocks written do not hold what was copied after them. */
  lemma SyncedFault(h: seq<byte>, F: seq<byte>, off: nat, src: seq<byte>, fault: nat, tot: nat)
    requires off <= |F| && |h| == |F| && tot == Settled(off, fault) && fault <= |src|
    ensures
      var z := if off + tot > |F| then off + tot else |F|;
      Synced(h, Overwrite(F, off, src[..tot]), off, tot) == Synced(h, Overwrite(F, off, src[..fault])[..z], off, tot)
  {
    var z := if off + tot > |F| then off + tot else |F|;
    var g, g' := Overwrite(F, off, src[..tot]), Overwrite(F, off, src[..fault])[..z];
    forall p | 0 <= p < z && Touched(p, off, tot)
      ensures p < off + tot
    {
      assert (off + tot - 1) / BSIZE < (off + tot) / BSIZE;
    }
  }

  lemma SettledAt(off: nat, fault: nat, tot: nat, m: nat, bn: nat)
    requires tot <= fault < tot + m && Lies(off + tot, m, bn) && (tot == 0 || off + tot == bn * BSIZE)
    ensures tot == Settled(off, fault)
  {
    LiesDiv(off + tot, m, bn);
    var o := off + tot;
    assert (off + fault) % BSIZE == o % BSIZE + (fault - tot);
  }

  // ---------------------------------------------------------------- giving blocks back

  /** No data block was written at all. */
  ghost predicate Quiet(sb: Superblock, medium: seq<Block>, medium': seq<Block>) {
    |medium| == |medium'| == sb.size && forall b: nat | sb.datastart <= b < sb.size :: medium'[b] == medium[b]
  }

  /** bfree on the medium: the bitmap block is written. */
  function MediumUnclaim(sb: Superblock, disk: seq<Block>, medium: seq<Block>, b: nat): seq<Block>
    requires SuperblockOk(sb) && |disk| == |medium| == sb.size && b < sb.size
  {
    var m := sb.bmapstart + b / BPB;
    medium[m := PutBit(disk[m], b % BPB, false)]
  }

  lemma MirrorUnclaim(sb: Superblock, disk: seq<Block>, medium: seq<Block>, owner: map<nat, Ref>, b: nat)
    requires SuperblockOk(sb) && |disk| == sb.size && b < sb.size && Mirror(sb, disk, medium, owner)
    ensures Mirror(sb, Unclaim(sb, disk, b), MediumUnclaim(sb, disk, medium, b), owner - {b})
    ensures Quiet(sb, medium, MediumUnclaim(sb, disk, medium, b))
  {
    var m := sb.bmapstart + b / BPB;
    MirrorWrite(sb, disk, medium, owner, m, PutBit(disk[m], b % BPB, false));
    MirrorLess(sb, Unclaim(sb, disk, b), MediumUnclaim(sb, disk, medium, b), owner, b);
  }

  /** A block of inode i becomes nobody's. */
  lemma DropOwned(sb: Superblock, disk: seq<Block>, medium: seq<Block>, owner: map<nat, Ref>, i: nat, b: nat)
    requires SuperblockOk(sb) && |disk| == sb.size && b < sb.size && Bits(sb, disk, owner, {})
    requires Mirror(sb, disk, medium, owner) && b in owner && owner[b].ino == i
    ensures Used(disk, sb, b) && Shed(sb, disk, owner, Unclaim(sb, disk, b), owner - {b}, i)
    ensures Mirror(sb, Unclaim(sb, disk, b), MediumUnclaim(sb, disk, medium, b), owner - {b})
    ensures Quiet(sb, medium, MediumUnclaim(sb, disk, medium, b))
  {
    ShedFree(sb, disk, owner, b, i);
    MirrorUnclaim(sb, disk, medium, owner, b);
  }

  /** What itrunc leaves of the other files on the medium: all of it. */
  lemma QuietFile(sb: Superblock, disk: seq<Block>, medium: seq<Block>, nodes: seq<Inode>, owner: map<nat, Ref>,
                  disk': seq<Block>, medium': seq<Block>, nodes': seq<Inode>, owner': map<nat, Ref>, i: nat, j: nat)
    requires Inv(sb, disk, nodes, owner) && Inv(sb, disk', nodes', owner') && Shed(sb, disk, owner, disk', owner', i)
    requires Mirror(sb, disk, medium, owner) && Mirror(sb, disk', medium', owner') && Quiet(sb, medium, medium')
    requires |nodes'| == |nodes| && j < |nodes| && nodes'[j] == nodes[j]
    ensures Inv(sb, medium, nodes, owner) && Inv(sb, medium', nodes', owner')
    ensures File(medium', nodes'[j]) == File(medium, nodes[j])
  {
    MediumInv(sb, disk, medium, nodes, owner);
    MediumInv(sb, disk', medium', nodes', owner');
    ShedFile(sb, medium, nodes, owner, medium', nodes', owner', i, j);
  }

  // ---------------------------------------------------------------- the two views

  /** The files as the medium has them. */
  ghost function OnMedium(sb: Superblock, disk: seq<Block>, medium: seq<Block>, nodes: seq<Inode>,
                          owner: map<nat, Ref>): (H: seq<seq<byte>>)
    requires Inv(sb, disk, nodes, owner) && Mirror(sb, disk, medium, owner)
    ensures |H| == |nodes| && forall j | 0 <= j < |nodes| :: |H[j]| == nodes[j].size
  {
    MediumInv(sb, disk, medium, nodes, owner);
    Files(sb, medium, nodes, owner)
  }

  lemma MirrorBack(sb: Superblock, disk: seq<Block>, medium: seq<Block>, owner: map<nat, Ref>)
    requires Mirror(sb, disk, medium, owner)
    ensures Mirror(sb, medium, disk, owner)
  {
    forall b: nat | b in owner && b < |medium| && owner[b].slot == NDIRECT
      ensures disk[b] == medium[b]
    {
    }
  }

  lemma FilesFrom(disk: seq<Block>, nodes: seq<Inode>, G: seq<seq<byte>>, j: nat)
    requires FilesAre(disk, nodes, Sizes(nodes), G) && j < |nodes| && |G[j]| == nodes[j].size && Shape(disk, nodes[j])
    ensures NoHoles(disk, nodes[j]) && File(disk, nodes[j]) == G[j]
  {
    assert FileIs(disk, nodes, Sizes(nodes), G, j);
    FileShows(disk, nodes[j], G[j]);
  }

  /** Recycling the buffer of block bn of file i: the file shows what the medium has there. */
  lemma EvictFile(sb: Superblock, disk: seq<Block>, medium: seq<Block>, nodes: seq<Inode>, owner: map<nat, Ref>,
                  i: nat, bn: nat, j: nat)
    requires Inv(sb, disk, nodes, owner) && Mirror(sb, disk, medium, owner) && i < |nodes| && Mapped(disk, nodes[i], bn)
    requires j < |nodes|
    ensures
      var disk' := Bwritten(disk, medium, Slot(disk, nodes[i], SlotOf(bn)));
      var F := Files(sb, disk, nodes, owner);
      && Inv(sb, disk', nodes, owner)
      && File(disk', nodes[j]) ==
             if j == i then Committed(F[i], OnMedium(sb, disk, medium, nodes, owner)[i], bn) else F[j]
  {
    var b := Slot(disk, nodes[i], SlotOf(bn));
    var disk' := Bwritten(disk, medium, b);
    EvictInv(sb, disk, medium, nodes, owner, b);
    MediumInv(sb, disk, medium, nodes, owner);
    MirrorBack(sb, disk, medium, owner);
    MediumSlot(sb, disk, medium, nodes, owner, i, SlotOf(bn));
    FilesStart(sb, disk, nodes, owner);
    FilesStart(sb, medium, nodes, owner);
    var F, D := Files(sb, disk, nodes, owner), Files(sb, medium, nodes, owner);
    SyncFiles(sb, medium, disk, nodes, owner, Sizes(nodes), D, F, i, bn);
    FilesFrom(disk', nodes, F[i := Committed(F[i], D[i], bn)], j);
  }

  lemma EvictFiles(sb: Superblock, disk: seq<Block>, medium: seq<Block>, nodes: seq<Inode>, owner: map<nat, Ref>,
                   i: nat, bn: nat)
    requires Inv(sb, disk, nodes, owner) && Mirror(sb, disk, medium, owner) && i < |nodes|
    requires bn < MAXFILE && Slot(disk, nodes[i], SlotOf(bn)) != 0
    ensures
      var b := Slot(disk, nodes[i], SlotOf(bn));
      b < |disk| &&
      var F, D := Files(sb, disk, nodes, owner), OnMedium(sb, disk, medium, nodes, owner);
      && Inv(sb, disk[b := medium[b]], nodes, owner) && Mirror(sb, disk[b := medium[b]], medium, owner)
      && OnMedium(sb, disk[b := medium[b]], medium, nodes, owner) == D
      && forall j | 0 <= j < |nodes| ::
           File(disk[b := medium[b]], nodes[j]) == if j == i then Committed(F[i], D[i], bn) else F[j]
  {
    var b := Slot(disk, nodes[i], SlotOf(bn));
    assert Mapped(disk, nodes[i], bn) by {
      assert Holds(disk, nodes, owner, i, SlotOf(bn)) && Backed(sb, disk, nodes, owner, b);
    }
    EvictInv(sb, disk, medium, nodes, owner, b);
    forall j | 0 <= j < |nodes|
      ensures File(disk[b := medium[b]], nodes[j])
           == if j == i
              then Committed(Files(sb, disk, nodes, owner)[i], OnMedium(sb, disk, medium, nodes, owner)[i], bn)
              else Files(sb, disk, nodes, owner)[j]
    {
      EvictFile(sb, disk, medium, nodes, owner, i, bn, j);
    }
  }
}
