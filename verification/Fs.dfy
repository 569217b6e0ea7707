/** Block allocation and inode I/O of kernel/fs.c, on the array of blocks that the buffer
    cache presents, and the medium beneath it.  Each inode is locked by its caller. */
module Fs {
  import opened Bytes
  import opened FsLayout
  import opened FsInode
  import opened FsMedium

  const U32 := 0x1_0000_0000

  /** The overflow test off + n < off of readi and writei, in 32-bit arithmetic. */
  lemma Wraps(off: nat, n: nat)
    requires off < U32 && n < U32
    ensures (off + n) % U32 < off <==> off + n >= U32
  {
  }

  /** min(n - tot, BSIZE - off % BSIZE) */
  function Chunk(off: nat, left: nat): (m: nat)
    requires 0 < left
    ensures 0 < m <= left && off % BSIZE + m <= BSIZE
    ensures m < left ==> (off + m) % BSIZE == 0
  {
    if left < BSIZE - off % BSIZE then left else BSIZE - off % BSIZE
  }

  lemma Multiple(k: nat)
    ensures k * BSIZE % BSIZE == 0 && k * BSIZE / BSIZE == k
  {
  }

  /** The block and the length of writei's next chunk; k is the block if off is its start. */
  method NextChunk(off: nat, left: nat, ghost k: nat) returns (bn: nat, m: nat)
    requires 0 < left
    ensures 0 < m <= left && Lies(off, m, bn) && (off == k * BSIZE ==> bn == k)
    ensures m < left ==> off + m == (bn + 1) * BSIZE
  {
    bn, m := off / BSIZE, Chunk(off, left);
    Multiple(k);
  }

  /** Where a write can run out of blocks: at a block boundary beyond the old end. */
  predicate Stopped(off: nat, tot: nat, size: nat) {
    off + tot >= size && (off + tot) % BSIZE == 0
  }

  /**
    * What writei makes of file F, whose blocks on the medium show D: r is returned, tot bytes are done, and
    * the file becomes G and the medium's E.  When a copy fails, the bytes copied after the last block that was
    * written are in G and not in E.
    */
  ghost predicate Outcome(F: seq<byte>, D: seq<byte>, off: nat, src: seq<byte>, fault: nat, r: int, tot: nat,
                          G: seq<byte>, E: seq<byte>)
    requires off <= |F| == |D|
  {
    && tot <= |src| && tot <= fault && (|src| <= fault ==> r != -1)
    && (r != -1 ==> r == tot && G == Overwrite(F, off, src[..tot]))
    && (r == -1 ==> tot == Settled(off, fault) && fault < |src|
                    && G == Overwrite(F, off, src[..fault])[..if off + tot > |F| then off + tot else |F|])
    && |D| <= |G| && E == Synced(D, G, off, tot)
  }

  lemma OutcomeHere(F: seq<byte>, D: seq<byte>, off: nat, src: seq<byte>, fault: nat, r: int, tot: nat)
    requires off <= |F| == |D| && tot <= |src| && tot <= fault && (|src| <= fault ==> r != -1) && (r != -1 ==> r == tot)
    requires r == -1 ==> tot == Settled(off, fault) && fault < |src|
    ensures
      var z := if off + tot > |F| then off + tot else |F|;
      var G := Overwrite(F, off, src[..if r == -1 then fault else tot]);
      && z <= |G|
      && Outcome(F, D, off, src, fault, r, tot, G[..z], Synced(D, Overwrite(F, off, src[..tot]), off, tot)[..z])
  {
    var G := Overwrite(F, off, src[..tot]);
    var z := if off + tot > |F| then off + tot else |F|;
    assert G[..z] == G && Synced(D, G, off, tot)[..z] == Synced(D, G, off, tot);
    if r == -1 { SyncedFault(D, F, off, src, fault, tot); }
  }

  /** The cached files with n bytes of src copied into file i. */
  ghost function Copied(G: seq<seq<byte>>, i: nat, off: nat, src: seq<byte>, n: nat): seq<seq<byte>>
    requires i < |G| && off <= |G[i]| && n <= |src|
  {
    G[i := Overwrite(G[i], off, src[..n])]
  }

  /** The files on the medium with the blocks of n bytes of src written to file i. */
  ghost function Saved(H: seq<seq<byte>>, G: seq<seq<byte>>, i: nat, off: nat, src: seq<byte>, n: nat): seq<seq<byte>>
    requires i < |G| == |H| && off <= |G[i]| == |H[i]| && n <= |src|
  {
    H[i := Synced(H[i], Overwrite(G[i], off, src[..n]), off, n)]
  }

  lemma SavedMore(H: seq<seq<byte>>, G: seq<seq<byte>>, i: nat, off: nat, src: seq<byte>, tot: nat, m: nat, bn: nat)
    requires i < |G| == |H| && off <= |G[i]| == |H[i]| && 0 < m && tot + m <= |src|
    requires Lies(off + tot, m, bn) && (tot == 0 || off + tot == bn * BSIZE)
    ensures
      var H1, G1 := Saved(H, G, i, off, src, tot), Copied(G, i, off, src, tot + m);
      Overhang(H1[i], G1[i], bn) && H1[i := Committed(H1[i], G1[i], bn)] == Saved(H, G, i, off, src, tot + m)
  {
    SyncedMore(H[i], G[i], off, src, tot, m, bn);
  }

  /** No inode but i changed. */
  ghost predicate OthersKept(nodes: seq<Inode>, nodes': seq<Inode>, i: nat) {
    |nodes'| == |nodes| && forall j | 0 <= j < |nodes| && j != i :: nodes'[j] == nodes[j]
  }

  class FileSystem {
    const sb: Superblock
    var disk: seq<Block>               // what bread gives
    var medium: seq<Block>             // what has been written
    var nodes: seq<Inode>              // inodes in memory
    var inodes: seq<Block>             // the inode blocks
    ghost var owner: map<nat, Ref>     // which reference each allocated data block belongs to

    /** What holds at every point: blocks and references agree, and all but data is written. */
    ghost predicate Core()
      reads this
    {
      Inv(sb, disk, nodes, owner) && Mirror(sb, disk, medium, owner) && |nodes| <= IPB * |inodes|
    }

    /** The inodes as the inode blocks have them. */
    ghost function Dinodes(): (d: seq<Inode>)
      requires |nodes| <= IPB * |inodes|
      reads this
      ensures |d| == |nodes|
    {
      Decoded(inodes, |nodes|)
    }

    /** What holds between calls: the inode blocks have the inodes that are in memory. */
    ghost predicate Valid()
      reads this
    {
      Core() && Dinodes() == nodes
    }

    /** A disk image as mkfs leaves it. */
    constructor Image(sb: Superblock, disk: seq<Block>, nodes: seq<Inode>, inodes: seq<Block>,
                      ghost owner: map<nat, Ref>)
      requires Inv(sb, disk, nodes, owner) && |nodes| <= IPB * |inodes| && Decoded(inodes, |nodes|) == nodes
      ensures Valid() && this.disk == this.medium == disk && this.nodes == nodes
    {
      this.sb, this.disk, this.medium, this.nodes, this.inodes, this.owner := sb, disk, disk, nodes, inodes, owner;
    }

    /** The files as the medium has them, its own inodes included. */
    ghost function Stored(): (H: seq<seq<byte>>)
      requires Valid()
      reads this
      ensures |H| == |nodes| && forall j | 0 <= j < |nodes| :: |H[j]| == nodes[j].size
    {
      OnMedium(sb, disk, medium, Dinodes(), owner)
    }

    ghost predicate Full()
      requires SuperblockOk(sb) && |disk| == sb.size
      reads this
    {
      forall b: nat | b < sb.size :: Used(disk, sb, b)
    }

    /** bwrite: the medium gets the block as the cache has it. */
    method Bwrite(b: nat)
      requires b < |disk| == |medium|
      modifies this`medium
      ensures medium == Bwritten(old(medium), disk, b)
    {
      medium := medium[b := disk[b]];
    }

    /** Block r is marked in the bitmap and zeroed, and both are written. */
    method Mark(r: nat)
      requires SuperblockOk(sb) && |disk| == |medium| == sb.size && r < sb.size
      modifies this`disk, this`medium
      ensures disk == Claim(sb, old(disk), r) && medium == MediumClaim(sb, old(disk), old(medium), r)
    {
      var m := sb.bmapstart + r / BPB;
      disk := disk[m := PutBit(disk[m], r % BPB, true)];
      Bwrite(m);
      disk := disk[r := Zeros(BSIZE)];
      Bwrite(r);
    }

    /** balloc's scan of the bitmap: the least free block. */
    method FindFree() returns (r: nat)
      requires SuperblockOk(sb) && |disk| == sb.size && sb.size > 0 && Used(disk, sb, 0)
      ensures r == 0 ==> Full()
      ensures r != 0 ==> r < sb.size && !Used(disk, sb, r) && forall b: nat | b < r :: Used(disk, sb, b)
    {
      var b := 0;
      ghost var q := 0;
      while b < sb.size
        invariant b == q * BPB
        invariant forall x: nat | x < b && x < sb.size :: Used(disk, sb, x)
      {
        var bp: Block := disk[sb.bmapstart + b / BPB];
        var bi := 0;
        while bi < BPB && b + bi < sb.size
          invariant 0 <= bi <= BPB
          invariant forall x: nat | x < b + bi && x < sb.size :: Used(disk, sb, x)
        {
          assert (b + bi) / BPB == q && (b + bi) % BPB == bi;
          if !BitIn(bp, bi) { return b + bi; }
          bi := bi + 1;
        }
        b, q := b + BPB, q + 1;
      }
      return 0;
    }

    /** balloc: the least free block, marked and zeroed, or 0 only when none is free. */
    method Balloc() returns (r: nat)
      requires Core()
      modifies this`disk, this`medium
      ensures r == 0 ==> unchanged(this) && Full()
      ensures r != 0 ==> r < sb.size && !Used(old(disk), sb, r) && forall b: nat | b < r :: Used(old(disk), sb, b)
      ensures r != 0 ==> disk == Claim(sb, old(disk), r) && Mirror(sb, disk, medium, owner) && medium[r] == disk[r]
      ensures Calm(owner, old(medium), medium)
    {
      r := FindFree();
      if r != 0 {
        MirrorClaim(sb, disk, medium, nodes, owner, r);
        Mark(r);
      }
    }

    /** bfree: the block must be in use, or the kernel panics. */
    method Bfree(b: nat)
      requires SuperblockOk(sb) && |disk| == |medium| == sb.size && b < sb.size && Used(disk, sb, b)
      modifies this`disk, this`medium
      ensures disk == Unclaim(sb, old(disk), b) && medium == Bwritten(old(medium), disk, sb.bmapstart + b / BPB)
    {
      var m := sb.bmapstart + b / BPB;
      disk := disk[m := PutBit(disk[m], b % BPB, false)];
      Bwrite(m);
    }

    /** Block addr becomes entry k of inode i. */
    method PutAddr(i: nat, k: nat, addr: nat)
      requires i < |nodes| <= IPB * |inodes| && k <= NDIRECT < |nodes[i].addrs|
      requires Inv(sb, disk, nodes[i := nodes[i].(addrs := nodes[i].addrs[k := addr])], owner[addr := Ref(i, k)])
      requires Mirror(sb, disk, medium, owner[addr := Ref(i, k)])
      modifies this`nodes, this`owner
      ensures Core() && owner == old(owner)[addr := Ref(i, k)]
      ensures nodes == old(nodes)[i := old(nodes)[i].(addrs := old(nodes)[i].addrs[k := addr])]
    {
      nodes := nodes[i := nodes[i].(addrs := nodes[i].addrs[k := addr])];
      owner := owner[addr := Ref(i, k)];
    }

    /** The two places where bmap fills an empty addrs entry. */
    method AllocDirect(i: nat, k: nat) returns (addr: nat)
      requires Core() && i < |nodes| && k <= NDIRECT && Slot(disk, nodes[i], k) == 0
      modifies this`disk, this`medium, this`nodes, this`owner
      ensures Core() && Grew(old(disk), old(nodes), old(owner), disk, nodes, owner, i, k)
      ensures Calm(old(owner), old(medium), medium)
      ensures addr == Slot(disk, nodes[i], k) && (addr == 0 ==> Full() && unchanged(this))
      ensures OthersKept(old(nodes), nodes, i)
    {
      addr := Balloc();
      if addr == 0 { return; }
      MirrorMore(sb, disk, medium, owner, addr, Ref(i, k));
      DirectStep(sb, old(disk), nodes, owner, i, k, addr);
      PutAddr(i, k, addr);
    }

    /** An indirect block changed and written, with block addr in it now. */
    method PutEntry(ind: nat, data: Block, ghost addr: nat, ghost ref: Ref)
      requires ind < |disk| == |medium| && |nodes| <= IPB * |inodes|
      requires Inv(sb, disk[ind := data], nodes, owner[addr := ref])
      requires Mirror(sb, disk[ind := data], medium[ind := data], owner[addr := ref])
      modifies this`disk, this`medium, this`owner
      ensures Core() && owner == old(owner)[addr := ref]
      ensures disk == old(disk)[ind := data] && medium == old(medium)[ind := data]
    {
      disk := disk[ind := data];
      Bwrite(ind);
      owner := owner[addr := ref];
    }

    /** The place where bmap fills an empty entry of the indirect block. */
    method AllocEntry(i: nat, e: nat) returns (addr: nat)
      requires Core() && i < |nodes| && e < NINDIRECT && Slot(disk, nodes[i], NDIRECT) != 0
      requires Slot(disk, nodes[i], NDIRECT + 1 + e) == 0
      modifies this`disk, this`medium, this`owner
      ensures Core() && Grew(old(disk), nodes, old(owner), disk, nodes, owner, i, NDIRECT + 1 + e)
      ensures Calm(old(owner), old(medium), medium)
      ensures addr == Slot(disk, nodes[i], NDIRECT + 1 + e) && (addr == 0 ==> Full() && unchanged(this))
    {
      var ind := nodes[i].addrs[NDIRECT];
      var bp := disk[ind];
      addr := Balloc();
      if addr == 0 { return; }
      var data: Block := PutLe(bp, 4 * e, 4, addr);
      ghost var ref := Ref(i, NDIRECT + 1 + e);
      EntryStep(sb, old(disk), nodes, owner, i, e, addr, data);
      MirrorEntry(sb, old(disk), disk, old(medium), medium, nodes, owner, i, addr, ref, data);
      PutEntry(ind, data, addr, ref);
    }

    /** Entry e of an indirect block that there is. */
    method BmapEntry(i: nat, e: nat) returns (addr: nat)
      requires Core() && i < |nodes| && e < NINDIRECT && Slot(disk, nodes[i], NDIRECT) != 0
      modifies this`disk, this`medium, this`owner
      ensures Core() && Grew(old(disk), nodes, old(owner), disk, nodes, owner, i, NDIRECT + 1 + e)
      ensures Calm(old(owner), old(medium), medium)
      ensures addr == Slot(disk, nodes[i], NDIRECT + 1 + e) && (addr == 0 ==> Full())
      ensures Slot(old(disk), nodes[i], NDIRECT + 1 + e) != 0 ==> unchanged(this)
    {
      addr := GetLe(disk[nodes[i].addrs[NDIRECT]], 4 * e, 4);
      if addr == 0 { addr := AllocEntry(i, e); }
    }

    /** bmap beyond the direct blocks: entry e of the indirect block, itself made on demand. */
    method BmapIndirect(i: nat, e: nat) returns (addr: nat)
      requires Core() && i < |nodes| && e < NINDIRECT
      modifies this`disk, this`medium, this`nodes, this`owner
      ensures Core() && Grew(old(disk), old(nodes), old(owner), disk, nodes, owner, i, NDIRECT + 1 + e)
      ensures Calm(old(owner), old(medium), medium)
      ensures addr == Slot(disk, nodes[i], NDIRECT + 1 + e) && (addr == 0 ==> Full())
      ensures OthersKept(old(nodes), nodes, i)
      ensures Slot(old(disk), old(nodes)[i], NDIRECT + 1 + e) != 0 ==> unchanged(this)
    {
      if nodes[i].addrs[NDIRECT] != 0 {
        addr := BmapEntry(i, e);
        return;
      }
      addr := AllocDirect(i, NDIRECT);
      if addr == 0 { return; }
      ghost var disk1, nodes1, owner1, medium1 := disk, nodes, owner, medium;
      addr := BmapEntry(i, e);
      CalmTrans(old(owner), owner1, old(medium), medium1, medium);
      GrewTrans(old(disk), old(nodes), old(owner), disk1, nodes1, owner1, disk, nodes, owner, i, NDIRECT + 1 + e);
    }

    /** bmap: the disk block of the file's bn-th block, allocated on demand; 0 when the
        disk is full. */
    method Bmap(i: nat, bn: nat) returns (addr: nat)
      requires Core() && i < |nodes| && bn < MAXFILE
      modifies this`disk, this`medium, this`nodes, this`owner
      ensures Core() && Grew(old(disk), old(nodes), old(owner), disk, nodes, owner, i, SlotOf(bn))
      ensures Calm(old(owner), old(medium), medium)
      ensures addr == Slot(disk, nodes[i], SlotOf(bn)) && (addr == 0 ==> Full()) && OthersKept(old(nodes), nodes, i)
      ensures Slot(old(disk), old(nodes)[i], SlotOf(bn)) != 0 ==> unchanged(this)
    {
      if bn < NDIRECT {
        addr := nodes[i].addrs[bn];
        if addr == 0 { addr := AllocDirect(i, bn); }
      } else {
        addr := BmapIndirect(i, bn - NDIRECT);
      }
    }

    /** iupdate: the inode's record in its block gets size and addresses; whoever loads an inode
        from the blocks now finds this one as it is in memory, and every other as before. */
    method Iupdate(i: nat)
      requires i < |nodes| <= IPB * |inodes| && Fits(nodes[i])
      modifies this`inodes
      ensures |inodes| == |old(inodes)|
      ensures forall j: nat | j / IPB < |inodes| ::
        DinodeAt(inodes, j) == if j == i then nodes[i] else DinodeAt(old(inodes), j)
    {
      var bp := Encode(inodes[i / IPB], Offset(i), nodes[i]);
      forall j: nat | j / IPB < |inodes|
        ensures DinodeAt(inodes[i / IPB := bp], j) == if j == i then nodes[i] else DinodeAt(inodes, j)
      {
        TableStores(inodes, bp, i, nodes[i], j);
      }
      inodes := inodes[i / IPB := bp];
    }

    /** iupdate at the end of a call that changed inode i alone. */
    method Flush(i: nat)
      requires Core() && i < |nodes| && forall j | 0 <= j < |nodes| && j != i :: Dinodes()[j] == nodes[j]
      modifies this`inodes
      ensures Valid()
    {
      NodesFit(sb, disk, nodes, owner, i);
      Iupdate(i);
      assert Dinodes() == nodes;
    }

    /** bfree of an owned block. */
    method Drop(b: nat)
      requires SuperblockOk(sb) && |disk| == |medium| == sb.size && b < sb.size && Used(disk, sb, b)
      modifies this`disk, this`medium, this`owner
      ensures disk == Unclaim(sb, old(disk), b) && owner == old(owner) - {b}
      ensures medium == MediumUnclaim(sb, old(disk), old(medium), b)
    {
      Bfree(b);
      owner := owner - {b};
    }

    /** Frees the block an address slot of the inode names and clears the slot. */
    method FreeAddr(i: nat, k: nat, ghost dead: nat)
      requires TruncInv(sb, disk, nodes, owner, i, dead) && Mirror(sb, disk, medium, owner) && k <= NDIRECT
      requires nodes[i].addrs[k] != 0
      requires dead == if k < NDIRECT then 0 else NINDIRECT
      modifies this`disk, this`medium, this`nodes, this`owner
      ensures TruncInv(sb, disk, nodes, owner, i, 0) && Shed(sb, old(disk), old(owner), disk, owner, i)
      ensures Mirror(sb, disk, medium, owner) && Quiet(sb, old(medium), medium)
      ensures nodes == old(nodes)[i := old(nodes)[i].(addrs := old(nodes)[i].addrs[k := 0])]
    {
      var b := nodes[i].addrs[k];
      FreeDirect(sb, disk, nodes, owner, i, dead, k);
      DropOwned(sb, disk, medium, owner, i, b);
      Drop(b);
      nodes := nodes[i := nodes[i].(addrs := nodes[i].addrs[k := 0])];
    }

    /** Frees the block that entry j of the indirect block names, if it names one. */
    method FreeIndirect(i: nat, j: nat, b: nat)
      requires TruncInv(sb, disk, nodes, owner, i, j) && Mirror(sb, disk, medium, owner) && j < NINDIRECT
      requires b == Slot(disk, nodes[i], NDIRECT + 1 + j)
      modifies this`disk, this`medium, this`owner
      ensures TruncInv(sb, disk, nodes, owner, i, j + 1) && Shed(sb, old(disk), old(owner), disk, owner, i)
      ensures Mirror(sb, disk, medium, owner) && Quiet(sb, old(medium), medium)
    {
      FreeEntry(sb, disk, nodes, owner, i, j);
      if b != 0 {
        DropOwned(sb, disk, medium, owner, i, b);
        Drop(b);
      }
    }

    /** The direct half of itrunc. */
    method TruncDirect(i: nat)
      requires Core() && i < |nodes|
      modifies this`disk, this`medium, this`nodes, this`owner
      ensures TruncInv(sb, disk, nodes, owner, i, 0) && Shed(sb, old(disk), old(owner), disk, owner, i)
      ensures Mirror(sb, disk, medium, owner) && Quiet(sb, old(medium), medium)
      ensures |nodes| == |old(nodes)| && forall j | 0 <= j < |nodes| && j != i :: nodes[j] == old(nodes)[j]
      ensures |nodes[i].addrs| == NDIRECT + 1 && forall k | 0 <= k < NDIRECT :: nodes[i].addrs[k] == 0
    {
      TruncStart(sb, disk, nodes, owner, i);
      var k := 0;
      while k < NDIRECT
        invariant 0 <= k <= NDIRECT && TruncInv(sb, disk, nodes, owner, i, 0)
        invariant Shed(sb, old(disk), old(owner), disk, owner, i)
        invariant Mirror(sb, disk, medium, owner) && Quiet(sb, old(medium), medium)
        invariant |nodes| == |old(nodes)| && forall j | 0 <= j < |nodes| && j != i :: nodes[j] == old(nodes)[j]
        invariant forall l | 0 <= l < k :: nodes[i].addrs[l] == 0
      {
        if nodes[i].addrs[k] != 0 {
          ghost var disk1, owner1 := disk, owner;
          FreeAddr(i, k, 0);
          ShedTrans(sb, old(disk), old(owner), disk1, owner1, disk, owner, i);
        }
        k := k + 1;
      }
    }

    /** The indirect half of itrunc: first the entries ... */
    method TruncEntries(i: nat)
      requires TruncInv(sb, disk, nodes, owner, i, 0) && Mirror(sb, disk, medium, owner)
      requires sb.datastart <= nodes[i].addrs[NDIRECT] && 0 < sb.datastart
      modifies this`disk, this`medium, this`owner
      ensures TruncInv(sb, disk, nodes, owner, i, NINDIRECT) && Shed(sb, old(disk), old(owner), disk, owner, i)
      ensures Mirror(sb, disk, medium, owner) && Quiet(sb, old(medium), medium)
    {
      var a := disk[nodes[i].addrs[NDIRECT]];
      var j := 0;
      while j < NINDIRECT
        invariant 0 <= j <= NINDIRECT && TruncInv(sb, disk, nodes, owner, i, j)
        invariant Shed(sb, old(disk), old(owner), disk, owner, i)
        invariant Mirror(sb, disk, medium, owner) && Quiet(sb, old(medium), medium)
      {
        ghost var disk1, owner1 := disk, owner;
        FreeIndirect(i, j, GetLe(a, 4 * j, 4));
        ShedTrans(sb, old(disk), old(owner), disk1, owner1, disk, owner, i);
        j := j + 1;
      }
    }

    /** ... then the indirect block itself. */
    method TruncIndirect(i: nat)
      requires TruncInv(sb, disk, nodes, owner, i, 0) && Mirror(sb, disk, medium, owner) && nodes[i].addrs[NDIRECT] != 0
      modifies this`disk, this`medium, this`nodes, this`owner
      ensures TruncInv(sb, disk, nodes, owner, i, 0) && Shed(sb, old(disk), old(owner), disk, owner, i)
      ensures Mirror(sb, disk, medium, owner) && Quiet(sb, old(medium), medium)
      ensures nodes == old(nodes)[i := old(nodes)[i].(addrs := old(nodes)[i].addrs[NDIRECT := 0])]
    {
      assert sb.datastart <= nodes[i].addrs[NDIRECT] by {
        assert Holds(disk, nodes, owner, i, NDIRECT) && Slot(disk, nodes[i], NDIRECT) == nodes[i].addrs[NDIRECT];
        assert Backed(sb, disk, nodes, owner, nodes[i].addrs[NDIRECT]);
      }
      TruncEntries(i);
      ghost var disk1, owner1 := disk, owner;
      FreeAddr(i, NDIRECT, NINDIRECT);
      ShedTrans(sb, old(disk), old(owner), disk1, owner1, disk, owner, i);
    }

    /** itrunc, up to writing the inode. */
    method TruncBlocks(i: nat)
      requires Core() && i < |nodes|
      modifies this`disk, this`medium, this`nodes, this`owner
      ensures Core() && nodes == old(nodes)[i := EmptyInode()] && Shed(sb, old(disk), old(owner), disk, owner, i)
      ensures Quiet(sb, old(medium), medium) && forall b: nat | b in owner :: owner[b].ino != i
    {
      TruncDirect(i);
      ghost var disk1, owner1 := disk, owner;
      if nodes[i].addrs[NDIRECT] != 0 {
        TruncIndirect(i);
        ShedTrans(sb, old(disk), old(owner), disk1, owner1, disk, owner, i);
      }
      TruncDone(sb, disk, nodes, owner, i);
      nodes := nodes[i := nodes[i].(size := 0)];
    }

    /** itrunc: the inode becomes empty and exactly its blocks become free. */
    method Itrunc(i: nat)
      requires Valid() && i < |nodes|
      modifies this
      ensures Valid() && nodes == old(nodes)[i := EmptyInode()]
      ensures forall b: nat | b < sb.size ::
        Used(disk, sb, b) <==> Used(old(disk), sb, b) && !(b in old(owner) && old(owner)[b].ino == i)
      ensures forall j: nat | j < |nodes| && j != i ::
        File(disk, nodes[j]) == old(File(disk, nodes[j])) && Stored()[j] == old(Stored())[j]
    {
      TruncBlocks(i);
      Flush(i);
      ShedUsed(sb, old(disk), old(nodes), old(owner), disk, nodes, owner, i);
      forall j: nat | j < |nodes| && j != i
        ensures File(disk, nodes[j]) == old(File(disk, nodes[j])) && Stored()[j] == old(Stored())[j]
      {
        ShedFile(sb, old(disk), old(nodes), old(owner), disk, nodes, owner, i, j);
        QuietFile(sb, old(disk), old(medium), old(nodes), old(owner), disk, medium, nodes, owner, i, j);
      }
    }

    /** One block of readi: c bytes at offset off of the file. */
    method ReadBlock(i: nat, off: nat, c: nat, ghost F: seq<byte>) returns (addr: nat, d: seq<byte>)
      requires Core() && i < |nodes| && Shows(disk, nodes[i], F)
      requires off + c <= |F| && off % BSIZE + c <= BSIZE && off < |F|
      modifies this`disk, this`medium, this`nodes, this`owner
      ensures unchanged(this) && addr != 0 && d == F[off..off + c]
    {
      assert ShowsAt(disk, nodes[i], F, off);
      addr := Bmap(i, off / BSIZE);
      ReadChunk(disk, nodes[i], F, off, c);
      d := if addr == 0 then [] else disk[addr][off % BSIZE..off % BSIZE + c];
    }

    /** readi's loop: len bytes from off on, all below the file's size. */
    method ReadLoop(i: nat, off: nat, len: nat, room: nat, ghost F: seq<byte>) returns (r: int, data: seq<byte>)
      requires Core() && i < |nodes| && Shows(disk, nodes[i], F) && off + len <= |F|
      modifies this`disk, this`medium, this`nodes, this`owner
      ensures unchanged(this)
      ensures r == if len <= room then len else -1
      ensures data == F[off..off + if len <= room then len else room]
    {
      data := [];
      var tot, o := 0, off;
      while tot < len
        invariant 0 <= tot <= len && o == off + tot && tot <= room
        invariant unchanged(this) && data == F[off..o]
      {
        var m := Chunk(o, len - tot);
        var c := if tot + m > room then room - tot else m;
        var addr, d := ReadBlock(i, o, c, F);
        if addr == 0 { break; }
        data := data + d;
        SliceJoin(F, off, o, o + c);
        if tot + m > room { return -1, data; }
        tot, o := tot + m, o + m;
      }
      return tot, data;
    }

    /** readi: the bytes from off on, up to n and the file's size; room says how many of
        them the destination can take before a copy faults. */
    method Readi(i: nat, off: nat, n: nat, room: nat) returns (r: int, data: seq<byte>)
      requires Valid() && i < |nodes| && off < U32 && n < U32
      modifies this`disk, this`medium, this`nodes, this`owner
      ensures Valid() && unchanged(this)
      ensures
        var F := File(disk, nodes[i]);
        if off > |F| || off + n >= U32 then r == 0 && data == []
        else
          var m := if off + n > |F| then |F| - off else n;
          if m <= room then r == m && data == F[off..off + m]
          else r == -1 && data == F[off..off + room]
    {
      var size := nodes[i].size;
      Wraps(off, n);
      if off > size || (off + n) % U32 < off { return 0, []; }
      ghost var F := File(disk, nodes[i]);
      ShowsFile(disk, nodes[i]);
      r, data := ReadLoop(i, off, if off + n > size then size - off else n, room, F);
    }

    /** One block of writei, up to bwrite: bytes c at offset off, put in the file's own block bn. */
    method WriteBlock(i: nat, off: nat, bn: nat, c: seq<byte>, ghost sizes: seq<nat>, ghost G: seq<seq<byte>>,
                      ghost H: seq<seq<byte>>)
        returns (addr: nat)
      requires Core() && i < |nodes| && FilesAre(disk, nodes, sizes, G) && FilesAre(medium, nodes, sizes, H)
      requires off <= |G[i]| && Lies(off, |c|, bn) && bn < MAXFILE
      modifies this`disk, this`medium, this`nodes, this`owner
      ensures Core() && OthersKept(old(nodes), nodes, i) && FilesAre(medium, nodes, sizes, H)
      ensures addr == 0 ==> Full() && off == |G[i]| == bn * BSIZE && FilesAre(disk, nodes, sizes, G)
      ensures addr != 0 ==> FilesAre(disk, nodes, sizes, G[i := Overwrite(G[i], off, c)])
      ensures addr != 0 ==> Mapped(disk, nodes[i], bn) && addr == Slot(disk, nodes[i], SlotOf(bn))
    {
      EdgeMapped(disk, nodes, sizes, G, i, off, |c|, bn);
      addr := Bmap(i, bn);
      FilesExtend(sb, old(disk), old(nodes), old(owner), disk, nodes, owner, sizes, G);
      MediumFiles(sb, old(disk), old(nodes), old(owner), old(medium), disk, nodes, owner, medium, sizes, H);
      if addr != 0 { PatchBlock(i, off, bn, c, addr, sizes, G); }
    }

    /** The copy into the buffer. */
    method PatchBlock(i: nat, off: nat, bn: nat, c: seq<byte>, addr: nat, ghost sizes: seq<nat>,
                      ghost G: seq<seq<byte>>)
      requires Core() && i < |nodes| && FilesAre(disk, nodes, sizes, G) && bn < MAXFILE
      requires off <= |G[i]| && Lies(off, |c|, bn) && addr == Slot(disk, nodes[i], SlotOf(bn)) && addr != 0
      modifies this`disk
      ensures Core() && FilesAre(disk, nodes, sizes, G[i := Overwrite(G[i], off, c)])
      ensures Mapped(disk, nodes[i], bn) && addr == Slot(disk, nodes[i], SlotOf(bn))
    {
      PatchSound(sb, disk, medium, nodes, owner, sizes, G, i, off, bn, c);
      disk := disk[addr := Patch(disk[addr], off % BSIZE, c)];
    }

    /** bwrite of the block just changed. */
    method SyncBlock(i: nat, bn: nat, addr: nat, ghost sizes: seq<nat>, ghost G: seq<seq<byte>>,
                     ghost H: seq<seq<byte>>)
      requires Core() && i < |nodes| && FilesAre(disk, nodes, sizes, G) && FilesAre(medium, nodes, sizes, H)
      requires Mapped(disk, nodes[i], bn) && addr == Slot(disk, nodes[i], SlotOf(bn)) && Overhang(H[i], G[i], bn)
      modifies this`medium
      ensures Core() && FilesAre(medium, nodes, sizes, H[i := Committed(H[i], G[i], bn)])
    {
      SyncFiles(sb, disk, medium, nodes, owner, sizes, G, H, i, bn);
      Bwrite(addr);
    }

    /** The next c bytes of src copied into their block. */
    method CopyChunk(i: nat, off: nat, src: seq<byte>, tot: nat, bn: nat, c: nat,
                     ghost sizes: seq<nat>, ghost G: seq<seq<byte>>, ghost H: seq<seq<byte>>)
        returns (addr: nat)
      requires Core() && i < |nodes| == |G| && off <= |G[i]| && tot + c <= |src| && Lies(off + tot, c, bn)
      requires bn < MAXFILE
      requires FilesAre(disk, nodes, sizes, Copied(G, i, off, src, tot)) && FilesAre(medium, nodes, sizes, H)
      modifies this`disk, this`medium, this`nodes, this`owner
      ensures Core() && OthersKept(old(nodes), nodes, i) && FilesAre(medium, nodes, sizes, H)
      ensures addr == 0 ==> Full() && off + tot >= |G[i]| && off + tot == bn * BSIZE
      ensures addr == 0 ==> FilesAre(disk, nodes, sizes, Copied(G, i, off, src, tot))
      ensures addr != 0 ==> FilesAre(disk, nodes, sizes, Copied(G, i, off, src, tot + c))
      ensures addr != 0 ==> Mapped(disk, nodes[i], bn) && addr == Slot(disk, nodes[i], SlotOf(bn))
    {
      WriteMore(G, i, off, src, tot, c);
      addr := WriteBlock(i, off + tot, bn, src[tot..tot + c], sizes, Copied(G, i, off, src, tot), H);
    }

    /** One turn of writei's loop, with tot bytes done: a chunk of m bytes in block bn, of which
        those from fault on cannot be read.  A chunk that reaches that far is copied up to
        there and fails, and its block is not written. */
    method WriteChunk(i: nat, off: nat, src: seq<byte>, fault: nat, tot: nat, bn: nat, m: nat,
                      ghost sizes: seq<nat>, ghost G: seq<seq<byte>>, ghost H: seq<seq<byte>>)
        returns (addr: nat)
      requires Core() && i < |nodes| && |G| == |H| == |nodes|
      requires off <= |G[i]| == |H[i]| && tot <= fault && 0 < m && tot + m <= |src|
      requires Lies(off + tot, m, bn) && (tot == 0 || off + tot == bn * BSIZE) && bn < MAXFILE
      requires FilesAre(disk, nodes, sizes, Copied(G, i, off, src, tot))
      requires FilesAre(medium, nodes, sizes, Saved(H, G, i, off, src, tot))
      modifies this`disk, this`medium, this`nodes, this`owner
      ensures Core() && OthersKept(old(nodes), nodes, i)
      ensures addr == 0 ==> Full() && off + tot >= |G[i]| && off + tot == bn * BSIZE
      ensures addr == 0 ==> FilesAre(disk, nodes, sizes, Copied(G, i, off, src, tot))
      ensures addr != 0 && tot + m > fault ==> FilesAre(disk, nodes, sizes, Copied(G, i, off, src, fault))
      ensures addr != 0 && tot + m <= fault ==> FilesAre(disk, nodes, sizes, Copied(G, i, off, src, tot + m))
      ensures addr == 0 || tot + m > fault ==> FilesAre(medium, nodes, sizes, Saved(H, G, i, off, src, tot))
      ensures addr != 0 && tot + m <= fault ==> FilesAre(medium, nodes, sizes, Saved(H, G, i, off, src, tot + m))
    {
      if tot + m > fault {
        addr := CopyChunk(i, off, src, tot, bn, fault - tot, sizes, G, Saved(H, G, i, off, src, tot));
        return;
      }
      addr := CopyChunk(i, off, src, tot, bn, m, sizes, G, Saved(H, G, i, off, src, tot));
      if addr != 0 {
        SavedMore(H, G, i, off, src, tot, m, bn);
        SyncBlock(i, bn, addr, sizes, Copied(G, i, off, src, tot + m), Saved(H, G, i, off, src, tot));
      }
    }

    /** writei has tot bytes of src in file i; o is at the start of block k unless it has just begun or is through. */
    ghost predicate Writing(i: nat, off: nat, src: seq<byte>, fault: nat, tot: nat, k: nat,
                            sizes: seq<nat>, G: seq<seq<byte>>, H: seq<seq<byte>>)
      reads this
    {
      && Core() && i < |nodes| && |G| == |H| == |nodes| && off <= |G[i]| == |H[i]| && off + |src| <= MAXFILE * BSIZE
      && tot <= |src| && tot <= fault && (tot == 0 || tot == |src| || off + tot == k * BSIZE)
      && FilesAre(disk, nodes, sizes, Copied(G, i, off, src, tot))
      && FilesAre(medium, nodes, sizes, Saved(H, G, i, off, src, tot))
    }

    /** One turn of writei's loop: the next tot, unless the medium is full or the copy fails. */
    method WriteTurn(i: nat, off: nat, src: seq<byte>, fault: nat, tot: nat, ghost k: nat,
                     ghost sizes: seq<nat>, ghost G: seq<seq<byte>>, ghost H: seq<seq<byte>>)
        returns (full: bool, failed: bool, tot': nat, ghost k': nat)
      requires Writing(i, off, src, fault, tot, k, sizes, G, H) && tot < |src|
      modifies this`disk, this`medium, this`nodes, this`owner
      ensures OthersKept(old(nodes), nodes, i)
      ensures !failed ==> Writing(i, off, src, fault, tot', k', sizes, G, H)
      ensures full ==> !failed && tot' == tot && Full() && Stopped(off, tot, |G[i]|)
      ensures !full && !failed ==> tot < tot'
      ensures failed ==>
        && Core() && tot' == tot == Settled(off, fault) && fault < |src|
        && FilesAre(disk, nodes, sizes, Copied(G, i, off, src, fault))
        && FilesAre(medium, nodes, sizes, Saved(H, G, i, off, src, tot))
    {
      var bn, m := NextChunk(off + tot, |src| - tot, k);
      var addr := WriteChunk(i, off, src, fault, tot, bn, m, sizes, G, H);
      full, failed, tot', k' := addr == 0, addr != 0 && tot + m > fault, tot, k;
      if full {
        Multiple(bn);
      } else if failed {
        SettledAt(off, fault, tot, m, bn);
      } else {
        tot', k' := tot + m, bn + 1;
      }
    }

    /** writei's loop; tot bytes are done when it ends. */
    method WriteLoop(i: nat, off: nat, src: seq<byte>, fault: nat, ghost sizes: seq<nat>, ghost G: seq<seq<byte>>,
                     ghost H: seq<seq<byte>>)
        returns (r: int, tot: nat)
      requires Core() && i < |nodes| && FilesAre(disk, nodes, sizes, G) && FilesAre(medium, nodes, sizes, H)
      requires off <= |G[i]| == |H[i]| && off + |src| <= MAXFILE * BSIZE
      modifies this`disk, this`medium, this`nodes, this`owner
      ensures Core() && OthersKept(old(nodes), nodes, i) && tot <= |src| && tot <= fault
      ensures r == -1 ==>
        tot == Settled(off, fault) && fault < |src| && FilesAre(disk, nodes, sizes, Copied(G, i, off, src, fault))
      ensures r != -1 ==> r == tot && FilesAre(disk, nodes, sizes, Copied(G, i, off, src, tot))
      ensures r != -1 && tot < |src| ==> Full() && Stopped(off, tot, |G[i]|)
      ensures FilesAre(medium, nodes, sizes, Saved(H, G, i, off, src, tot))
      ensures |src| <= fault ==> r != -1
    {
      tot := 0;
      ghost var k: nat := 0;
      WriteNone(G, i, off, src);
      SyncedStart(G, H, i, off, src);
      while tot < |src|
        invariant Writing(i, off, src, fault, tot, k, sizes, G, H) && OthersKept(old(nodes), nodes, i)
      {
        var full, failed;
        full, failed, tot, k := WriteTurn(i, off, src, fault, tot, k, sizes, G, H);
        if full { break; }
        if failed { return -1, tot; }
      }
      r := tot;
    }

    /** The end of writei: the size is raised and the inode written. */
    method SetSize(i: nat, z: nat, ghost sizes: seq<nat>, ghost G: seq<seq<byte>>, ghost H: seq<seq<byte>>)
      requires Core() && i < |nodes| && FilesAre(disk, nodes, sizes, G) && FilesAre(medium, nodes, sizes, H)
      requires z <= |G[i]| && z <= |H[i]| && z <= MAXFILE * BSIZE
      requires forall j | 0 <= j < |nodes| && j != i :: Dinodes()[j] == nodes[j]
      modifies this`nodes, this`inodes
      ensures Valid() && nodes == old(nodes)[i := old(nodes)[i].(size := z)]
      ensures File(disk, nodes[i]) == G[i][..z] && Stored()[i] == H[i][..z]
      ensures forall j | 0 <= j < |nodes| && j != i ::
        && sizes[j] <= |G[j]| && sizes[j] <= |H[j]| && File(disk, nodes[j]) == G[j][..sizes[j]]
        && Stored()[j] == H[j][..sizes[j]]
    {
      MediumInv(sb, disk, medium, nodes, owner);
      FilesResize(sb, disk, nodes, owner, sizes, G, i, z);
      FilesResize(sb, medium, nodes, owner, sizes, H, i, z);
      nodes := nodes[i := nodes[i].(size := z)];
      Flush(i);
    }

    /** The buffer of block bn of file i is recycled: what was not written of it is gone. */
    method Evict(i: nat, bn: nat)
      requires Valid() && i < |nodes| && bn < MAXFILE
      modifies this`disk
      ensures Valid() && Stored() == old(Stored())
      ensures forall j | 0 <= j < |nodes| ::
        File(disk, nodes[j]) ==
          if j == i then Committed(old(File(disk, nodes[i])), Stored()[i], bn) else old(File(disk, nodes[j]))
    {
      var b := Slot(disk, nodes[i], SlotOf(bn));
      if b == 0 {
        NothingThere(disk, nodes[i], bn, Stored()[i]);
      } else {
        EvictFiles(sb, disk, medium, nodes, owner, i, bn);
        disk := disk[b := medium[b]];
      }
    }

    /** The end of writei: the new size, and the inode to its block. */
    method WriteEnd(i: nat, off: nat, src: seq<byte>, fault: nat, r: int, tot: nat,
                    ghost sizes: seq<nat>, ghost G: seq<seq<byte>>, ghost H: seq<seq<byte>>)
      requires Core() && i < |nodes| == |G| == |H| && off <= |G[i]| == |H[i]| == nodes[i].size
      requires off + |src| <= MAXFILE * BSIZE
      requires tot <= |src| && tot <= fault && (|src| <= fault ==> r != -1) && (r != -1 ==> r == tot)
      requires r == -1 ==> tot == Settled(off, fault) && fault < |src|
      requires r == -1 ==> FilesAre(disk, nodes, sizes, Copied(G, i, off, src, fault))
      requires r != -1 ==> FilesAre(disk, nodes, sizes, Copied(G, i, off, src, tot))
      requires FilesAre(medium, nodes, sizes, Saved(H, G, i, off, src, tot))
      requires forall j | 0 <= j < |nodes| && j != i :: Dinodes()[j] == nodes[j]
      modifies this`nodes, this`inodes
      ensures Valid() && OthersKept(old(nodes), nodes, i)
      ensures Outcome(G[i], H[i], off, src, fault, r, tot, File(disk, nodes[i]), Stored()[i])
      ensures forall j | 0 <= j < |nodes| && j != i ::
        && sizes[j] <= |G[j]| && sizes[j] <= |H[j]| && File(disk, nodes[j]) == G[j][..sizes[j]]
        && Stored()[j] == H[j][..sizes[j]]
    {
      ghost var G' := Copied(G, i, off, src, if r == -1 then fault else tot);
      ghost var H' := Saved(H, G, i, off, src, tot);
      OutcomeHere(G[i], H[i], off, src, fault, r, tot);
      SetSize(i, if off + tot > nodes[i].size then off + tot else nodes[i].size, sizes, G', H');
    }

    /** writei, once off and the length are accepted. */
    method WriteIn(i: nat, off: nat, src: seq<byte>, fault: nat) returns (r: int, ghost tot: nat)
      requires Valid() && i < |nodes| && off <= nodes[i].size && off + |src| <= MAXFILE * BSIZE
      modifies this
      ensures Valid() && OthersKept(old(nodes), nodes, i)
      ensures forall j | 0 <= j < |nodes| && j != i ::
        File(disk, nodes[j]) == old(File(disk, nodes[j])) && Stored()[j] == old(Stored())[j]
      ensures Outcome(old(File(disk, nodes[i])), old(Stored())[i], off, src, fault, r, tot, File(disk, nodes[i]),
                      Stored()[i])
      ensures r != -1 && tot < |src| ==> Full() && Stopped(off, tot, old(nodes)[i].size)
    {
      MediumInv(sb, disk, medium, nodes, owner);
      FilesStart(sb, disk, nodes, owner);
      FilesStart(sb, medium, nodes, owner);
      ghost var G, H, sizes := Files(sb, disk, nodes, owner), Files(sb, medium, nodes, owner), Sizes(nodes);
      var done: nat;
      r, done := WriteLoop(i, off, src, fault, sizes, G, H);
      tot := done;
      assert FileIs(medium, nodes, sizes, Saved(H, G, i, off, src, tot), i);
      WriteEnd(i, off, src, fault, r, done, sizes, G, H);
    }

    /** writei: off may not lie beyond the file's end, nor the end beyond the largest file.
        On success the file has src in it from off on; when blocks run out, as much of src
        as was written; on a copy fault, what was copied, up to the size reached so far.  The
        medium gets the blocks of the bytes that are done, and no others. */
    method Writei(i: nat, off: nat, src: seq<byte>, fault: nat) returns (r: int, ghost tot: nat)
      requires Valid() && i < |nodes| && off < U32 && |src| < U32
      modifies this
      ensures Valid() && OthersKept(old(nodes), nodes, i)
      ensures forall j | 0 <= j < |nodes| && j != i ::
        File(disk, nodes[j]) == old(File(disk, nodes[j])) && Stored()[j] == old(Stored())[j]
      ensures
        var F := old(File(disk, nodes[i]));
        var refused := off > |F| || off + |src| > MAXFILE * BSIZE;
        && (refused ==> r == -1 && unchanged(this))
        && (!refused ==> Outcome(F, old(Stored())[i], off, src, fault, r, tot, File(disk, nodes[i]), Stored()[i]))
        && (!refused && r != -1 && tot < |src| ==> Full() && Stopped(off, tot, |F|))
    {
      Wraps(off, |src|);
      if off > nodes[i].size || (off + |src|) % U32 < off { return -1, 0; }
      if off + |src| > MAXFILE * BSIZE { return -1, 0; }
      r, tot := WriteIn(i, off, src, fault);
    }
  }

  lemma NothingThere(disk: seq<Block>, n: Inode, bn: nat, D: seq<byte>)
    requires Shape(disk, n) && NoHoles(disk, n) && bn < MAXFILE && Slot(disk, n, SlotOf(bn)) == 0 && |D| == n.size
    ensures Committed(File(disk, n), D, bn) == File(disk, n)
  {
    forall p | 0 <= p < n.size
      ensures p / BSIZE != bn
    {
      assert Mapped(disk, n, p / BSIZE);
    }
  }

  lemma WriteNone(G: seq<seq<byte>>, i: nat, off: nat, src: seq<byte>)
    requires i < |G| && off <= |G[i]|
    ensures G[i := Overwrite(G[i], off, src[..0])] == G
  {
    assert Overwrite(G[i], off, src[..0]) == G[i];
  }

  lemma WriteMore(G: seq<seq<byte>>, i: nat, off: nat, src: seq<byte>, tot: nat, c: nat)
    requires i < |G| && off <= |G[i]| && tot + c <= |src|
    ensures
      var H := Copied(G, i, off, src, tot);
      && H[i := Overwrite(H[i], off + tot, src[tot..tot + c])] == Copied(G, i, off, src, tot + c)
      && off + tot <= |H[i]| && |G[i]| <= |H[i]|
  {
    OverwriteMore(G[i], off, src[..tot], src[tot..tot + c]);
    assert src[..tot] + src[tot..tot + c] == src[..tot + c];
  }

  /** Part of a block is part of the file. */
  lemma ReadChunk(disk: seq<Block>, n: Inode, F: seq<byte>, off: nat, m: nat)
    requires Shape(disk, n) && Shows(disk, n, F) && off + m <= |F| && off % BSIZE + m <= BSIZE
    requires Mapped(disk, n, off / BSIZE)
    ensures disk[Slot(disk, n, SlotOf(off / BSIZE))][off % BSIZE..off % BSIZE + m] == F[off..off + m]
  {
    var bp := disk[Slot(disk, n, SlotOf(off / BSIZE))];
    forall p | off <= p < off + m
      ensures F[p] == bp[off % BSIZE + (p - off)]
    {
      assert ShowsAt(disk, n, F, p);
      SameBlock(off, p, m);
    }
  }

  /** The disk without the memory of the kernel is a sound file system, with the inodes that its inode blocks have,
      and the files on it are those of Stored. */
  lemma DiskAlone(fs: FileSystem)
    requires fs.Valid()
    ensures Inv(fs.sb, fs.medium, fs.Dinodes(), fs.owner)
    ensures fs.Stored() == Files(fs.sb, fs.medium, fs.Dinodes(), fs.owner)
  {
    MediumInv(fs.sb, fs.disk, fs.medium, fs.nodes, fs.owner);
  }
}
