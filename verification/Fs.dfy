/**
 The block allocator and inode contents of fs.c, running on a cached disk and an
 in-memory inode table.  The panics of the source are returned as a flag.
 */
module Fs {
  import opened Params
  import opened Bytes
  import opened FsState
  import opened FileBytes
  import opened FsSteps

  class FileSystem {
    const sb: Super
    /** The major numbers whose entry in devsw has a read, or a write, function. */
    const devRead: set<int>
    const devWrite: set<int>
    var disk: Disk
    var inodes: seq<Inode>
    /** The blocks passed to log_write since begin_op. */
    var logged: set<int>
    ghost var owner: Owner

    /** A file system of empty inodes on a blank image. */
    constructor (s: Super, d: Disk, readers: set<int>, writers: set<int>)
      requires Blank(s, d)
      ensures Valid() && sb == s && disk == d && logged == {}
      ensures |inodes| == s.ninodes && forall i :: 0 <= i < |inodes| ==> File(disk, inodes[i]) == []
    {
      sb, devRead, devWrite := s, readers, writers;
      disk, inodes := d, seq(s.ninodes, _ => BLANK_INODE);
      logged, owner := {}, map[];
      new;
      BlankGood(s, d, inodes);
    }

    /** Mark block b, whose bit is bit k of free map block v, used. */
    method Mark(b: nat, v: nat, k: nat)
      requires SuperOk(sb, disk) && sb.nmeta <= b < sb.size && v == BBlock(sb, b) && k == b % BPB
      modifies this`disk, this`logged
      ensures SameButMap(sb, old(disk), disk, b) && disk[b] == old(disk)[b]
      ensures forall x: nat :: x < sb.size ==> (Used(sb, disk, x) <==> Used(sb, old(disk), x) || x == b)
      ensures logged == old(logged) + {v}
      ensures InodeAreaSame(sb, old(disk), disk)
    {
      BitRange(sb, disk, b);
      disk, logged := PutBit(disk, v, k / 8, SetBit(disk[v][k / 8], k % 8)), logged + {v};
      SetUsed(sb, old(disk), b, v, k / 8, k % 8, disk);
    }

    /** Mark the free block b used and zero it. */
    method Take(b: nat, v: nat, k: nat)
      requires SuperOk(sb, disk) && sb.nmeta <= b < sb.size && v == BBlock(sb, b) && k == b % BPB && !Used(sb, disk, b)
      modifies this`disk, this`logged
      ensures Alloc(sb, old(disk), disk, b) && InodeAreaSame(sb, old(disk), disk)
      ensures logged == old(logged) + {v, b}
    {
      Mark(b, v, k);
      Bzero(b);
    }

    /** balloc: the first free block, marked used and zeroed; panics exactly when there is none. */
    method Balloc() returns (r: int, panic: bool)
      requires SuperOk(sb, disk) && forall x: nat :: x < sb.nmeta ==> Used(sb, disk, x)
      modifies this`disk, this`logged
      ensures panic ==> disk == old(disk) && logged == old(logged) && Full(sb, disk)
      ensures panic || Alloc(sb, old(disk), disk, r)
      ensures !panic ==> logged == old(logged) + {BBlock(sb, r), r}
      ensures !panic ==> forall x: nat :: x < r ==> Used(sb, old(disk), x)
      ensures InodeAreaSame(sb, old(disk), disk)
    {
      var b := 0;
      while b < sb.size
        invariant b % BPB == 0 && disk == old(disk) && logged == old(logged)
        invariant forall x: nat :: x < b && x < sb.size ==> Used(sb, disk, x)
      {
        BitRange(sb, disk, b);
        var bp := disk[BBlock(sb, b)];
        var bi := 0;
        while bi < BPB && b + bi < sb.size
          invariant 0 <= bi <= BPB && disk == old(disk) && logged == old(logged)
          invariant forall x: nat :: x < b + bi && x < sb.size ==> Used(sb, disk, x)
        {
          UsedHere(sb, disk, b, bi, bp);
          if !Bit(bp[bi / 8], bi % 8) {
            r := b + bi;
            assert !Used(sb, disk, r);
            Take(r, BBlock(sb, b), bi);
            return r, false;
          }
          bi := bi + 1;
        }
        NextBlock(b);
        b := b + BPB;
      }
      return 0, true;
    }

    /** bzero: zero a data block. */
    method Bzero(b: nat)
      requires SuperOk(sb, disk) && sb.nmeta <= b < sb.size
      modifies this`disk, this`logged
      ensures disk == old(disk)[b := Zeroes()] && logged == old(logged) + {b}
      ensures SuperOk(sb, disk)
      ensures forall x: nat :: x < sb.size ==> Used(sb, disk, x) == Used(sb, old(disk), x)
    {
      disk, logged := disk[b := Zeroes()], logged + {b};
      UsedSame(sb, old(disk), disk, b);
    }

    /** bfree: clear the bit of a data block; panics exactly when it is already clear. */
    method Bfree(b: nat) returns (panic: bool)
      requires SuperOk(sb, disk) && sb.nmeta <= b < sb.size
      modifies this`disk, this`logged
      ensures panic <==> !Used(sb, old(disk), b)
      ensures panic ==> disk == old(disk) && logged == old(logged)
      ensures !panic ==> Free(sb, old(disk), disk, b) && logged == old(logged) + {BBlock(sb, b)}
      ensures InodeAreaSame(sb, old(disk), disk)
    {
      BitRange(sb, disk, b);
      var v := BBlock(sb, b);
      var bp := disk[v];
      var bi := b % BPB;
      if !Bit(bp[bi / 8], bi % 8) {
        return true;
      }
      disk, logged := PutBit(disk, v, bi / 8, ClearBit(bp[bi / 8], bi % 8)), logged + {v};
      ClearUsed(sb, old(disk), b, v, bi / 8, bi % 8, disk);
      return false;
    }

    /** Allocate a block and put it into the empty address entry k of inode i. */
    method AllocAddr(i: nat, k: nat) returns (addr: int, panic: bool)
      requires Inv(sb, disk, inodes, owner, {})
      requires i < |inodes| && k <= NDIRECT && inodes[i].addrs[k] == 0
      modifies this`disk, this`inodes, this`owner, this`logged
      ensures panic ==> Full(sb, disk)
      ensures panic || Kept(sb, old(disk), old(inodes), old(owner), disk, inodes, owner, i)
      ensures !panic ==> 0 < addr < |disk| && inodes[i] == WithAddr(old(inodes)[i], k, addr)
      ensures !panic ==> FileBlocks(disk, inodes[i]) == AddrFile(FileBlocks(old(disk), old(inodes)[i]), k)
      ensures !panic ==> logged == old(logged) + {BBlock(sb, addr), addr}
    {
      ghost var d := disk;
      addr, panic := Balloc();
      if !panic {
        AllocAddrKept(sb, d, inodes, owner, disk, i, k, addr);
        owner := owner[addr := (i, AddrSlot(k))];
        inodes := inodes[i := WithAddr(inodes[i], k, addr)];
      }
    }

    /** Allocate a block and put it into the empty entry bn of the indirect block of inode i. */
    method AllocIndirect(i: nat, bn: nat) returns (addr: int, panic: bool)
      requires Inv(sb, disk, inodes, owner, {})
      requires i < |inodes| && NDIRECT <= bn < MAXFILE && inodes[i].addrs[NDIRECT] != 0
      requires Slot(disk, inodes[i], bn) == 0
      modifies this`disk, this`owner, this`logged
      ensures panic ==> Full(sb, disk)
      ensures panic || Kept(sb, old(disk), inodes, old(owner), disk, inodes, owner, i)
      ensures !panic ==> addr == Slot(disk, inodes[i], bn) && 0 < addr < |disk|
      ensures !panic ==> FileBlocks(disk, inodes[i]) == FileBlocks(old(disk), inodes[i])[bn := Zeroes()]
      ensures !panic ==> logged == old(logged) + {BBlock(sb, addr), addr} + {inodes[i].addrs[NDIRECT]}
    {
      ghost var d := disk;
      assert Slot(disk, inodes[i], MAXFILE) == inodes[i].addrs[NDIRECT];
      addr, panic := Balloc();
      if !panic {
        var x := inodes[i].addrs[NDIRECT];
        ghost var e := disk;
        disk, logged := PutIndirect(disk, x, bn, addr), logged + {x};
        AllocIndirectKept(sb, d, inodes, owner, e, i, bn, addr, x, disk);
        owner := owner[addr := (i, bn)];
      }
    }

    /** The indirect block of inode i, allocated if necessary. */
    method LoadIndirect(i: nat) returns (x: int, panic: bool, ghost bits: set<int>)
      requires Inv(sb, disk, inodes, owner, {}) && i < |inodes|
      modifies this`disk, this`inodes, this`owner, this`logged
      ensures panic ==> Full(sb, disk)
      ensures panic || Kept(sb, old(disk), old(inodes), old(owner), disk, inodes, owner, i)
      ensures !panic ==> x == inodes[i].addrs[NDIRECT] && 0 < x < |disk|
      ensures !panic ==> FileBlocks(disk, inodes[i]) == FileBlocks(old(disk), old(inodes)[i])
      ensures old(inodes)[i].addrs[NDIRECT] != 0 ==>
                !panic && disk == old(disk) && inodes == old(inodes) && owner == old(owner) && logged == old(logged)
                && bits == {}
      ensures !panic ==> |bits| == NewIndirect(old(inodes)[i], inodes[i]) && Grew(old(inodes)[i], inodes[i])
      ensures !panic ==> logged <= old(logged) + bits + {x}
    {
      bits, panic := {}, false;
      SlotInRange(sb, disk, inodes, owner, i, MAXFILE);
      x := inodes[i].addrs[NDIRECT];
      if x == 0 {
        x, panic := AllocAddr(i, NDIRECT);
        if !panic {
          bits := {BBlock(sb, x)};
        }
      }
    }

    /** The second half of bmap: load the indirect block, then map the block it lists. */
    method BmapIndirect(i: nat, bn: nat) returns (addr: int, panic: bool, ghost bits: set<int>)
      requires Inv(sb, disk, inodes, owner, {}) && i < |inodes| && NDIRECT <= bn < MAXFILE
      modifies this`disk, this`inodes, this`owner, this`logged
      ensures panic ==> Full(sb, disk)
      ensures Slot(old(disk), old(inodes)[i], bn) != 0 ==> !panic
      ensures panic || Kept(sb, old(disk), old(inodes), old(owner), disk, inodes, owner, i)
      ensures !panic ==> addr == Slot(disk, inodes[i], bn) && 0 < addr < |disk|
      ensures !panic ==> FileBlocks(disk, inodes[i]) == MapBlock(FileBlocks(old(disk), old(inodes)[i]), bn)
      ensures !panic && Slot(old(disk), old(inodes)[i], bn) != 0 ==>
                disk == old(disk) && inodes == old(inodes) && owner == old(owner) && logged == old(logged) && bits == {}
      ensures !panic && Slot(old(disk), old(inodes)[i], bn) == 0 ==>
                |bits| <= 1 + NewIndirect(old(inodes)[i], inodes[i])
      ensures !panic ==> Grew(old(inodes)[i], inodes[i])
      ensures !panic ==> logged <= old(logged) + bits + {addr} + Ind(inodes[i])
    {
      ghost var d, ins, own := disk, inodes, owner;
      SlotInRange(sb, disk, inodes, owner, i, bn);
      var x;
      x, panic, bits := LoadIndirect(i);
      addr := 0;
      if panic {
        return;
      }
      ghost var d1, ins1, own1, log1 := disk, inodes, owner, logged;
      SlotInRange(sb, disk, inodes, owner, i, bn);
      addr := Word(disk[x], bn - NDIRECT);
      if addr == 0 {
        addr, panic := AllocIndirect(i, bn);
        if !panic {
          KeptTrans(sb, d, ins, own, d1, ins1, own1, disk, inodes, owner, i);
          LoggedMore(old(logged), log1, logged, bits, BBlock(sb, addr), addr, x);
          bits := bits + {BBlock(sb, addr)};
        }
      }
    }

    /**
     bmap: the block number of block bn of inode i, allocating it, and the
     indirect block, when missing.  bits collects the free map blocks logged.
     */
    method Bmap(i: nat, bn: nat) returns (addr: int, panic: bool, ghost bits: set<int>)
      requires Inv(sb, disk, inodes, owner, {}) && i < |inodes|
      modifies this`disk, this`inodes, this`owner, this`logged
      ensures bn >= MAXFILE ==> panic
      ensures panic ==> bn >= MAXFILE || Full(sb, disk)
      ensures bn < MAXFILE && Slot(old(disk), old(inodes)[i], bn) != 0 ==> !panic
      ensures panic || Kept(sb, old(disk), old(inodes), old(owner), disk, inodes, owner, i)
      ensures !panic ==> addr == Slot(disk, inodes[i], bn) && 0 < addr < |disk|
      ensures !panic && bn < NDIRECT ==> addr == inodes[i].addrs[bn]
      ensures !panic && bn >= NDIRECT ==>
                0 < inodes[i].addrs[NDIRECT] < |disk| && addr == Word(disk[inodes[i].addrs[NDIRECT]], bn - NDIRECT)
      ensures !panic ==> FileBlocks(disk, inodes[i]) == MapBlock(FileBlocks(old(disk), old(inodes)[i]), bn)
      ensures !panic && Slot(old(disk), old(inodes)[i], bn) != 0 ==>
                disk == old(disk) && inodes == old(inodes) && owner == old(owner) && logged == old(logged) && bits == {}
      ensures !panic && Slot(old(disk), old(inodes)[i], bn) == 0 ==>
                |bits| <= 1 + NewIndirect(old(inodes)[i], inodes[i])
      ensures !panic ==> Grew(old(inodes)[i], inodes[i])
      ensures !panic ==> logged <= old(logged) + bits + {addr} + Ind(inodes[i])
    {
      bits := {};
      if bn < NDIRECT {
        addr := inodes[i].addrs[bn];
        SlotInRange(sb, disk, inodes, owner, i, bn);
        panic := false;
        if addr == 0 {
          addr, panic := AllocAddr(i, bn);
          if !panic {
            bits := {BBlock(sb, addr)};
          }
        } else {
          assert FileBlock(disk, inodes[i], bn) == disk[addr];
        }
        return;
      }
      if bn < MAXFILE {
        addr, panic, bits := BmapIndirect(i, bn);
        return;
      }
      return 0, true, {};
    }

    /** One iteration of writei: map the block, copy the bytes into it, log it. */
    method WriteChunk(i: nat, o: nat, bytes: seq<int>) returns (panic: bool, ghost addr: int, ghost more: set<int>)
      requires Inv(sb, disk, inodes, owner, {}) && i < |inodes|
      requires o / BSIZE < MAXFILE && o % BSIZE + |bytes| <= BSIZE
      modifies this`disk, this`inodes, this`owner, this`logged
      ensures panic ==> Full(sb, disk)
      ensures panic || Kept(sb, old(disk), old(inodes), old(owner), disk, inodes, owner, i)
      ensures panic || ChunkDone(old(disk), old(inodes)[i], old(logged), disk, inodes[i], logged, o, bytes, addr, more)
      ensures Slot(old(disk), old(inodes)[i], o / BSIZE) != 0 ==> !panic && inodes == old(inodes) && owner == old(owner)
    {
      ghost var d, ins, own := disk, inodes, owner;
      var a, p;
      a, p, more := Bmap(i, o / BSIZE);
      panic, addr := p, a;
      if panic {
        return;
      }
      ghost var d1 := disk;
      var data := Splice(disk[a], o % BSIZE, bytes);
      disk, logged := disk[a := data], logged + {a};
      WriteKept(sb, d1, inodes, owner, i, o / BSIZE, a, data, disk);
      KeptTrans(sb, d, ins, own, d1, inodes, owner, disk, inodes, owner, i);
    }

    /**
     The loop of writei: copy src to byte off onward, block by block.  data and
     bits collect the data blocks and free map blocks logged.
     */
    method WriteBlocks(i: nat, src: seq<int>, off: nat)
      returns (panic: bool, ghost data: set<int>, ghost bits: set<int>)
      requires Inv(sb, disk, inodes, owner, {}) && i < |inodes|
      requires Mapped(FileBlocks(disk, inodes[i]), inodes[i].size)
      requires off <= inodes[i].size && off + |src| <= MAXFILE * BSIZE
      modifies this`disk, this`inodes, this`owner, this`logged
      ensures panic ==> Full(sb, disk)
      ensures panic || Kept(sb, old(disk), old(inodes), old(owner), disk, inodes, owner, i)
      ensures panic ||
                Progress(old(disk), old(inodes)[i], old(logged), disk, inodes[i], logged, src, off, |src|, data, bits)
      ensures off + |src| <= old(inodes)[i].size ==> !panic && inodes == old(inodes) && owner == old(owner)
    {
      ghost var d, ins, own, log := disk, inodes, owner, logged;
      data, bits, panic := {}, {}, false;
      var tot, o := 0, off;
      ProgressStart(disk, inodes[i], logged, src, off);
      while tot < |src|
        invariant 0 <= tot <= |src| && o == off + tot
        invariant !panic && (panic || Kept(sb, d, ins, own, disk, inodes, owner, i))
        invariant panic || Progress(d, ins[i], log, disk, inodes[i], logged, src, off, tot, data, bits)
        invariant off + |src| <= ins[i].size ==> inodes == ins && owner == own
      {
        var m := if |src| - tot < BSIZE - o % BSIZE then |src| - tot else BSIZE - o % BSIZE;
        ChunkRange(off, tot, o, m, |src|);
        ghost var d1, ins1, own1, log1 := disk, inodes, owner, logged;
        if o < ins[i].size {
          SlotMapped(sb, d, ins[i], log, disk, inodes, owner, logged, i, src, off, tot, o, data, bits);
        }
        ghost var addr, more;
        panic, addr, more := WriteChunk(i, o, src[tot..tot + m]);
        if panic {
          return;
        }
        KeptTrans(sb, d, ins, own, d1, ins1, own1, disk, inodes, owner, i);
        var tot' := tot + m;
        ProgressStep(d, ins[i], log, d1, ins1[i], log1, disk, inodes[i], logged, src, off, tot, o, m, tot', data,
                     bits, addr, more);
        data, bits := data + {addr}, bits + more;
        tot, o := tot', o + m;
      }
    }

    /** The file system between operations. */
    ghost predicate Valid()
      reads this
    {
      Good(sb, disk, inodes, owner)
    }

    /** iupdate: the disk then holds inode i as it is in memory, and every other inode and block as before. */
    method Iupdate(i: nat)
      requires SuperOk(sb, disk) && InodesOk(sb, inodes) && i < |inodes|
      modifies this`disk, this`logged
      ensures disk == PutInode(sb, old(disk), i, inodes[i])
      ensures logged == old(logged) + {IBlock(sb, i)}
      ensures WordSized(inodes[i]) ==> forall j: nat :: j < sb.ninodes ==>
                DiskInode(sb, disk, j) == if j == i then InodeWords(inodes[i]) else DiskInode(sb, old(disk), j)
      ensures forall b :: 0 <= b < |disk| && b != IBlock(sb, i) ==> disk[b] == old(disk)[b]
    {
      disk, logged := PutInode(sb, disk, i, inodes[i]), logged + {IBlock(sb, i)};
      if WordSized(inodes[i]) {
        forall j: nat | j < sb.ninodes
          ensures DiskInode(sb, disk, j) == if j == i then InodeWords(inodes[i]) else DiskInode(sb, old(disk), j)
        {
          PutInodeRead(sb, old(disk), i, inodes[i], j);
        }
      }
    }

    /**
     writei.  On a device: what the driver returns, and no block or inode changes.
     On a file or directory: -1 exactly when the request does not fit, and
     then nothing changes; otherwise the bytes of file i are overwritten at off,
     every other file and inode is the same, every inode is written through, and
     at most MaxLogged blocks are logged.  A write inside the file allocates nothing.
     */
    method Writei(i: nat, src: seq<int>, off: nat, driver: int) returns (r: int, panic: bool)
      requires Valid() && i < |inodes|
      requires off < TWO32 && |src| < TWO32
      modifies this`disk, this`inodes, this`owner, this`logged
      ensures Type(old(inodes)[i]) == T_DEV ==> !panic && unchanged(this) && r == DevResult(inodes[i], devWrite, driver)
      ensures panic ==> Full(sb, disk) && off <= old(inodes)[i].size && off + |src| <= MAXFILE * BSIZE
      ensures panic || Valid()
      ensures !panic ==> |inodes| == |old(inodes)|
      ensures !panic && Type(old(inodes)[i]) != T_DEV ==>
                r == if off <= old(inodes)[i].size && off + |src| <= MAXFILE * BSIZE then |src| else -1
      ensures !panic && r == -1 ==>
                disk == old(disk) && inodes == old(inodes) && owner == old(owner) && logged == old(logged)
      ensures off + |src| <= old(inodes)[i].size ==> !panic && inodes == old(inodes) && owner == old(owner)
      ensures !panic && r >= 0 && Type(old(inodes)[i]) != T_DEV ==>
                File(disk, inodes[i]) == Overwrite(File(old(disk), old(inodes)[i]), off, src)
      ensures !panic && r >= 0 ==> inodes[i].kind == old(inodes)[i].kind && inodes[i].links == old(inodes)[i].links
      ensures !panic ==> OthersSame(old(disk), old(inodes), disk, inodes, i)
      ensures !panic ==> |logged - old(logged)| <= MaxLogged(off, off + |src|)
    {
      ghost var d, ins, own, log := disk, inodes, owner, logged;
      var n := |src|;
      if Type(inodes[i]) == T_DEV {
        return DevResult(inodes[i], devWrite, driver), false;
      }
      assert InodeGood(sb, disk, inodes, i);
      WriteGuards(inodes[i].size, off, n);
      if off > inodes[i].size || (off + n) % TWO32 < off {
        return -1, false;
      }
      if (off + n) % TWO32 > MAXFILE * BSIZE {
        return -1, false;
      }
      ghost var data, bits;
      panic, data, bits := WriteBlocks(i, src, off);
      r := n;
      if panic {
        return;
      }
      ghost var d1, ins1, log1 := disk, inodes, logged;
      if n > 0 && off + n > inodes[i].size {
        inodes := inodes[i := WithSize(inodes[i], off + n)];
        Iupdate(i);
      }
      WriteEnd(sb, d, ins, own, log, d1, ins1, owner, log1, disk, inodes, logged, i, off, src, data, bits);
    }

    /** bread of a mapped block of a file: bmap allocates nothing. */
    method ReadBlock(i: nat, bn: nat) returns (b: Block)
      requires Inv(sb, disk, inodes, owner, {}) && i < |inodes| && bn < MAXFILE && FileBlock(disk, inodes[i], bn) != []
      modifies this`disk, this`inodes, this`owner, this`logged
      ensures disk == old(disk) && inodes == old(inodes) && owner == old(owner) && logged == old(logged)
      ensures b == FileBlock(disk, inodes[i], bn)
    {
      SlotInRange(sb, disk, inodes, owner, i, bn);
      var addr, panic;
      ghost var bits;
      addr, panic, bits := Bmap(i, bn);
      b := disk[addr];
    }

    /** The loop of readi: count bytes of a file from byte off on. */
    method ReadBlocks(i: nat, off: nat, count: nat, ghost f: Blocks, ghost size: nat) returns (dst: seq<int>)
      requires Inv(sb, disk, inodes, owner, {}) && i < |inodes| && f == FileBlocks(disk, inodes[i])
      requires Mapped(f, size) && off + count <= size
      modifies this`disk, this`inodes, this`owner, this`logged
      ensures disk == old(disk) && inodes == old(inodes) && owner == old(owner) && logged == old(logged)
      ensures dst == Contents(f, size)[off..off + count]
    {
      ghost var d, ins, own, log := disk, inodes, owner, logged;
      dst := [];
      var tot, o := 0, off;
      while tot < count
        invariant 0 <= tot <= count && o == off + tot
        invariant disk == d && inodes == ins && owner == own && logged == log
        invariant dst == Contents(f, size)[off..o]
      {
        var m := if count - tot < BSIZE - o % BSIZE then count - tot else BSIZE - o % BSIZE;
        var o' := o + m;
        ReadStep(f, size, off, o, m, o');
        var b := ReadBlock(i, o / BSIZE);
        dst := dst + b[o % BSIZE..o % BSIZE + m];
        tot, o := tot + m, o';
      }
    }

    /**
     readi.  On a device: what the driver returns.  On a file or directory: -1 exactly
     when off is past the end or off + n does not fit 32 bits, else the slice of the
     file, cut at its end.  Nothing changes.
     */
    method Readi(i: nat, off: nat, n: nat, driver: int, bytes: seq<int>) returns (r: int, dst: seq<int>)
      requires Valid() && i < |inodes|
      requires off < TWO32 && n < TWO32
      modifies this`disk, this`inodes, this`owner, this`logged
      ensures disk == old(disk) && inodes == old(inodes) && owner == old(owner) && logged == old(logged)
      ensures Type(inodes[i]) == T_DEV ==> r == DevResult(inodes[i], devRead, driver) && (r != -1 ==> dst == bytes)
      ensures Type(inodes[i]) != T_DEV ==> (r == -1 <==> off > inodes[i].size || off + n >= TWO32)
      ensures Type(inodes[i]) != T_DEV && r != -1 ==> r == if off + n > inodes[i].size then inodes[i].size - off else n
      ensures Type(inodes[i]) != T_DEV && r != -1 ==> dst == File(disk, inodes[i])[off..off + r]
    {
      if Type(inodes[i]) == T_DEV {
        return DevResult(inodes[i], devRead, driver), bytes;
      }
      assert InodeGood(sb, disk, inodes, i);
      if off > inodes[i].size || (off + n) % TWO32 < off {
        return -1, [];
      }
      var count := if off + n > inodes[i].size then inodes[i].size - off else n;
      dst := ReadBlocks(i, off, count, FileBlocks(disk, inodes[i]), inodes[i].size);
      return count, dst;
    }

    /** One iteration of the first loop of itrunc: free direct block k of inode i, if there is one. */
    method ReleaseAddr(i: nat, k: nat, ghost k': nat, ghost d: Disk, ghost ins: seq<Inode>, ghost own: Owner)
      returns (panic: bool)
      requires k < NDIRECT && k' == k + 1
      requires TruncDirect(sb, d, ins, own, disk, inodes, owner, i, k)
      modifies this`disk, this`inodes, this`owner, this`logged
      ensures !panic
      ensures panic || TruncDirect(sb, d, ins, own, disk, inodes, owner, i, k')
    {
      panic := false;
      var x := inodes[i].addrs[k];
      if x != 0 {
        SlotInRange(sb, disk, inodes, owner, i, k);
        ghost var d1 := disk;
        panic := Bfree(x);
        ReleaseDirect(sb, d, ins, own, d1, inodes, owner, i, k, x, disk);
        inodes, owner := inodes[i := WithAddr(inodes[i], k, 0)], owner - {x};
      } else {
        SkipDirect(sb, d, ins, own, disk, inodes, owner, i, k);
      }
    }

    /** The first loop of itrunc. */
    method FreeDirect(i: nat) returns (panic: bool)
      requires Inv(sb, disk, inodes, owner, {}) && i < |inodes|
      modifies this`disk, this`inodes, this`owner, this`logged
      ensures !panic
      ensures panic || TruncDirect(sb, old(disk), old(inodes), old(owner), disk, inodes, owner, i, NDIRECT)
    {
      ghost var d, ins, own := disk, inodes, owner;
      var k := 0;
      panic := false;
      while k < NDIRECT
        invariant 0 <= k <= NDIRECT && !panic
        invariant panic || TruncDirect(sb, d, ins, own, disk, inodes, owner, i, k)
      {
        panic := ReleaseAddr(i, k, k + 1, d, ins, own);
        k := k + 1;
      }
    }

    /** One iteration of the second loop of itrunc: free the block a of slot s of inode i, if there is one. */
    method ReleaseListed(ghost i: nat, ghost s: nat, ghost s': nat, a: int, ghost d: Disk, ghost own: Owner,
                         ghost ins2: seq<Inode>, ghost own2: Owner)
      returns (panic: bool)
      requires Inv(sb, d, inodes, own, {}) && i < |inodes| && s < MAXFILE && s' == s + 1 && a == Slot(d, inodes[i], s)
      requires TruncIndirect(sb, d, inodes[i], disk, ins2, own2, s)
      modifies this`disk, this`logged
      ensures !panic
      ensures panic || TruncIndirect(sb, d, inodes[i], disk, ins2, own2, s')
    {
      ghost var d1 := disk;
      panic := false;
      if a != 0 {
        SlotsFromStep(sb, d, inodes, own, i, s);
        PendingUsed(sb, disk, ins2, own2, SlotsFrom(d, inodes[i], s), a);
        panic := Bfree(a);
      }
      IndirectStep(sb, d, inodes, own, i, d1, ins2, own2, s, disk);
    }

    /** The second loop of itrunc, over the indirect block bp of inode i. */
    method FreeListed(bp: Block, ghost i: nat, ghost d: Disk, ghost own: Owner, ghost ins2: seq<Inode>,
                      ghost own2: Owner)
      returns (panic: bool)
      requires Inv(sb, d, inodes, own, {}) && i < |inodes| && TruncIndirect(sb, d, inodes[i], disk, ins2, own2, NDIRECT)
      requires 0 < inodes[i].addrs[NDIRECT] < |d| && bp == d[inodes[i].addrs[NDIRECT]]
      modifies this`disk, this`logged
      ensures !panic
      ensures panic || TruncIndirect(sb, d, inodes[i], disk, ins2, own2, MAXFILE)
    {
      panic := false;
      var j := 0;
      while j < NINDIRECT
        invariant 0 <= j <= NINDIRECT && !panic
        invariant panic || TruncIndirect(sb, d, inodes[i], disk, ins2, own2, NDIRECT + j)
      {
        var a := Word(bp, j);
        assert a == Slot(d, inodes[i], NDIRECT + j);
        panic := ReleaseListed(i, NDIRECT + j, NDIRECT + j + 1, a, d, own, ins2, own2);
        j := j + 1;
      }
    }

    /** The indirect part of itrunc. */
    method FreeIndirect(i: nat) returns (panic: bool)
      requires Inv(sb, disk, inodes, owner, {}) && i < |inodes| && inodes[i].addrs[NDIRECT] != 0
      modifies this`disk, this`inodes, this`owner, this`logged
      ensures !panic
      ensures inodes == old(inodes)[i := WithAddr(old(inodes)[i], NDIRECT, 0)]
      ensures owner == old(owner) - SlotsFrom(old(disk), old(inodes)[i], NDIRECT)
      ensures panic || (Inv(sb, disk, inodes, owner, {}) && InodeAreaSame(sb, old(disk), disk))
      ensures forall j :: 0 <= j < |inodes| ==> FileBlocks(disk, inodes[j]) == FileBlocks(old(disk), inodes[j])
    {
      ghost var d, ins, own := disk, inodes, owner;
      SlotInRange(sb, disk, inodes, owner, i, MAXFILE);
      var x := inodes[i].addrs[NDIRECT];
      ghost var ins2, own2 := ins[i := WithAddr(ins[i], NDIRECT, 0)], own - SlotsFrom(d, ins[i], NDIRECT);
      IndirectStart(sb, d, ins, own, i);
      panic := FreeListed(disk[x], i, d, own, ins2, own2);
      ghost var d1 := disk;
      SlotsFromLast(d, ins[i]);
      PendingUsed(sb, disk, ins2, own2, {x}, x);
      panic := Bfree(x);
      IndirectEnd(sb, d, ins[i], d1, ins2, own2, x, disk);
      inodes, owner := inodes[i := WithAddr(inodes[i], NDIRECT, 0)], own2;
    }

    /**
     itrunc: afterwards file i is empty, every other file is the same, exactly the
     blocks of file i are free, and bfree never found a block already free.
     */
    method Itrunc(i: nat) returns (panic: bool)
      requires Valid() && i < |inodes|
      modifies this`disk, this`inodes, this`owner, this`logged
      ensures !panic && Valid() && |inodes| == |old(inodes)|
      ensures inodes[i].size == 0 && File(disk, inodes[i]) == []
      ensures forall s: nat :: s <= MAXFILE ==> Slot(disk, inodes[i], s) == 0
      ensures OthersSame(old(disk), old(inodes), disk, inodes, i)
      ensures forall b: nat :: b < sb.size ==>
                (Used(sb, disk, b) <==> Used(sb, old(disk), b) && b !in SlotsFrom(old(disk), old(inodes)[i], 0))
    {
      ghost var d, ins, own := disk, inodes, owner;
      panic := FreeDirect(i);
      ghost var d1, ins1, own1 := disk, inodes, owner;
      if inodes[i].addrs[NDIRECT] != 0 {
        panic := FreeIndirect(i);
        TruncWithIndirect(sb, d, ins, own, d1, ins1, own1, i, disk, inodes, owner);
      } else {
        TruncNoIndirect(sb, d, ins, own, d1, ins1, own1, i);
      }
      ghost var d2, ins2 := disk, inodes;
      inodes := inodes[i := WithSize(inodes[i], 0)];
      Iupdate(i);
      TruncatedGood(sb, d, ins, own, d2, ins2, owner, i, inodes, disk);
      forall b: nat | b < sb.size
        ensures Used(sb, disk, b) <==> Used(sb, d, b) && b !in SlotsFrom(d, ins[i], 0)
      {
        FreedExactly(sb, d, ins, own, d2, ins2, owner, i, b);
      }
    }

    /**
     filewrite on an inode file, with no other writer in between: src goes out in
     chunks, each its own transaction.  done counts the bytes written.  All of src
     is written exactly when one writei of all of it would have been accepted, with
     the same effect; otherwise the chunks before the first refused one stay
     written and the result is -1.  No transaction logs more than MAXOPBLOCKS blocks.
     */
    method Filewrite(ip: nat, src: seq<int>, start: nat)
      returns (r: int, off: nat, panic: bool, ghost done: nat, ghost txns: seq<set<int>>)
      requires Valid() && ip < |inodes| && Type(inodes[ip]) != T_DEV
      requires start < TWO32 && |src| < TWO32
      modifies this`disk, this`inodes, this`owner, this`logged
      ensures panic ==> Full(sb, disk)
      ensures forall t :: 0 <= t < |txns| ==> |txns[t]| <= MAXOPBLOCKS
      ensures panic || Valid()
      ensures !panic ==> |inodes| == |old(inodes)| && OthersSame(old(disk), old(inodes), disk, inodes, ip)
      ensures !panic ==>
                r == if src == [] || (start <= old(inodes)[ip].size && start + |src| <= MAXFILE * BSIZE) then |src|
                     else -1
      ensures !panic ==> done <= |src| && off == start + done && (r >= 0 ==> done == |src|)
      ensures !panic && r == -1 ==>
                start > old(inodes)[ip].size || start + done + ChunkSize(|src| - done) > MAXFILE * BSIZE
      ensures !panic && start <= old(inodes)[ip].size ==>
                File(disk, inodes[ip]) == Overwrite(File(old(disk), old(inodes)[ip]), start, src[..done])
      ensures !panic && start > old(inodes)[ip].size ==> done == 0 && disk == old(disk) && inodes == old(inodes)
    {
      ghost var d, ins := disk, inodes;
      var max := (MAXOPBLOCKS - 1 - 1 - 2) / 2 * 512;
      var i := 0;
      off, panic, txns := start, false, [];
      while i < |src|
        invariant 0 <= i <= |src| && off == start + i && !panic
        invariant panic || Appended(sb, d, ins, disk, inodes, owner, ip, start, src, i)
        invariant forall t :: 0 <= t < |txns| ==> |txns[t]| <= MAXOPBLOCKS
      {
        var n1 := if |src| - i > max then max else |src| - i;
        var i', r1 := i + n1, 0;
        r1, panic := WriteNext(ip, src, start, i, off, n1, i', d, ins);
        if panic {
          r, done := -1, i;
          return;
        }
        txns := txns + [logged];
        if r1 < 0 {
          r, done := -1, i;
          return;
        }
        off, i := off + r1, i';
      }
      r, done := |src|, i;
    }

    /** One transaction of filewrite: the next n1 bytes of src. */
    method WriteNext(ip: nat, src: seq<int>, start: nat, i: nat, off: nat, n1: nat, i': nat, ghost d: Disk,
                     ghost ins: seq<Inode>)
      returns (r1: int, panic: bool)
      requires i < |src| && i' == i + n1 && n1 == ChunkSize(|src| - i) && off == start + i && start < TWO32
      requires |src| < TWO32
      requires Appended(sb, d, ins, disk, inodes, owner, ip, start, src, i)
      modifies this`disk, this`inodes, this`owner, this`logged
      ensures panic ==> Full(sb, disk)
      ensures !panic ==> |logged| <= MAXOPBLOCKS && (r1 == n1 || r1 == -1)
      ensures panic || r1 == -1 || Appended(sb, d, ins, disk, inodes, owner, ip, start, src, i')
      ensures !panic && r1 == -1 ==> disk == old(disk) && inodes == old(inodes) && owner == old(owner)
      ensures !panic && r1 == -1 ==> start > ins[ip].size || start + i' > MAXFILE * BSIZE
      ensures !panic && r1 == -1 ==> !WriteFits(ins[ip].size, start, |src|)
      ensures !panic && r1 == -1 && start > ins[ip].size ==> i == 0
      ensures !panic && r1 != -1 ==> start <= ins[ip].size && start + i' <= MAXFILE * BSIZE
    {
      ghost var d1, ins1, own1 := disk, inodes, owner;
      ChunkFitsTransaction(off, n1);
      ChunkRefused(sb, d, ins, disk, inodes, owner, ip, start, src, i, off);
      logged := {};
      var chunk := src[i..i'];
      assert |chunk| == n1;
      r1, panic := Writei(ip, chunk, off, 0);
      assert logged - {} == logged;
      if !panic && r1 >= 0 {
        AppendChunk(sb, d, ins, d1, ins1, own1, disk, inodes, owner, ip, start, src, i, n1, i', off, chunk);
      }
    }
  }
}
