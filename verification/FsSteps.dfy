/**
 The steps of fs.c as relations between file system values: what an allocation, a
 block write and an iteration of writei keep, change and log.
 */
module FsSteps {
  import opened Collections
  import opened Params
  import opened Bytes
  import opened FsState
  import opened FileBytes

  /** The file of every inode other than i is the same. */
  ghost predicate OthersSame(d: Disk, inodes: seq<Inode>, d': Disk, inodes': seq<Inode>, i: nat)
    requires Sized(d) && Sized(d') && |inodes'| == |inodes|
    requires forall j :: 0 <= j < |inodes| ==> |inodes[j].addrs| == |inodes'[j].addrs| == NDIRECT + 1
  {
    forall j :: 0 <= j < |inodes| && j != i ==>
      inodes'[j] == inodes[j] && FileBlocks(d', inodes'[j]) == FileBlocks(d, inodes[j])
  }

  /** An operation on file i keeps the invariant, every other file, and the inodes on disk. */
  ghost predicate Kept(sb: Super, d: Disk, inodes: seq<Inode>, owner: Owner, d': Disk, inodes': seq<Inode>,
                       owner': Owner, i: nat) {
    && Inv(sb, d, inodes, owner, {}) && Inv(sb, d', inodes', owner', {})
    && OthersSame(d, inodes, d', inodes', i)
    && InodeAreaSame(sb, d, d')
    && (i < |inodes| ==> inodes'[i] == inodes[i].(addrs := inodes'[i].addrs))
  }

  lemma KeptTrans(sb: Super, d: Disk, ins: seq<Inode>, own: Owner, d1: Disk, ins1: seq<Inode>, own1: Owner, d2: Disk,
                  ins2: seq<Inode>, own2: Owner, i: nat)
    requires Kept(sb, d, ins, own, d1, ins1, own1, i) && Kept(sb, d1, ins1, own1, d2, ins2, own2, i)
    ensures Kept(sb, d, ins, own, d2, ins2, own2, i)
  {
  }

  /** Every block is marked used. */
  ghost predicate Full(sb: Super, d: Disk) {
    SuperOk(sb, d) && forall x: nat :: x < sb.size ==> Used(sb, d, x)
  }

  /** The file after a zero block went into address entry k; the indirect block adds nothing to it. */
  ghost function AddrFile(f: Blocks, k: nat): (r: Blocks)
    requires |f| == MAXFILE && k <= NDIRECT
  {
    if k < NDIRECT then f[k := Zeroes()] else f
  }

  /** The file once block bn is mapped. */
  ghost function MapBlock(f: Blocks, bn: nat): (r: Blocks)
    requires bn < |f|
  {
    if f[bn] == [] then f[bn := Zeroes()] else f
  }

  /** 1 when the indirect block was allocated in between. */
  ghost function NewIndirect(ip: Inode, ip': Inode): (r: nat)
    requires |ip.addrs| == |ip'.addrs| == NDIRECT + 1
  {
    if ip.addrs[NDIRECT] == 0 && ip'.addrs[NDIRECT] != 0 then 1 else 0
  }

  /** The indirect block of an inode, if it has one. */
  ghost function Ind(ip: Inode): (r: set<int>)
    requires |ip.addrs| == NDIRECT + 1
  {
    if ip.addrs[NDIRECT] == 0 then {} else {ip.addrs[NDIRECT]}
  }

  /** Only empty address entries were filled. */
  ghost predicate Grew(ip: Inode, ip': Inode) {
    && |ip.addrs| == |ip'.addrs| == NDIRECT + 1
    && forall k :: 0 <= k <= NDIRECT && ip.addrs[k] != 0 ==> ip'.addrs[k] == ip.addrs[k]
  }

  /** A slot holds 0 or a data block; a mapped block of a file is the block its slot names. */
  lemma SlotInRange(sb: Super, d: Disk, ins: seq<Inode>, own: Owner, i: nat, s: nat)
    requires Inv(sb, d, ins, own, {}) && i < |ins| && s <= MAXFILE
    ensures Slot(d, ins[i], s) == 0 || sb.nmeta <= Slot(d, ins[i], s) < sb.size
    ensures s < MAXFILE ==> FileBlock(d, ins[i], s) == if Slot(d, ins[i], s) == 0 then [] else d[Slot(d, ins[i], s)]
  {
  }

  lemma LoggedMore(l0: set<int>, l1: set<int>, l2: set<int>, bits: set<int>, c: int, addr: int, x: int)
    requires l1 <= l0 + bits + {x} && l2 == l1 + {c, addr} + {x}
    ensures l2 <= l0 + (bits + {c}) + {addr} + {x}
    ensures |bits + {c}| <= |bits| + 1
  {
  }

  /** The file after a memmove into the block of byte o. */
  ghost function PutBytes(f: Blocks, o: nat, bytes: seq<int>): (r: Blocks)
    requires o / BSIZE < |f| && o % BSIZE + |bytes| <= |f[o / BSIZE]|
  {
    f[o / BSIZE := Splice(f[o / BSIZE], o % BSIZE, bytes)]
  }

  lemma WriteKept(sb: Super, d: Disk, ins: seq<Inode>, own: Owner, i: nat, bn: nat, v: int, data: Block, d': Disk)
    requires Inv(sb, d, ins, own, {}) && i < |ins| && bn < MAXFILE && v == Slot(d, ins[i], bn) && v != 0
    requires |data| == BSIZE && 0 <= v < |d| && d' == d[v := data]
    ensures Kept(sb, d, ins, own, d', ins, own, i)
    ensures FileBlocks(d', ins[i]) == FileBlocks(d, ins[i])[bn := data]
    ensures d[v] == FileBlocks(d, ins[i])[bn]
  {
    SlotInRange(sb, d, ins, own, i, bn);
    WriteKeeps(sb, d, ins, own, {}, i, bn, data);
  }

  lemma FileBlocksOk(d: Disk, ip: Inode)
    requires Sized(d) && |ip.addrs| == NDIRECT + 1
    ensures BlocksOk(FileBlocks(d, ip))
    ensures Written(FileBlocks(d, ip), FileBlocks(d, ip), 0, 0, [])
  {
  }

  function Ceil(o: nat): (r: nat) {
    (o + BSIZE - 1) / BSIZE
  }

  /**
   What writing bytes lo .. hi has logged: at most one data block per block
   touched, one free map block per block mapped, the indirect block.
   */
  ghost predicate LogBound(l0: set<int>, l: set<int>, data: set<int>, bits: set<int>, ip0: Inode, ip: Inode, lo: nat,
                           hi: nat) {
    && Grew(ip0, ip)
    && l <= l0 + data + bits + Ind(ip)
    && |data| <= Ceil(hi) - lo / BSIZE
    && |bits| <= Ceil(hi) - Ceil(lo) + NewIndirect(ip0, ip)
  }

  /** Where one iteration of writei starts and ends. */
  lemma ChunkRange(off: nat, tot: nat, o: nat, m: nat, n: nat)
    requires tot < n && o == off + tot && off + n <= MAXFILE * BSIZE
    requires m == if n - tot < BSIZE - o % BSIZE then n - tot else BSIZE - o % BSIZE
    ensures o / BSIZE < MAXFILE && o % BSIZE + m <= BSIZE && 0 < m
    ensures tot + m <= n && (tot + m < n ==> (o + m) % BSIZE == 0)
    ensures o / BSIZE * BSIZE <= o && (o % BSIZE != 0 ==> o / BSIZE * BSIZE < o)
  {
    if m == BSIZE - o % BSIZE {
      assert o + m == (o / BSIZE + 1) * BSIZE;
    }
  }

  /** What one iteration of writei did to the file and logged. */
  ghost predicate ChunkDone(d: Disk, ip: Inode, log: set<int>, d': Disk, ip': Inode, log': set<int>, o: nat,
                            bytes: seq<int>, addr: int, more: set<int>) {
    && Sized(d) && Sized(d') && Grew(ip, ip') && o / BSIZE < MAXFILE && o % BSIZE + |bytes| <= BSIZE
    && var f := FileBlocks(d, ip);
       && |MapBlock(f, o / BSIZE)[o / BSIZE]| == BSIZE
       && FileBlocks(d', ip') == PutBytes(MapBlock(f, o / BSIZE), o, bytes)
       && log' <= log + more + {addr} + Ind(ip')
       && |more| <= 1 + NewIndirect(ip, ip')
       && (f[o / BSIZE] != [] ==> more == {})
  }

  /** How far writei has got: the first tot bytes of src are written, and what that logged. */
  ghost predicate Progress(d: Disk, ip: Inode, log: set<int>, d': Disk, ip': Inode, log': set<int>, src: seq<int>,
                           off: nat, tot: nat, data: set<int>, bits: set<int>) {
    && Sized(d) && Sized(d') && Grew(ip, ip')
    && Written(FileBlocks(d, ip), FileBlocks(d', ip'), off, off + tot, src)
    && LogBound(log, log', data, bits, ip, ip', off, off + tot)
    && (tot == 0 ==> data == {})
    && (0 < tot < |src| ==> (off + tot) % BSIZE == 0)
  }

  lemma ProgressStart(d: Disk, ip: Inode, log: set<int>, src: seq<int>, off: nat)
    requires Sized(d) && |ip.addrs| == NDIRECT + 1
    ensures Progress(d, ip, log, d, ip, log, src, off, 0, {}, {})
  {
  }

  /** Mapping the block of byte o and copying bytes into it. */
  lemma ChunkWritten(f0: Blocks, f: Blocks, lo: nat, tot: nat, o: nat, m: nat, src: seq<int>)
    requires Written(f0, f, lo, o, src) && o / BSIZE < |f| && o == lo + tot
    requires 0 < m && tot + m <= |src| && o % BSIZE + m <= BSIZE
    ensures Written(f0, PutBytes(MapBlock(f, o / BSIZE), o, src[tot..tot + m]), lo, o + m, src)
  {
    var g := MapBlock(f, o / BSIZE);
    if f[o / BSIZE] == [] {
      WrittenMap(f0, f, lo, o, src, o / BSIZE, Zeroes());
    }
    WrittenStep(f0, g, lo, o, m, src, PutBytes(g, o, src[tot..tot + m]));
  }

  /** A block that holds a byte below size stays mapped. */
  lemma StillMapped(f0: Blocks, f: Blocks, size: nat, lo: nat, o: nat, src: seq<int>)
    requires Written(f0, f, lo, o, src) && Mapped(f0, size) && o / BSIZE < |f| && o / BSIZE * BSIZE < size
    ensures f[o / BSIZE] != []
  {
    assert Has(f0, o) && Has(f, o);
  }

  /** While writei is inside the file, the block it comes to is mapped. */
  lemma SlotMapped(sb: Super, d0: Disk, ip0: Inode, log0: set<int>, d: Disk, ins: seq<Inode>, own: Owner, log: set<int>,
                   i: nat, src: seq<int>, off: nat, tot: nat, o: nat, data: set<int>, bits: set<int>)
    requires Inv(sb, d, ins, own, {}) && i < |ins|
    requires Progress(d0, ip0, log0, d, ins[i], log, src, off, tot, data, bits) && o == off + tot
    requires Mapped(FileBlocks(d0, ip0), ip0.size) && o < ip0.size && o / BSIZE < MAXFILE && o / BSIZE * BSIZE <= o
    ensures Slot(d, ins[i], o / BSIZE) != 0
  {
    StillMapped(FileBlocks(d0, ip0), FileBlocks(d, ins[i]), ip0.size, off, o, src);
    SlotInRange(sb, d, ins, own, i, o / BSIZE);
  }

  lemma ChunkLogged(l0: set<int>, l1: set<int>, l2: set<int>, data: set<int>, bits: set<int>, addr: int, more: set<int>,
                    ip0: Inode, ip1: Inode, ip2: Inode, lo: nat, o: nat, m: nat)
    requires LogBound(l0, l1, data, bits, ip0, ip1, lo, o)
    requires 0 < m && o % BSIZE + m <= BSIZE
    requires Grew(ip1, ip2) && |more| <= 1 + NewIndirect(ip1, ip2) && l2 <= l1 + more + {addr} + Ind(ip2)
    requires o % BSIZE != 0 ==> o == lo && data == {} && more == {}
    ensures LogBound(l0, l2, data + {addr}, bits + more, ip0, ip2, lo, o + m)
  {
    CeilStep(o, m);
    assert |bits + more| <= |bits| + |more|;
  }

  lemma ProgressStep(d: Disk, ip: Inode, log: set<int>, d1: Disk, ip1: Inode, log1: set<int>, d2: Disk, ip2: Inode,
                     log2: set<int>, src: seq<int>, off: nat, tot: nat, o: nat, m: nat, tot': nat, data: set<int>,
                     bits: set<int>, addr: int, more: set<int>)
    requires Progress(d, ip, log, d1, ip1, log1, src, off, tot, data, bits)
    requires tot' == tot + m <= |src| && o == off + tot && o % BSIZE + m <= BSIZE && 0 < m
    requires (tot + m < |src| ==> (o + m) % BSIZE == 0)
    requires o / BSIZE * BSIZE <= o && (o % BSIZE != 0 ==> o / BSIZE * BSIZE < o)
    requires Mapped(FileBlocks(d, ip), ip.size) && off <= ip.size
    requires ChunkDone(d1, ip1, log1, d2, ip2, log2, o, src[tot..tot + m], addr, more)
    ensures Progress(d, ip, log, d2, ip2, log2, src, off, tot', data + {addr}, bits + more)
  {
    var f0, f := FileBlocks(d, ip), FileBlocks(d1, ip1);
    ChunkWritten(f0, f, off, tot, o, m, src);
    if o / BSIZE * BSIZE < ip.size {
      StillMapped(f0, f, ip.size, off, o, src);
    }
    ChunkLogged(log, log1, log2, data, bits, addr, more, ip, ip1, ip2, off, o, m);
  }

  lemma CeilStep(o: nat, m: nat)
    requires 0 < m && o % BSIZE + m <= BSIZE
    ensures Ceil(o + m) == o / BSIZE + 1
    ensures Ceil(o) == if o % BSIZE == 0 then o / BSIZE else o / BSIZE + 1
  {
  }

  lemma AllocAddrKept(sb: Super, d: Disk, ins: seq<Inode>, own: Owner, e: Disk, i: nat, k: nat, b: int)
    requires Inv(sb, d, ins, own, {}) && Alloc(sb, d, e, b) && InodeAreaSame(sb, d, e)
    requires i < |ins| && k <= NDIRECT && ins[i].addrs[k] == 0
    ensures Kept(sb, d, ins, own, e, ins[i := WithAddr(ins[i], k, b)], own[b := (i, AddrSlot(k))], i)
    ensures FileBlocks(e, WithAddr(ins[i], k, b)) == AddrFile(FileBlocks(d, ins[i]), k)
  {
    AllocKeeps(sb, d, e, ins, own, {}, b);
    LinkAddr(sb, e, ins, own, {b}, i, k, b);
    assert {} + {b} == {b} && {b} - {b} == {};
  }

  /** balloc leaves an empty slot empty. */
  lemma AllocSlot(sb: Super, d: Disk, ins: seq<Inode>, own: Owner, e: Disk, i: nat, s: nat, b: int)
    requires Inv(sb, d, ins, own, {}) && Alloc(sb, d, e, b) && i < |ins| && s <= MAXFILE
    ensures Slot(e, ins[i], s) == Slot(d, ins[i], s)
  {
    SameFile(d, e, ins[i]);
  }

  lemma AllocIndirectKept(sb: Super, d: Disk, ins: seq<Inode>, own: Owner, e: Disk, i: nat, bn: nat, b: int, x: int,
                          e': Disk)
    requires Inv(sb, d, ins, own, {}) && Alloc(sb, d, e, b) && InodeAreaSame(sb, d, e)
    requires i < |ins| && NDIRECT <= bn < MAXFILE && x == ins[i].addrs[NDIRECT] && Slot(d, ins[i], bn) == 0
    requires 0 < x < |d| && e' == PutIndirect(e, x, bn, b)
    ensures Kept(sb, d, ins, own, e', ins, own[b := (i, bn)], i)
    ensures FileBlocks(e', ins[i]) == FileBlocks(d, ins[i])[bn := Zeroes()]
    ensures Slot(e', ins[i], bn) == b
  {
    assert Slot(d, ins[i], MAXFILE) == x;
    assert x >= sb.nmeta;
    assert forall y :: 0 <= y < sb.bmapstart ==> e'[y] == e[y];
    AllocKeeps(sb, d, e, ins, own, {}, b);
    AllocSlot(sb, d, ins, own, e, i, bn, b);
    assert {} + {b} == {b} && {b} - {b} == {};
    LinkIndirect(sb, e, ins, own, {b}, i, bn, b, e');
    PutIndirectSlots(e, ins[i], bn, b);
  }

  // ----- bits of the free map -----

  function PutBit(d: Disk, v: nat, y: nat, x: int): (d': Disk)
    requires v < |d| && y < |d[v]|
    ensures |d'| == |d| && (Sized(d) ==> Sized(d'))
    ensures forall u :: 0 <= u < |d| && u != v ==> d'[u] == d[u]
  {
    d[v := d[v][y := x]]
  }

  lemma SetAt(d: Disk, v: nat, y: nat, t: nat, u: nat, z: nat, w: nat)
    requires v < |d| && y < |d[v]| && u < |d| && z < |d[u]|
    ensures Bit(PutBit(d, v, y, SetBit(d[v][y], t))[u][z], w) == ((u == v && z == y && w == t) || Bit(d[u][z], w))
  {
  }

  lemma ClearAt(d: Disk, v: nat, y: nat, t: nat, u: nat, z: nat, w: nat)
    requires v < |d| && y < |d[v]| && u < |d| && z < |d[u]|
    ensures Bit(PutBit(d, v, y, ClearBit(d[v][y], t))[u][z], w) == (!(u == v && z == y && w == t) && Bit(d[u][z], w))
  {
  }

  lemma SameBit(x: nat, b: nat)
    ensures x / BPB == b / BPB && (x % BPB) / 8 == (b % BPB) / 8 && (x % BPB) % 8 == (b % BPB) % 8 <==> x == b
  {
  }

  lemma NextBlock(b: nat)
    requires b % BPB == 0
    ensures (b + BPB) % BPB == 0
  {
  }

  lemma BitRange(sb: Super, d: Disk, b: nat)
    requires SuperOk(sb, d) && b < sb.size
    ensures InMap(sb, BBlock(sb, b)) && BBlock(sb, b) < sb.nmeta <= |d| && (b % BPB) / 8 < BSIZE
  {
  }

  /** Where balloc's loops look for the bit of block b + bi. */
  lemma UsedHere(sb: Super, d: Disk, b: nat, bi: nat, bp: Block)
    requires SuperOk(sb, d) && b % BPB == 0 && bi < BPB && b + bi < sb.size
    requires BBlock(sb, b) < |d| && bp == d[BBlock(sb, b)]
    ensures BBlock(sb, b + bi) == BBlock(sb, b) && (b + bi) % BPB == bi && bi / 8 < |bp|
    ensures Used(sb, d, b + bi) == Bit(bp[bi / 8], bi % 8)
  {
  }

  /** Block x has its bit at bit w of byte z of block u. */
  predicate BitAt(sb: Super, x: nat, u: nat, z: nat, w: nat) {
    u == BBlock(sb, x) && z == (x % BPB) / 8 && w == (x % BPB) % 8
  }

  lemma BitsApart(sb: Super, d: Disk, x: nat, u: nat, z: nat, w: nat, b: nat, v: nat, y: nat, t: nat)
    requires SuperOk(sb, d) && x < sb.size && b < sb.size && BitAt(sb, x, u, z, w) && BitAt(sb, b, v, y, t)
    ensures u < |d| && v < |d| && z < BSIZE && y < BSIZE
    ensures u == v && z == y && w == t <==> x == b
  {
    BitRange(sb, d, x);
    BitRange(sb, d, b);
    SameBit(x, b);
  }

  lemma PutBitOk(sb: Super, d: Disk, b: nat, v: nat, y: nat, t: nat, c: int)
    requires SuperOk(sb, d) && b < sb.size && BitAt(sb, b, v, y, t)
    ensures v < |d| && y < |d[v]| && SuperOk(sb, PutBit(d, v, y, c))
  {
    BitRange(sb, d, b);
  }

  lemma SetUsedAt(sb: Super, d: Disk, b: nat, v: nat, y: nat, t: nat, x: nat, u: nat, z: nat, w: nat)
    requires SuperOk(sb, d) && b < sb.size && x < sb.size && BitAt(sb, b, v, y, t) && BitAt(sb, x, u, z, w)
    ensures v < |d| && y < |d[v]|
    ensures var d' := PutBit(d, v, y, SetBit(d[v][y], t));
            SuperOk(sb, d') && (Used(sb, d', x) <==> Used(sb, d, x) || x == b)
  {
    BitsApart(sb, d, x, u, z, w, b, v, y, t);
    PutBitOk(sb, d, b, v, y, t, SetBit(d[v][y], t));
    SetAt(d, v, y, t, u, z, w);
  }

  lemma ClearUsedAt(sb: Super, d: Disk, b: nat, v: nat, y: nat, t: nat, x: nat, u: nat, z: nat, w: nat)
    requires SuperOk(sb, d) && b < sb.size && x < sb.size && BitAt(sb, b, v, y, t) && BitAt(sb, x, u, z, w)
    ensures v < |d| && y < |d[v]|
    ensures var d' := PutBit(d, v, y, ClearBit(d[v][y], t));
            SuperOk(sb, d') && (Used(sb, d', x) <==> Used(sb, d, x) && x != b)
  {
    BitsApart(sb, d, x, u, z, w, b, v, y, t);
    PutBitOk(sb, d, b, v, y, t, ClearBit(d[v][y], t));
    ClearAt(d, v, y, t, u, z, w);
  }

  /** Setting the bit of b marks b and nothing else. */
  lemma SetUsed(sb: Super, d: Disk, b: nat, v: nat, y: nat, t: nat, d': Disk)
    requires SuperOk(sb, d) && b < sb.size && BitAt(sb, b, v, y, t) && v < |d| && y < |d[v]|
    requires d' == PutBit(d, v, y, SetBit(d[v][y], t))
    ensures SuperOk(sb, d')
    ensures forall x: nat :: x < sb.size ==> (Used(sb, d', x) <==> Used(sb, d, x) || x == b)
  {
    PutBitOk(sb, d, b, v, y, t, SetBit(d[v][y], t));
    forall x: nat | x < sb.size
      ensures Used(sb, d', x) <==> Used(sb, d, x) || x == b
    {
      SetUsedAt(sb, d, b, v, y, t, x, BBlock(sb, x), (x % BPB) / 8, (x % BPB) % 8);
    }
  }

  /** Clearing the bit of b frees b and nothing else. */
  lemma ClearUsed(sb: Super, d: Disk, b: nat, v: nat, y: nat, t: nat, d': Disk)
    requires SuperOk(sb, d) && b < sb.size && BitAt(sb, b, v, y, t) && v < |d| && y < |d[v]|
    requires d' == PutBit(d, v, y, ClearBit(d[v][y], t))
    ensures SuperOk(sb, d')
    ensures forall x: nat :: x < sb.size ==> (Used(sb, d', x) <==> Used(sb, d, x) && x != b)
  {
    PutBitOk(sb, d, b, v, y, t, ClearBit(d[v][y], t));
    forall x: nat | x < sb.size
      ensures Used(sb, d', x) <==> Used(sb, d, x) && x != b
    {
      ClearUsedAt(sb, d, b, v, y, t, x, BBlock(sb, x), (x % BPB) / 8, (x % BPB) % 8);
    }
  }

  // ----- between operations -----

  /** Inode i between operations: every block below size is mapped and the disk holds the same inode. */
  ghost predicate InodeGood(sb: Super, d: Disk, ins: seq<Inode>, i: nat)
    requires SuperOk(sb, d) && InodesOk(sb, ins) && i < |ins|
  {
    && WordSized(ins[i])
    && Mapped(FileBlocks(d, ins[i]), ins[i].size)
    && Synced(sb, d, ins, i)
  }

  /** The file system between operations. */
  ghost predicate Good(sb: Super, d: Disk, ins: seq<Inode>, own: Owner) {
    && Inv(sb, d, ins, own, {})
    && forall i :: 0 <= i < |ins| ==> InodeGood(sb, d, ins, i)
  }

  /** The bytes of a file. */
  ghost function File(d: Disk, ip: Inode): (c: seq<int>)
    requires Sized(d) && |ip.addrs| == NDIRECT + 1
    ensures |c| == ip.size
  {
    Contents(FileBlocks(d, ip), ip.size)
  }

  // ----- a blank image -----

  const BLANK_INODE := Inode(0, 0, 0, [0, 0, 0, 0, 0, 0, 0, 0, 0, 0, 0, 0, 0])

  /** Only the metadata blocks are marked used, and every inode on disk is zero. */
  ghost predicate Blank(sb: Super, d: Disk) {
    && SuperOk(sb, d)
    && (forall b: nat :: b < sb.size ==> (Used(sb, d, b) <==> b < sb.nmeta))
    && forall i: nat :: i < sb.ninodes ==> DiskInode(sb, d, i) == InodeWords(BLANK_INODE)
  }

  lemma BlankGood(sb: Super, d: Disk, ins: seq<Inode>)
    requires Blank(sb, d) && |ins| == sb.ninodes && forall i :: 0 <= i < |ins| ==> ins[i] == BLANK_INODE
    ensures Good(sb, d, ins, map[]) && forall i :: 0 <= i < |ins| ==> File(d, ins[i]) == []
  {
    assert forall s: nat :: s <= MAXFILE ==> Slot(d, BLANK_INODE, s) == 0;
    forall i: nat | i < |ins|
      ensures InodeGood(sb, d, ins, i) && File(d, ins[i]) == []
    {
      assert DiskInode(sb, d, i) == InodeWords(ins[i]);
    }
  }

  lemma ZeroInode(z: Block)
    requires z == Zeroes()
    ensures InodeIn(z, 0) == InodeWords(BLANK_INODE)
  {
    forall k: nat | k < 16
      ensures InodeIn(z, 0)[k] == 0
    {
      ZeroWord(k);
    }
  }

  lemma FourBits(b: nat)
    requires b < 5
    ensures Bit(15, b) <==> b < 4
  {
    assert Bit(15, 0) && Bit(15, 1) && Bit(15, 2) && Bit(15, 3) && !Bit(15, 4);
  }

  lemma ImageOk(sb: Super, d: Disk, z: Block, m: Block)
    requires sb == Super(5, 1, 2, 3, 4) && d == [z, z, z, m, z] && |z| == BSIZE && |m| == BSIZE
    ensures SuperOk(sb, d) && d[3] == m && DiskInode(sb, d, 0) == InodeIn(z, 0)
  {
    assert sb.ninodes / IPB == 0 && sb.size / BPB == 0;
    assert d[2] == z;
  }

  lemma SmallBit(sb: Super, d: Disk, b: nat, m: Block)
    requires SuperOk(sb, d) && b < sb.size && b < 8 && m == d[sb.bmapstart]
    ensures Used(sb, d, b) <==> Bit(m[0], b)
  {
    assert b / BPB == 0 && b % BPB == b;
  }

  /** The smallest image: boot block, superblock, one inode block, one free map block, one data block. */
  lemma BlankImage() returns (sb: Super, d: Disk)
    ensures Blank(sb, d) && sb.ninodes > 0 && sb.nmeta < sb.size
  {
    var z := Zeroes();
    var m := z[0 := 15];
    sb, d := Super(5, 1, 2, 3, 4), [z, z, z, m, z];
    ImageOk(sb, d, z, m);
    forall b: nat | b < 5
      ensures Used(sb, d, b) <==> b < 4
    {
      FourBits(b);
      SmallBit(sb, d, b, m);
    }
    ZeroInode(z);
  }

  /** An operation on file i keeps all other inodes good. */
  lemma KeptOthersGood(sb: Super, d: Disk, ins: seq<Inode>, own: Owner, d': Disk, ins': seq<Inode>, own': Owner, i: nat)
    requires Good(sb, d, ins, own) && Kept(sb, d, ins, own, d', ins', own', i)
    ensures forall j :: 0 <= j < |ins| && j != i ==> InodeGood(sb, d', ins', j)
  {
    InodeAreaSameInodes(sb, d, d');
    forall j | 0 <= j < |ins| && j != i
      ensures InodeGood(sb, d', ins', j)
    {
      assert InodeGood(sb, d, ins, j);
    }
  }

  /** A write that stays inside the file: no inode changes, so none needs iupdate. */
  lemma WriteInside(sb: Super, d: Disk, ins: seq<Inode>, own: Owner, d': Disk, own': Owner, i: nat, off: nat,
                    src: seq<int>)
    requires Good(sb, d, ins, own) && Kept(sb, d, ins, own, d', ins, own', i) && i < |ins|
    requires Written(FileBlocks(d, ins[i]), FileBlocks(d', ins[i]), off, off + |src|, src) && off + |src| <= ins[i].size
    ensures Good(sb, d', ins, own')
    ensures File(d', ins[i]) == Overwrite(File(d, ins[i]), off, src)
  {
    KeptOthersGood(sb, d, ins, own, d', ins, own', i);
    InodeAreaSameInodes(sb, d, d');
    assert InodeGood(sb, d, ins, i);
    FileBlocksOk(d, ins[i]);
    WrittenIsOverwrite(FileBlocks(d, ins[i]), FileBlocks(d', ins[i]), ins[i].size, off, src);
  }

  function WithSize(ip: Inode, n: nat): (r: Inode) {
    ip.(size := n)
  }

  /** The size of an inode plays no part in its slots. */
  lemma SizeKeeps(sb: Super, d: Disk, ins: seq<Inode>, own: Owner, i: nat, n: nat)
    requires Inv(sb, d, ins, own, {}) && i < |ins|
    ensures Inv(sb, d, ins[i := WithSize(ins[i], n)], own, {})
    ensures FileBlocks(d, WithSize(ins[i], n)) == FileBlocks(d, ins[i])
  {
    var ip := WithSize(ins[i], n);
    assert forall s: nat :: s <= MAXFILE ==> Slot(d, ip, s) == Slot(d, ins[i], s);
    assert forall bn :: 0 <= bn < MAXFILE ==> FileBlock(d, ip, bn) == FileBlock(d, ins[i], bn);
  }

  /** iupdate of inode i after its other fields changed: the disk holds it, and nothing else changes. */
  lemma UpdateGood(sb: Super, d: Disk, ins: seq<Inode>, own: Owner, i: nat, d': Disk)
    requires Inv(sb, d, ins, own, {}) && i < |ins| && WordSized(ins[i])
    requires d' == PutInode(sb, d, i, ins[i])
    ensures Inv(sb, d', ins, own, {}) && Synced(sb, d', ins, i)
    ensures forall j :: 0 <= j < |ins| ==> FileBlocks(d', ins[j]) == FileBlocks(d, ins[j])
    ensures forall j :: 0 <= j < |ins| && j != i && InodeGood(sb, d, ins, j) ==> InodeGood(sb, d', ins, j)
  {
    IBlockRange(sb, d, i);
    MetaWriteKeeps(sb, d, d', ins, own, {}, IBlock(sb, i));
    forall j: nat | j < |ins|
      ensures DiskInode(sb, d', j) == if j == i then InodeWords(ins[i]) else DiskInode(sb, d, j)
    {
      PutInodeRead(sb, d, i, ins[i], j);
    }
  }

  /** The address entries of an inode fit a disk word. */
  lemma AddrsWordSized(sb: Super, d: Disk, ins: seq<Inode>, own: Owner, i: nat, old_ip: Inode)
    requires Inv(sb, d, ins, own, {}) && i < |ins| && WordSized(old_ip)
    requires ins[i].kind == old_ip.kind && ins[i].links == old_ip.links && ins[i].size < TWO32
    ensures WordSized(ins[i])
  {
    forall k | 0 <= k <= NDIRECT
      ensures 0 <= ins[i].addrs[k] < TWO32
    {
      assert Slot(d, ins[i], AddrSlot(k)) == ins[i].addrs[k];
    }
  }

  /** A write past the end: after the size update and iupdate the file is the overwritten one and all is good again. */
  lemma WriteGrows(sb: Super, d: Disk, ins: seq<Inode>, own: Owner, d1: Disk, ins1: seq<Inode>, own1: Owner, i: nat,
                   off: nat, src: seq<int>, ins2: seq<Inode>, d2: Disk)
    requires Good(sb, d, ins, own) && Kept(sb, d, ins, own, d1, ins1, own1, i) && i < |ins|
    requires Written(FileBlocks(d, ins[i]), FileBlocks(d1, ins1[i]), off, off + |src|, src)
    requires off <= ins[i].size < off + |src| <= MAXFILE * BSIZE
    requires ins2 == ins1[i := WithSize(ins1[i], off + |src|)] && d2 == PutInode(sb, d1, i, ins2[i])
    ensures Good(sb, d2, ins2, own1) && OthersSame(d, ins, d2, ins2, i)
    ensures File(d2, ins2[i]) == Overwrite(File(d, ins[i]), off, src)
  {
    assert InodeGood(sb, d, ins, i);
    SizeKeeps(sb, d1, ins1, own1, i, off + |src|);
    KeptOthersGood(sb, d, ins, own, d1, ins1, own1, i);
    AddrsWordSized(sb, d1, ins2, own1, i, ins[i]);
    UpdateGood(sb, d1, ins2, own1, i, d2);
    FileBlocksOk(d, ins[i]);
    WrittenIsOverwrite(FileBlocks(d, ins[i]), FileBlocks(d1, ins1[i]), ins[i].size, off, src);
    forall j | 0 <= j < |ins| && j != i
      ensures InodeGood(sb, d2, ins2, j)
    {
      assert InodeGood(sb, d1, ins1, j);
      assert InodeGood(sb, d1, ins2, j);
    }
  }

  /** The request writei accepts: it starts inside the file or at its end and stays below the largest file. */
  predicate WriteFits(size: nat, off: nat, n: nat) {
    off <= size && off + n <= MAXFILE * BSIZE
  }

  /** The two 32-bit guards of writei let exactly those requests through, also when off + n wraps around. */
  lemma WriteGuards(size: nat, off: nat, n: nat)
    requires size <= MAXFILE * BSIZE && off < TWO32 && n < TWO32
    ensures WriteFits(size, off, n) <==>
              !(off > size || (off + n) % TWO32 < off) && (off + n) % TWO32 <= MAXFILE * BSIZE
  {
  }

  /** Most blocks one writei of bytes lo .. hi can log. */
  function MaxLogged(lo: nat, hi: nat): (r: int) {
    Ceil(hi) - lo / BSIZE + (Ceil(hi) - Ceil(lo)) + 3
  }

  lemma LogTotal(l0: set<int>, l: set<int>, data: set<int>, bits: set<int>, ip0: Inode, ip: Inode, lo: nat, hi: nat,
                 ib: int)
    requires LogBound(l0, l, data, bits, ip0, ip, lo, hi)
    ensures |(l + {ib}) - l0| <= MaxLogged(lo, hi) && |l - l0| <= MaxLogged(lo, hi)
  {
    var all := data + bits + Ind(ip) + {ib};
    assert |all| <= |data| + |bits| + |Ind(ip)| + 1;
    SubsetSize((l + {ib}) - l0, all);
    SubsetSize(l - l0, all);
  }

  /** The end of writei: the inode goes to disk exactly when the file grew. */
  ghost predicate Closed(sb: Super, d1: Disk, ins1: seq<Inode>, log1: set<int>, d2: Disk, ins2: seq<Inode>,
                         log2: set<int>, i: nat, end: nat, n: nat)
    requires SuperOk(sb, d1) && InodesOk(sb, ins1) && i < |ins1|
  {
    if n > 0 && end > ins1[i].size then
      ins2 == ins1[i := WithSize(ins1[i], end)] && d2 == PutInode(sb, d1, i, ins2[i]) && log2 == log1 + {IBlock(sb, i)}
    else
      d2 == d1 && ins2 == ins1 && log2 == log1
  }

  /** Everything writei promises, from what its loop leaves. */
  lemma WriteEnd(sb: Super, d: Disk, ins: seq<Inode>, own: Owner, log: set<int>, d1: Disk, ins1: seq<Inode>,
                 own1: Owner, log1: set<int>, d2: Disk, ins2: seq<Inode>, log2: set<int>, i: nat, off: nat,
                 src: seq<int>, data: set<int>, bits: set<int>)
    requires i < |ins| && WriteFits(ins[i].size, off, |src|)
    requires Good(sb, d, ins, own)
    requires Kept(sb, d, ins, own, d1, ins1, own1, i)
    requires Progress(d, ins[i], log, d1, ins1[i], log1, src, off, |src|, data, bits)
    requires off + |src| <= ins[i].size ==> ins1 == ins
    requires Closed(sb, d1, ins1, log1, d2, ins2, log2, i, off + |src|, |src|)
    ensures Good(sb, d2, ins2, own1)
    ensures |ins2| == |ins| && OthersSame(d, ins, d2, ins2, i)
    ensures File(d2, ins2[i]) == Overwrite(File(d, ins[i]), off, src)
    ensures ins2[i].kind == ins[i].kind && ins2[i].links == ins[i].links
    ensures |log2 - log| <= MaxLogged(off, off + |src|)
  {
    LogTotal(log, log1, data, bits, ins[i], ins1[i], off, off + |src|, IBlock(sb, i));
    if |src| > 0 && off + |src| > ins1[i].size {
      WriteGrows(sb, d, ins, own, d1, ins1, own1, i, off, src, ins2, d2);
    } else {
      WriteInside(sb, d, ins, own, d1, own1, i, off, src);
    }
  }

  /** A filewrite chunk, from any offset, stays within MAXOPBLOCKS. */
  lemma ChunkFitsTransaction(lo: nat, n: nat)
    requires n <= (MAXOPBLOCKS - 1 - 1 - 2) / 2 * 512
    ensures MaxLogged(lo, lo + n) <= MAXOPBLOCKS
  {
  }

  // ----- readi -----

  /** A slice of c made longer by m elements that b has from x on. */
  lemma LongerSlice(c: seq<int>, b: seq<int>, off: nat, o: nat, m: nat, o': nat, x: nat)
    requires off <= o && o' == o + m <= |c| && x + m <= |b| && forall p :: o <= p < o' ==> c[p] == b[x + (p - o)]
    ensures c[off..o] + b[x..x + m] == c[off..o']
  {
    var l, r := c[off..o] + b[x..x + m], c[off..o'];
    assert |l| == |r|;
    forall i | 0 <= i < |l|
      ensures l[i] == r[i]
    {
      if i >= o - off {
        assert c[off + i] == b[x + (off + i - o)];
      }
    }
  }

  lemma ReadStep(f: Blocks, size: nat, off: nat, o: nat, m: nat, o': nat)
    requires Mapped(f, size) && off <= o && o' == o + m <= size && 0 < m && o % BSIZE + m <= BSIZE
    ensures Has(f, o)
    ensures Contents(f, size)[off..o] + f[o / BSIZE][o % BSIZE..o % BSIZE + m] == Contents(f, size)[off..o']
  {
    assert o / BSIZE * BSIZE <= o;
    assert Has(f, o);
    var c, b, x := Contents(f, size), f[o / BSIZE], o % BSIZE;
    forall p | o <= p < o'
      ensures c[p] == b[x + (p - o)]
    {
      assert p / BSIZE == o / BSIZE && p % BSIZE == x + (p - o);
      assert Has(f, p);
    }
    LongerSlice(c, b, off, o, m, o', x);
  }

  // ----- itrunc -----

  /** Slots hold distinct blocks, so freeing one slot's block leaves the later ones. */
  lemma SlotsFromStep(sb: Super, d: Disk, ins: seq<Inode>, own: Owner, i: nat, s: nat)
    requires Inv(sb, d, ins, own, {}) && i < |ins| && s < MAXFILE
    ensures SlotsFrom(d, ins[i], s + 1)
         == if Slot(d, ins[i], s) == 0 then SlotsFrom(d, ins[i], s) else SlotsFrom(d, ins[i], s) - {Slot(d, ins[i], s)}
  {
    var ip := ins[i];
    forall t: nat | t <= MAXFILE && t != s && Slot(d, ip, t) != 0
      ensures Slot(d, ip, t) != Slot(d, ip, s)
    {
    }
  }

  lemma SlotsFromLast(d: Disk, ip: Inode)
    requires Sized(d) && |ip.addrs| == NDIRECT + 1 && ip.addrs[NDIRECT] != 0
    ensures SlotsFrom(d, ip, MAXFILE) == {ip.addrs[NDIRECT]}
  {
    assert Slot(d, ip, MAXFILE) == ip.addrs[NDIRECT];
  }

  /** Only the free map differs. */
  ghost predicate MapOnly(sb: Super, d: Disk, d': Disk) {
    |d'| == |d| && forall x :: 0 <= x < |d| && !InMap(sb, x) ==> d'[x] == d[x]
  }

  /** Inode i after its first k address entries were released. */
  ghost predicate Released(ip: Inode, ip': Inode, k: nat) {
    && |ip.addrs| == |ip'.addrs| == NDIRECT + 1 && k <= NDIRECT
    && ip' == ip.(addrs := ip'.addrs)
    && (forall n :: 0 <= n < k ==> ip'.addrs[n] == 0)
    && (forall n :: k <= n <= NDIRECT ==> ip'.addrs[n] == ip.addrs[n])
  }

  /** The registered blocks once those in slots of i below s are gone. */
  ghost predicate OwnersFrom(own: Owner, own': Owner, i: nat, s: nat) {
    && (forall b :: b in own' <==> b in own && !(own[b].0 == i && own[b].1 < s))
    && (forall b :: b in own' ==> own'[b] == own[b])
  }

  /** How far itrunc has got with the direct blocks. */
  ghost predicate TruncDirect(sb: Super, d: Disk, ins: seq<Inode>, own: Owner, d': Disk, ins': seq<Inode>,
                              own': Owner, i: nat, k: nat) {
    && Kept(sb, d, ins, own, d', ins', own', i) && i < |ins|
    && MapOnly(sb, d, d')
    && Released(ins[i], ins'[i], k)
    && OwnersFrom(own, own', i, k)
  }

  /** bfree of direct block k, then clearing the entry. */
  lemma ReleaseDirect(sb: Super, d: Disk, ins: seq<Inode>, own: Owner, d1: Disk, ins1: seq<Inode>, own1: Owner,
                      i: nat, k: nat, x: int, d2: Disk)
    requires TruncDirect(sb, d, ins, own, d1, ins1, own1, i, k) && k < NDIRECT
    requires x == ins1[i].addrs[k] && x != 0 && Free(sb, d1, d2, x) && InodeAreaSame(sb, d1, d2)
    ensures TruncDirect(sb, d, ins, own, d2, ins1[i := WithAddr(ins1[i], k, 0)], own1 - {x}, i, k + 1)
  {
    var ins2 := ins1[i := WithAddr(ins1[i], k, 0)];
    UnlinkDirect(sb, d1, ins1, own1, {}, i, k);
    assert {} + {x} == {x} && {x} - {x} == {};
    FreeKeeps(sb, d1, d2, ins2, own1 - {x}, {x}, x);
    assert own1[x] == (i, k);
    forall b | b in own1 && b != x && own1[b].0 == i
      ensures own1[b].1 != k
    {
      assert Slot(d1, ins1[i], own1[b].1) == b && Slot(d1, ins1[i], k) == x;
    }
  }

  /** An empty direct entry needs no release. */
  lemma SkipDirect(sb: Super, d: Disk, ins: seq<Inode>, own: Owner, d1: Disk, ins1: seq<Inode>, own1: Owner, i: nat,
                   k: nat)
    requires TruncDirect(sb, d, ins, own, d1, ins1, own1, i, k) && k < NDIRECT && ins1[i].addrs[k] == 0
    ensures TruncDirect(sb, d, ins, own, d1, ins1, own1, i, k + 1)
  {
    forall b | b in own1 && own1[b].0 == i
      ensures own1[b].1 != k
    {
      assert Slot(d1, ins1[i], own1[b].1) == b && Slot(d1, ins1[i], k) == 0;
    }
  }

  /**
   How far itrunc has got with the indirect blocks of file i: those from slot s on
   are still marked used, although the inode ins2[i] no longer has an indirect block.
   */
  ghost predicate TruncIndirect(sb: Super, d: Disk, ip: Inode, d': Disk, ins2: seq<Inode>, own2: Owner, s: nat) {
    && Sized(d) && |ip.addrs| == NDIRECT + 1
    && Inv(sb, d', ins2, own2, SlotsFrom(d, ip, s))
    && MapOnly(sb, d, d') && InodeAreaSame(sb, d, d')
    && forall j :: 0 <= j < |ins2| ==> FileBlocks(d', ins2[j]) == FileBlocks(d, ins2[j])
  }

  lemma IndirectStart(sb: Super, d: Disk, ins: seq<Inode>, own: Owner, i: nat)
    requires Inv(sb, d, ins, own, {}) && i < |ins| && ins[i].addrs[NDIRECT] != 0
    ensures TruncIndirect(sb, d, ins[i], d, ins[i := WithAddr(ins[i], NDIRECT, 0)],
                          own - SlotsFrom(d, ins[i], NDIRECT), NDIRECT)
  {
    UnlinkIndirect(sb, d, ins, own, {}, i);
    var gone := SlotsFrom(d, ins[i], NDIRECT);
    assert {} + gone == gone;
  }

  /** bfree of the block in slot s, or nothing when the slot is empty. */
  lemma IndirectStep(sb: Super, d: Disk, ins: seq<Inode>, own: Owner, i: nat, d1: Disk, ins2: seq<Inode>, own2: Owner,
                     s: nat, d2: Disk)
    requires Inv(sb, d, ins, own, {}) && i < |ins| && s < MAXFILE
    requires TruncIndirect(sb, d, ins[i], d1, ins2, own2, s)
    requires if Slot(d, ins[i], s) == 0 then d2 == d1
             else Free(sb, d1, d2, Slot(d, ins[i], s)) && InodeAreaSame(sb, d1, d2)
    ensures TruncIndirect(sb, d, ins[i], d2, ins2, own2, s + 1)
  {
    SlotsFromStep(sb, d, ins, own, i, s);
    if Slot(d, ins[i], s) != 0 {
      FreeKeeps(sb, d1, d2, ins2, own2, SlotsFrom(d, ins[i], s), Slot(d, ins[i], s));
    }
  }

  /** bfree of the indirect block itself. */
  lemma IndirectEnd(sb: Super, d: Disk, ip: Inode, d1: Disk, ins2: seq<Inode>, own2: Owner, x: int, d2: Disk)
    requires TruncIndirect(sb, d, ip, d1, ins2, own2, MAXFILE) && x == ip.addrs[NDIRECT] && x != 0
    requires Free(sb, d1, d2, x) && InodeAreaSame(sb, d1, d2)
    ensures Inv(sb, d2, ins2, own2, {}) && InodeAreaSame(sb, d, d2)
    ensures forall j :: 0 <= j < |ins2| ==> FileBlocks(d2, ins2[j]) == FileBlocks(d, ins2[j])
  {
    SlotsFromLast(d, ip);
    FreeKeeps(sb, d1, d2, ins2, own2, {x}, x);
    assert {x} - {x} == {};
  }

  /** The blocks still pending can be freed without hitting the panic of bfree. */
  lemma PendingUsed(sb: Super, d: Disk, ins: seq<Inode>, own: Owner, pend: set<int>, b: int)
    requires Inv(sb, d, ins, own, pend) && b in pend
    ensures sb.nmeta <= b < sb.size && Used(sb, d, b)
  {
  }

  /** What itrunc leaves: file i without blocks, every other file the same, and exactly the blocks of i released. */
  ghost predicate Truncated(sb: Super, d: Disk, ins: seq<Inode>, own: Owner, d': Disk, ins': seq<Inode>, own': Owner,
                            i: nat) {
    && Kept(sb, d, ins, own, d', ins', own', i) && i < |ins|
    && (forall k :: 0 <= k <= NDIRECT ==> ins'[i].addrs[k] == 0)
    && OwnersFrom(own, own', i, MAXFILE + 1)
  }

  lemma TruncNoIndirect(sb: Super, d: Disk, ins: seq<Inode>, own: Owner, d1: Disk, ins1: seq<Inode>, own1: Owner,
                        i: nat)
    requires TruncDirect(sb, d, ins, own, d1, ins1, own1, i, NDIRECT) && ins1[i].addrs[NDIRECT] == 0
    ensures Truncated(sb, d, ins, own, d1, ins1, own1, i)
  {
    forall b | b in own1
      ensures own1[b].0 != i
    {
      assert Slot(d1, ins1[own1[b].0], own1[b].1) == b;
    }
  }

  lemma TruncWithIndirect(sb: Super, d: Disk, ins: seq<Inode>, own: Owner, d1: Disk, ins1: seq<Inode>, own1: Owner,
                          i: nat, d2: Disk, ins2: seq<Inode>, own2: Owner)
    requires TruncDirect(sb, d, ins, own, d1, ins1, own1, i, NDIRECT)
    requires ins2 == ins1[i := WithAddr(ins1[i], NDIRECT, 0)] && own2 == own1 - SlotsFrom(d1, ins1[i], NDIRECT)
    requires Inv(sb, d2, ins2, own2, {}) && InodeAreaSame(sb, d1, d2)
    requires forall j :: 0 <= j < |ins2| ==> FileBlocks(d2, ins2[j]) == FileBlocks(d1, ins2[j])
    ensures Truncated(sb, d, ins, own, d2, ins2, own2, i)
  {
    forall b | b in own1
      ensures b in own2 <==> own1[b].0 != i
    {
      assert Slot(d1, ins1[own1[b].0], own1[b].1) == b;
      if own1[b].0 == i {
        assert b in SlotsFrom(d1, ins1[i], NDIRECT);
      }
    }
  }

  /** itrunc frees exactly the blocks that were in a slot of file i. */
  lemma FreedExactly(sb: Super, d: Disk, ins: seq<Inode>, own: Owner, d': Disk, ins': seq<Inode>, own': Owner, i: nat,
                     b: nat)
    requires Truncated(sb, d, ins, own, d', ins', own', i) && b < sb.size
    ensures Used(sb, d', b) <==> Used(sb, d, b) && b !in SlotsFrom(d, ins[i], 0)
  {
    if b in own && own[b].0 == i {
      assert Slot(d, ins[i], own[b].1) == b;
    }
  }

  /** After the size is cleared and the inode written through, the file system is good again and file i is empty. */
  lemma TruncatedGood(sb: Super, d: Disk, ins: seq<Inode>, own: Owner, d1: Disk, ins1: seq<Inode>, own1: Owner,
                      i: nat, ins2: seq<Inode>, d2: Disk)
    requires Good(sb, d, ins, own) && Truncated(sb, d, ins, own, d1, ins1, own1, i)
    requires ins2 == ins1[i := WithSize(ins1[i], 0)] && d2 == PutInode(sb, d1, i, ins2[i])
    ensures Good(sb, d2, ins2, own1) && OthersSame(d, ins, d2, ins2, i)
    ensures forall b: nat :: b < sb.size ==> Used(sb, d2, b) == Used(sb, d1, b)
  {
    assert InodeGood(sb, d, ins, i);
    SizeKeeps(sb, d1, ins1, own1, i, 0);
    KeptOthersGood(sb, d, ins, own, d1, ins1, own1, i);
    UpdateGood(sb, d1, ins2, own1, i, d2);
    forall j | 0 <= j < |ins| && j != i
      ensures InodeGood(sb, d2, ins2, j)
    {
      assert InodeGood(sb, d1, ins1, j);
      assert InodeGood(sb, d1, ins2, j);
    }
    IBlockRange(sb, d1, i);
    UsedSame(sb, d1, d2, IBlock(sb, i));
  }

  // ----- the free map is exact -----

  /** Block b sits in slot s of inode i. */
  ghost predicate InSlot(sb: Super, d: Disk, ins: seq<Inode>, b: int, i: nat, s: nat) {
    SuperOk(sb, d) && InodesOk(sb, ins) && i < |ins| && s <= MAXFILE && Slot(d, ins[i], s) == b
  }

  /**
   Between operations a block below sb.size is marked used exactly when it is
   metadata or sits in one slot of one inode, and in no other slot of any inode.
   */
  lemma MapExactly(sb: Super, d: Disk, ins: seq<Inode>, own: Owner, b: nat)
    requires Good(sb, d, ins, own) && b < sb.size
    ensures Used(sb, d, b) <==> b < sb.nmeta || exists i: nat, s: nat :: InSlot(sb, d, ins, b, i, s)
    ensures b != 0 ==>
              forall i: nat, s: nat, j: nat, t: nat :: InSlot(sb, d, ins, b, i, s) && InSlot(sb, d, ins, b, j, t) ==>
                i == j && s == t
  {
    if b in own {
      assert InSlot(sb, d, ins, b, own[b].0, own[b].1);
    }
  }

  /** The block balloc returns sat in no slot, and is not 0. */
  lemma AllocFresh(sb: Super, d: Disk, ins: seq<Inode>, own: Owner, d': Disk, b: int)
    requires Good(sb, d, ins, own) && Alloc(sb, d, d', b)
    ensures b != 0 && forall i: nat, s: nat :: !InSlot(sb, d, ins, b, i, s)
  {
    MapExactly(sb, d, ins, own, b);
  }

  // ----- filewrite -----

  /** The bytes of one filewrite chunk when n remain. */
  function ChunkSize(n: nat): (r: nat)
    ensures r <= n && r <= 1536 && (r == n || r == 1536)
  {
    if n > 3 * BSIZE then 3 * BSIZE else n
  }

  /** filewrite after the first i bytes of src went to file ip at start. */
  ghost predicate Appended(sb: Super, d: Disk, ins: seq<Inode>, d': Disk, ins': seq<Inode>, own': Owner, ip: nat,
                           start: nat, src: seq<int>, i: nat) {
    && SuperOk(sb, d) && InodesOk(sb, ins) && ip < |ins| && i <= |src|
    && Good(sb, d', ins', own')
    && OthersSame(d, ins, d', ins', ip)
    && Type(ins'[ip]) != T_DEV
    && (i == 0 ==> d' == d && ins' == ins)
    && (i > 0 ==> WriteFits(ins[ip].size, start, i) && start + i <= ins'[ip].size)
    && (start <= ins[ip].size ==> File(d', ins'[ip]) == Overwrite(File(d, ins[ip]), start, src[..i]))
  }

  lemma AppendBytes(f: seq<int>, g: seq<int>, start: nat, src: seq<int>, i: nat, i': nat, off: nat)
    requires start <= |f| && i <= i' <= |src| && off == start + i && g == Overwrite(f, start, src[..i])
    ensures off <= |g| && Overwrite(g, off, src[i..i']) == Overwrite(f, start, src[..i'])
  {
    OverwriteTwice(f, start, src[..i], src[i..i']);
    assert src[..i] + src[i..i'] == src[..i'];
  }

  lemma OthersSameTrans(d: Disk, ins: seq<Inode>, d1: Disk, ins1: seq<Inode>, d2: Disk, ins2: seq<Inode>, i: nat)
    requires Sized(d) && Sized(d1) && Sized(d2) && |ins| == |ins1| == |ins2|
    requires forall j :: 0 <= j < |ins| ==> |ins[j].addrs| == |ins1[j].addrs| == |ins2[j].addrs| == NDIRECT + 1
    requires OthersSame(d, ins, d1, ins1, i) && OthersSame(d1, ins1, d2, ins2, i)
    ensures OthersSame(d, ins, d2, ins2, i)
  {
  }

  /** One more accepted chunk. */
  lemma AppendChunk(sb: Super, d: Disk, ins: seq<Inode>, d1: Disk, ins1: seq<Inode>, own1: Owner, d2: Disk,
                    ins2: seq<Inode>, own2: Owner, ip: nat, start: nat, src: seq<int>, i: nat, n: nat, i': nat,
                    off: nat, chunk: seq<int>)
    requires i < i' == i + n <= |src| && off == start + i && chunk == src[i..i']
    requires Appended(sb, d, ins, d1, ins1, own1, ip, start, src, i)
    requires Good(sb, d2, ins2, own2)
    requires WriteFits(ins1[ip].size, off, n) && OthersSame(d1, ins1, d2, ins2, ip) && ins2[ip].kind == ins1[ip].kind
    requires File(d2, ins2[ip]) == Overwrite(File(d1, ins1[ip]), off, chunk)
    ensures Appended(sb, d, ins, d2, ins2, own2, ip, start, src, i')
  {
    OthersSameTrans(d, ins, d1, ins1, d2, ins2, ip);
    assert start <= ins[ip].size;
    AppendBytes(File(d, ins[ip]), File(d1, ins1[ip]), start, src, i, i', off);
  }

  /** A chunk is refused exactly when the rest of src could not be written either. */
  lemma ChunkRefused(sb: Super, d: Disk, ins: seq<Inode>, d': Disk, ins': seq<Inode>, own': Owner, ip: nat,
                     start: nat, src: seq<int>, i: nat, off: nat)
    requires i < |src| && off == start + i && Appended(sb, d, ins, d', ins', own', ip, start, src, i)
    ensures !WriteFits(ins'[ip].size, off, ChunkSize(|src| - i)) <==>
              start > ins[ip].size || start + i + ChunkSize(|src| - i) > MAXFILE * BSIZE
    ensures !WriteFits(ins'[ip].size, off, ChunkSize(|src| - i)) ==> !WriteFits(ins[ip].size, start, |src|)
    ensures start > ins[ip].size ==> i == 0
  {
  }
}
