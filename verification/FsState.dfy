/**
 The file system as a value: the cached disk and the in-memory inodes, the block
 slots of each inode, and the invariant that ties the free map to the slots.
 */
module FsState {
  import opened Params
  import opened Bytes

  const NDIRECT: nat := 12
  const NINDIRECT: nat := 128
  const MAXFILE: nat := NDIRECT + NINDIRECT
  const IPB: nat := 8
  const BPB: nat := 8 * BSIZE
  const T_DEV := 3
  const NDEV := 10

  /** The superblock fields fs.c uses; blocks below nmeta are metadata. */
  datatype Super = Super(size: nat, ninodes: nat, inodestart: nat, bmapstart: nat, nmeta: nat)

  type Disk = seq<Block>

  /**
   An inode. kind is the word holding type (low half) and major, links the word
   holding minor and nlink.
   */
  datatype Inode = Inode(kind: int, links: int, size: nat, addrs: seq<int>)

  function Type(ip: Inode): int {
    ip.kind % 65536
  }

  /** The signed 16-bit major number. */
  function Major(ip: Inode): (m: int) {
    var h := ip.kind / 65536 % 65536;
    if h < 32768 then h else h - 65536
  }

  /** readi or writei on a device inode: what the driver returns, or -1 when devsw has none for it. */
  function DevResult(ip: Inode, devsw: set<int>, driver: int): (r: int)
    ensures r == driver || r == -1
    ensures Major(ip) in devsw && 0 <= Major(ip) < NDEV ==> r == driver
    ensures r != -1 ==> Major(ip) in devsw && 0 <= Major(ip) < NDEV
  {
    if Major(ip) < 0 || Major(ip) >= NDEV || Major(ip) !in devsw then -1 else driver
  }

  predicate Sized(d: Disk) {
    forall b :: 0 <= b < |d| ==> |d[b]| == BSIZE
  }

  predicate SuperOk(sb: Super, d: Disk) {
    && 0 < sb.inodestart < sb.bmapstart < sb.nmeta <= sb.size <= |d|
    && sb.size < TWO32
    && sb.inodestart + sb.ninodes / IPB + 1 <= sb.bmapstart
    && sb.bmapstart + sb.size / BPB + 1 <= sb.nmeta
    && Sized(d)
  }

  // ----- the free map -----

  function BBlock(sb: Super, b: nat): (r: nat) {
    b / BPB + sb.bmapstart
  }

  /** The bit of block b in the free map. */
  predicate Used(sb: Super, d: Disk, b: nat)
    requires SuperOk(sb, d) && b < sb.size
  {
    Bit(d[BBlock(sb, b)][(b % BPB) / 8], (b % BPB) % 8)
  }

  // ----- slots -----

  /**
   The block number in slot s of an inode: slots below NDIRECT are direct, slots
   up to MAXFILE live in the indirect block, slot MAXFILE is the indirect block
   itself.
   */
  function Slot(d: Disk, ip: Inode, s: nat): (v: int)
    requires |ip.addrs| == NDIRECT + 1 && s <= MAXFILE
    requires Sized(d)
  {
    if s < NDIRECT then ip.addrs[s]
    else
      var x := ip.addrs[NDIRECT];
      if s == MAXFILE then x
      else if 0 < x < |d| then Word(d[x], s - NDIRECT)
      else 0
  }

  /** For every used data block, the one inode and slot that refer to it. */
  type Owner = map<int, (nat, nat)>

  ghost predicate InodesOk(sb: Super, inodes: seq<Inode>) {
    && |inodes| == sb.ninodes
    && forall i :: 0 <= i < |inodes| ==> |inodes[i].addrs| == NDIRECT + 1
  }

  /** Every non-zero slot is registered with its owner. */
  ghost predicate SlotsOwned(sb: Super, d: Disk, inodes: seq<Inode>, owner: Owner)
    requires SuperOk(sb, d) && InodesOk(sb, inodes)
  {
    forall i, s: nat :: 0 <= i < |inodes| && s <= MAXFILE && Slot(d, inodes[i], s) != 0
      ==> Slot(d, inodes[i], s) in owner && owner[Slot(d, inodes[i], s)] == (i, s)
  }

  /** Every registered block is a data block and its owner refers to it. */
  ghost predicate OwnersOk(sb: Super, d: Disk, inodes: seq<Inode>, owner: Owner)
    requires SuperOk(sb, d) && InodesOk(sb, inodes)
  {
    forall b :: b in owner ==>
      && sb.nmeta <= b < sb.size
      && owner[b].0 < |inodes| && owner[b].1 <= MAXFILE
      && Slot(d, inodes[owner[b].0], owner[b].1) == b
  }

  /** The free map marks exactly the metadata, the registered blocks and the pending ones. */
  ghost predicate MapExact(sb: Super, d: Disk, owner: Owner, pend: set<int>)
    requires SuperOk(sb, d)
  {
    forall b: nat :: b < sb.size ==> (Used(sb, d, b) <==> b < sb.nmeta || b in owner || b in pend)
  }

  /**
   The invariant inside an operation; pend holds the blocks that are marked used
   but sit in no slot: just allocated and not yet linked, or unlinked and not yet
   freed.  Between operations pend is empty.
   */
  ghost predicate Inv(sb: Super, d: Disk, inodes: seq<Inode>, owner: Owner, pend: set<int>) {
    && SuperOk(sb, d)
    && InodesOk(sb, inodes)
    && SlotsOwned(sb, d, inodes, owner)
    && OwnersOk(sb, d, inodes, owner)
    && MapExact(sb, d, owner, pend)
    && (forall b :: b in pend ==> sb.nmeta <= b < sb.size && b !in owner)
  }

  // ----- files as blocks -----

  /** Block bn of a file, [] when it is not mapped. */
  function FileBlock(d: Disk, ip: Inode, bn: nat): (r: Block)
    requires |ip.addrs| == NDIRECT + 1 && bn < MAXFILE
    requires Sized(d)
  {
    var v := Slot(d, ip, bn);
    if 0 < v < |d| then d[v] else []
  }

  /** All blocks of a file. */
  function FileBlocks(d: Disk, ip: Inode): (f: seq<Block>)
    requires |ip.addrs| == NDIRECT + 1
    requires Sized(d)
    ensures |f| == MAXFILE
    ensures forall bn :: 0 <= bn < MAXFILE ==> f[bn] == FileBlock(d, ip, bn)
  {
    seq(MAXFILE, bn requires 0 <= bn < MAXFILE => FileBlock(d, ip, bn))
  }

  /** The file of ip is the same on two disks that agree on its blocks. */
  lemma SameFile(d: Disk, d': Disk, ip: Inode)
    requires |ip.addrs| == NDIRECT + 1 && |d'| == |d|
    requires Sized(d) && Sized(d')
    requires forall s: nat :: s <= MAXFILE && 0 < Slot(d, ip, s) < |d| ==> d'[Slot(d, ip, s)] == d[Slot(d, ip, s)]
    ensures forall s: nat :: s <= MAXFILE ==> Slot(d', ip, s) == Slot(d, ip, s)
    ensures FileBlocks(d', ip) == FileBlocks(d, ip)
  {
    assert Slot(d, ip, MAXFILE) == ip.addrs[NDIRECT];
    assert forall s: nat :: s <= MAXFILE ==> Slot(d', ip, s) == Slot(d, ip, s);
    assert forall bn :: 0 <= bn < MAXFILE ==> FileBlock(d', ip, bn) == FileBlock(d, ip, bn);
  }

  ghost predicate InMap(sb: Super, b: int) {
    sb.bmapstart <= b <= sb.bmapstart + sb.size / BPB
  }

  /** Two disks that differ at most in the free map and in block b. */
  ghost predicate SameButMap(sb: Super, d: Disk, d': Disk, b: int) {
    && SuperOk(sb, d) && SuperOk(sb, d') && |d'| == |d|
    && sb.nmeta <= b < sb.size
    && forall x :: 0 <= x < |d| && x != b && !InMap(sb, x) ==> d'[x] == d[x]
  }

  /** What balloc does: mark a free data block used and zero it. */
  ghost predicate Alloc(sb: Super, d: Disk, d': Disk, b: int) {
    && SameButMap(sb, d, d', b)
    && !Used(sb, d, b)
    && (forall x: nat :: x < sb.size ==> (Used(sb, d', x) <==> Used(sb, d, x) || x == b))
    && d'[b] == Zeroes()
  }

  /** What bfree does: mark a used block free. */
  ghost predicate Free(sb: Super, d: Disk, d': Disk, b: int) {
    && SameButMap(sb, d, d', b)
    && Used(sb, d, b)
    && (forall x: nat :: x < sb.size ==> (Used(sb, d', x) <==> Used(sb, d, x) && x != b))
    && d'[b] == d[b]
  }

  /** Changing the free map and an unregistered block changes no file. */
  lemma SameButMapFiles(sb: Super, d: Disk, d': Disk, inodes: seq<Inode>, owner: Owner, pend: set<int>, b: int)
    requires Inv(sb, d, inodes, owner, pend) && SameButMap(sb, d, d', b) && b !in owner
    ensures SlotsOwned(sb, d', inodes, owner) && OwnersOk(sb, d', inodes, owner)
    ensures forall j :: 0 <= j < |inodes| ==> FileBlocks(d', inodes[j]) == FileBlocks(d, inodes[j])
  {
    forall j | 0 <= j < |inodes|
      ensures forall s: nat :: s <= MAXFILE ==> Slot(d', inodes[j], s) == Slot(d, inodes[j], s)
      ensures FileBlocks(d', inodes[j]) == FileBlocks(d, inodes[j])
    {
      SameFile(d, d', inodes[j]);
    }
  }

  lemma AllocKeeps(sb: Super, d: Disk, d': Disk, inodes: seq<Inode>, owner: Owner, pend: set<int>, b: int)
    requires Inv(sb, d, inodes, owner, pend) && Alloc(sb, d, d', b)
    ensures Inv(sb, d', inodes, owner, pend + {b})
    ensures forall j :: 0 <= j < |inodes| ==> FileBlocks(d', inodes[j]) == FileBlocks(d, inodes[j])
  {
    SameButMapFiles(sb, d, d', inodes, owner, pend, b);
  }

  lemma FreeKeeps(sb: Super, d: Disk, d': Disk, inodes: seq<Inode>, owner: Owner, pend: set<int>, b: int)
    requires Inv(sb, d, inodes, owner, pend) && Free(sb, d, d', b) && b in pend
    ensures Inv(sb, d', inodes, owner, pend - {b})
    ensures forall j :: 0 <= j < |inodes| ==> FileBlocks(d', inodes[j]) == FileBlocks(d, inodes[j])
  {
    SameButMapFiles(sb, d, d', inodes, owner, pend, b);
  }

  /** A write outside the free map leaves every bit alone. */
  lemma UsedSame(sb: Super, d: Disk, d': Disk, v: int)
    requires SuperOk(sb, d) && SuperOk(sb, d') && |d'| == |d| && !InMap(sb, v)
    requires forall x :: 0 <= x < |d| && x != v ==> d'[x] == d[x]
    ensures forall x: nat :: x < sb.size ==> Used(sb, d', x) == Used(sb, d, x)
  {
  }

  /** Overwriting a data block of file i changes that block of that file and nothing else. */
  lemma WriteKeeps(sb: Super, d: Disk, inodes: seq<Inode>, owner: Owner, pend: set<int>, i: nat, bn: nat, data: Block)
    requires Inv(sb, d, inodes, owner, pend)
    requires i < |inodes| && bn < MAXFILE && Slot(d, inodes[i], bn) != 0 && |data| == BSIZE
    ensures Inv(sb, d[Slot(d, inodes[i], bn) := data], inodes, owner, pend)
    ensures forall j :: 0 <= j < |inodes| && j != i ==>
              FileBlocks(d[Slot(d, inodes[i], bn) := data], inodes[j]) == FileBlocks(d, inodes[j])
    ensures FileBlocks(d[Slot(d, inodes[i], bn) := data], inodes[i]) == FileBlocks(d, inodes[i])[bn := data]
  {
    var v := Slot(d, inodes[i], bn);
    var d' := d[v := data];
    WriteSlots(sb, d, inodes, owner, pend, i, bn, d', v);
    forall j | 0 <= j < |inodes| && j != i
      ensures FileBlocks(d', inodes[j]) == FileBlocks(d, inodes[j])
    {
      SameFile(d, d', inodes[j]);
    }
    assert forall n :: 0 <= n < MAXFILE && n != bn ==> FileBlock(d', inodes[i], n) == FileBlock(d, inodes[i], n);
  }

  lemma WriteSlots(sb: Super, d: Disk, inodes: seq<Inode>, owner: Owner, pend: set<int>, i: nat, bn: nat, d': Disk,
                   v: int)
    requires Inv(sb, d, inodes, owner, pend)
    requires i < |inodes| && bn < MAXFILE && v == Slot(d, inodes[i], bn) != 0
    requires |d'| == |d| && SuperOk(sb, d') && forall x :: 0 <= x < |d| && x != v ==> d'[x] == d[x]
    ensures Inv(sb, d', inodes, owner, pend)
    ensures forall j, s: nat :: 0 <= j < |inodes| && s <= MAXFILE ==> Slot(d', inodes[j], s) == Slot(d, inodes[j], s)
  {
    forall j, s: nat | 0 <= j < |inodes| && s <= MAXFILE
      ensures Slot(d', inodes[j], s) == Slot(d, inodes[j], s)
    {
      assert Slot(d, inodes[j], MAXFILE) == inodes[j].addrs[NDIRECT];
    }
    UsedSame(sb, d, d', v);
  }

  /** The slot that entry k of addrs[] is. */
  function AddrSlot(k: nat): (s: nat)
    requires k <= NDIRECT
  {
    if k < NDIRECT then k else MAXFILE
  }

  function WithAddr(ip: Inode, k: nat, b: int): (r: Inode)
    requires |ip.addrs| == NDIRECT + 1 && k <= NDIRECT
  {
    ip.(addrs := ip.addrs[k := b])
  }

  /** Putting a block into one address entry changes that slot alone, given that a new indirect block is zero. */
  lemma WithAddrSlots(d: Disk, ip: Inode, k: nat, b: int)
    requires Sized(d) && |ip.addrs| == NDIRECT + 1 && k <= NDIRECT && ip.addrs[k] == 0
    requires k == NDIRECT && 0 < b < |d| ==> d[b] == Zeroes()
    ensures forall s: nat :: s <= MAXFILE ==>
      Slot(d, WithAddr(ip, k, b), s) == if s == AddrSlot(k) then b else Slot(d, ip, s)
  {
    forall s: nat | NDIRECT <= s < MAXFILE
      ensures Slot(d, WithAddr(ip, k, b), s) == Slot(d, ip, s)
    {
      ZeroWord(s - NDIRECT);
    }
  }

  /** Writing block number b into entry bn of the indirect block of ip. */
  function PutIndirect(d: Disk, x: nat, bn: nat, b: int): (r: Disk)
    requires Sized(d) && x < |d| && NDIRECT <= bn < MAXFILE
    ensures |r| == |d| && Sized(r)
  {
    d[x := Splice(d[x], 4 * (bn - NDIRECT), WordsBytes([b]))]
  }

  lemma PutIndirectSlots(d: Disk, ip: Inode, bn: nat, b: int)
    requires Sized(d) && |ip.addrs| == NDIRECT + 1 && NDIRECT <= bn < MAXFILE
    requires 0 < ip.addrs[NDIRECT] < |d| && 0 <= b < TWO32
    ensures forall s: nat :: s <= MAXFILE ==>
      Slot(PutIndirect(d, ip.addrs[NDIRECT], bn, b), ip, s) == if s == bn then b else Slot(d, ip, s)
  {
    var x := ip.addrs[NDIRECT];
    WordsEncode([b]);
    forall s: nat | NDIRECT <= s < MAXFILE
      ensures Slot(PutIndirect(d, x, bn, b), ip, s) == if s == bn then b else Slot(d, ip, s)
    {
      SpliceWords(d[x], bn - NDIRECT, WordsBytes([b]), [b], PutIndirect(d, x, bn, b)[x], s - NDIRECT);
    }
  }

  /** Slot s of inode i goes from empty to b and no other slot changes. */
  ghost predicate OneSlot(sb: Super, d: Disk, inodes: seq<Inode>, d': Disk, inodes': seq<Inode>, i: nat, s: nat,
                          b: int) {
    && SuperOk(sb, d) && SuperOk(sb, d') && InodesOk(sb, inodes) && InodesOk(sb, inodes')
    && forall j, t: nat :: 0 <= j < |inodes| && t <= MAXFILE ==>
         Slot(d', inodes'[j], t) == if j == i && t == s then b else Slot(d, inodes[j], t)
  }

  lemma LinkSlot(sb: Super, d: Disk, inodes: seq<Inode>, owner: Owner, pend: set<int>, d': Disk, inodes': seq<Inode>,
                 i: nat, s: nat, b: int)
    requires Inv(sb, d, inodes, owner, pend) && b in pend
    requires i < |inodes| && s <= MAXFILE && Slot(d, inodes[i], s) == 0
    requires OneSlot(sb, d, inodes, d', inodes', i, s, b)
    requires forall x: nat :: x < sb.size ==> Used(sb, d', x) == Used(sb, d, x)
    ensures Inv(sb, d', inodes', owner[b := (i, s)], pend - {b})
  {
  }

  /** Linking a pending block into an empty address entry. */
  lemma LinkAddr(sb: Super, d: Disk, inodes: seq<Inode>, owner: Owner, pend: set<int>, i: nat, k: nat, b: int)
    requires Inv(sb, d, inodes, owner, pend) && b in pend
    requires i < |inodes| && k <= NDIRECT && inodes[i].addrs[k] == 0
    requires k == NDIRECT ==> d[b] == Zeroes()
    ensures Inv(sb, d, inodes[i := WithAddr(inodes[i], k, b)], owner[b := (i, AddrSlot(k))], pend - {b})
    ensures FileBlocks(d, WithAddr(inodes[i], k, b))
         == if k < NDIRECT then FileBlocks(d, inodes[i])[k := d[b]] else FileBlocks(d, inodes[i])
  {
    WithAddrSlots(d, inodes[i], k, b);
    var ip := WithAddr(inodes[i], k, b);
    LinkSlot(sb, d, inodes, owner, pend, d, inodes[i := ip], i, AddrSlot(k), b);
    assert forall bn :: 0 <= bn < MAXFILE && bn != k ==> FileBlock(d, ip, bn) == FileBlock(d, inodes[i], bn);
  }

  lemma PutIndirectOneSlot(sb: Super, d: Disk, inodes: seq<Inode>, owner: Owner, pend: set<int>, i: nat, bn: nat,
                           b: int, d': Disk)
    requires Inv(sb, d, inodes, owner, pend) && 0 <= b < TWO32
    requires i < |inodes| && NDIRECT <= bn < MAXFILE
    requires 0 < inodes[i].addrs[NDIRECT] < |d| && d' == PutIndirect(d, inodes[i].addrs[NDIRECT], bn, b)
    ensures OneSlot(sb, d, inodes, d', inodes, i, bn, b)
    ensures forall x: nat :: x < sb.size ==> Used(sb, d', x) == Used(sb, d, x)
    ensures forall j :: 0 <= j < |inodes| && j != i ==> FileBlocks(d', inodes[j]) == FileBlocks(d, inodes[j])
  {
    PutIndirectSlots(d, inodes[i], bn, b);
    assert Slot(d, inodes[i], MAXFILE) == inodes[i].addrs[NDIRECT];
    UsedSame(sb, d, d', inodes[i].addrs[NDIRECT]);
    forall j | 0 <= j < |inodes| && j != i
      ensures forall s: nat :: s <= MAXFILE ==> Slot(d', inodes[j], s) == Slot(d, inodes[j], s)
      ensures FileBlocks(d', inodes[j]) == FileBlocks(d, inodes[j])
    {
      SameFile(d, d', inodes[j]);
    }
  }

  /** Linking a pending block into an empty entry of the indirect block. */
  lemma LinkIndirect(sb: Super, d: Disk, inodes: seq<Inode>, owner: Owner, pend: set<int>, i: nat, bn: nat, b: int,
                     d': Disk)
    requires Inv(sb, d, inodes, owner, pend) && b in pend
    requires i < |inodes| && NDIRECT <= bn < MAXFILE && Slot(d, inodes[i], bn) == 0
    requires 0 < inodes[i].addrs[NDIRECT] < |d| && d' == PutIndirect(d, inodes[i].addrs[NDIRECT], bn, b)
    ensures Inv(sb, d', inodes, owner[b := (i, bn)], pend - {b})
    ensures forall j :: 0 <= j < |inodes| && j != i ==> FileBlocks(d', inodes[j]) == FileBlocks(d, inodes[j])
    ensures FileBlocks(d', inodes[i]) == FileBlocks(d, inodes[i])[bn := d[b]]
  {
    PutIndirectOneSlot(sb, d, inodes, owner, pend, i, bn, b, d');
    LinkSlot(sb, d, inodes, owner, pend, d', inodes, i, bn, b);
    assert Slot(d, inodes[i], MAXFILE) == inodes[i].addrs[NDIRECT];
    forall n | 0 <= n < MAXFILE && n != bn
      ensures FileBlock(d', inodes[i], n) == FileBlock(d, inodes[i], n)
    {
      assert Slot(d', inodes[i], n) == Slot(d, inodes[i], n);
    }
  }

  /** Emptying slots of inode i turns the blocks they held, gone, into pending ones. */
  lemma Unlink(sb: Super, d: Disk, inodes: seq<Inode>, owner: Owner, pend: set<int>, i: nat, ip: Inode, gone: set<int>)
    requires Inv(sb, d, inodes, owner, pend) && i < |inodes| && |ip.addrs| == NDIRECT + 1
    requires forall s: nat :: s <= MAXFILE ==>
      Slot(d, ip, s) == if Slot(d, inodes[i], s) in gone then 0 else Slot(d, inodes[i], s)
    requires forall b :: b in gone ==> b in owner && owner[b].0 == i
    ensures Inv(sb, d, inodes[i := ip], owner - gone, pend + gone)
  {
    var inodes' := inodes[i := ip];
    forall b | b in owner && b !in gone
      ensures Slot(d, inodes'[owner[b].0], owner[b].1) == b
    {
      assert Slot(d, inodes[owner[b].0], owner[b].1) == b;
    }
  }

  lemma UnlinkDirect(sb: Super, d: Disk, inodes: seq<Inode>, owner: Owner, pend: set<int>, i: nat, k: nat)
    requires Inv(sb, d, inodes, owner, pend) && i < |inodes| && k < NDIRECT && inodes[i].addrs[k] != 0
    ensures Inv(sb, d, inodes[i := WithAddr(inodes[i], k, 0)], owner - {inodes[i].addrs[k]},
                pend + {inodes[i].addrs[k]})
    ensures inodes[i].addrs[k] in owner && owner[inodes[i].addrs[k]] == (i, k)
  {
    var ip := WithAddr(inodes[i], k, 0);
    var b := inodes[i].addrs[k];
    assert Slot(d, inodes[i], k) == b;
    Unlink(sb, d, inodes, owner, pend, i, ip, {b});
  }

  /** The blocks in the slots of an inode from a given slot on. */
  ghost function SlotsFrom(d: Disk, ip: Inode, from: nat): (r: set<int>)
    requires Sized(d) && |ip.addrs| == NDIRECT + 1
  {
    set s: nat | from <= s <= MAXFILE && Slot(d, ip, s) != 0 :: Slot(d, ip, s)
  }

  lemma UnlinkIndirect(sb: Super, d: Disk, inodes: seq<Inode>, owner: Owner, pend: set<int>, i: nat)
    requires Inv(sb, d, inodes, owner, pend) && i < |inodes| && inodes[i].addrs[NDIRECT] != 0
    ensures var gone := SlotsFrom(d, inodes[i], NDIRECT);
            Inv(sb, d, inodes[i := WithAddr(inodes[i], NDIRECT, 0)], owner - gone, pend + gone)
    ensures forall b :: b in SlotsFrom(d, inodes[i], NDIRECT) ==> b in owner && owner[b].0 == i
    ensures 0 < inodes[i].addrs[NDIRECT] < |d|
  {
    var ip := WithAddr(inodes[i], NDIRECT, 0);
    var gone := SlotsFrom(d, inodes[i], NDIRECT);
    assert Slot(d, inodes[i], MAXFILE) == inodes[i].addrs[NDIRECT];
    forall s: nat | s <= MAXFILE
      ensures Slot(d, ip, s) == if Slot(d, inodes[i], s) in gone then 0 else Slot(d, inodes[i], s)
    {
    }
    Unlink(sb, d, inodes, owner, pend, i, ip, gone);
  }

  // ----- inodes on disk -----

  function IBlock(sb: Super, inum: nat): (r: nat) {
    inum / IPB + sb.inodestart
  }

  /** The sixteen words of a disk inode. */
  function InodeWords(ip: Inode): (ws: seq<int>)
    requires |ip.addrs| == NDIRECT + 1
    ensures |ws| == 16
  {
    [ip.kind, ip.links, ip.size] + ip.addrs
  }

  /** struct dinode: type and major, minor and nlink, size, addresses. */
  lemma InodeLayout(ip: Inode)
    requires |ip.addrs| == NDIRECT + 1
    ensures InodeWords(ip)[0] == ip.kind && InodeWords(ip)[1] == ip.links && InodeWords(ip)[2] == ip.size
    ensures InodeWords(ip)[3..] == ip.addrs
  {
  }

  /** The words of the c-th inode of a block. */
  function InodeIn(b: Block, c: nat): (ws: seq<int>)
    requires |b| == BSIZE && c < IPB
    ensures |ws| == 16
    ensures forall k :: 0 <= k < 16 ==> ws[k] == Word(b, 16 * c + k)
  {
    seq(16, k requires 0 <= k < 16 => Word(b, 16 * c + k))
  }

  lemma IBlockRange(sb: Super, d: Disk, inum: nat)
    requires SuperOk(sb, d) && inum < sb.ninodes
    ensures sb.inodestart <= IBlock(sb, inum) < sb.bmapstart < |d|
  {
  }

  /** The inode that the disk holds under number inum, as words. */
  function DiskInode(sb: Super, d: Disk, inum: nat): (ws: seq<int>)
    requires SuperOk(sb, d) && inum < sb.ninodes
    ensures |ws| == 16
  {
    IBlockRange(sb, d, inum);
    InodeIn(d[IBlock(sb, inum)], inum % IPB)
  }

  /** The in-memory inode is written through. */
  ghost predicate Synced(sb: Super, d: Disk, inodes: seq<Inode>, inum: nat)
    requires SuperOk(sb, d) && InodesOk(sb, inodes) && inum < sb.ninodes
  {
    DiskInode(sb, d, inum) == InodeWords(inodes[inum])
  }

  ghost predicate WordSized(ip: Inode) {
    && 0 <= ip.kind < TWO32 && 0 <= ip.links < TWO32 && 0 <= ip.size < TWO32
    && forall k :: 0 <= k < |ip.addrs| ==> 0 <= ip.addrs[k] < TWO32
  }

  /** No inode on disk changes when the inode blocks do not. */
  ghost predicate InodeAreaSame(sb: Super, d: Disk, d': Disk) {
    && SuperOk(sb, d) && SuperOk(sb, d') && |d'| == |d|
    && forall x :: 0 <= x < sb.bmapstart ==> d'[x] == d[x]
  }

  lemma InodeAreaSameInodes(sb: Super, d: Disk, d': Disk)
    requires InodeAreaSame(sb, d, d')
    ensures forall i: nat :: i < sb.ninodes ==> DiskInode(sb, d', i) == DiskInode(sb, d, i)
  {
  }

  /** iupdate: the inode's words over its part of the inode block. */
  function PutInode(sb: Super, d: Disk, inum: nat, ip: Inode): (r: Disk)
    requires SuperOk(sb, d) && inum < sb.ninodes && |ip.addrs| == NDIRECT + 1
    ensures |r| == |d| && SuperOk(sb, r)
  {
    IBlockRange(sb, d, inum);
    var v := IBlock(sb, inum);
    d[v := Splice(d[v], 4 * (16 * (inum % IPB)), WordsBytes(InodeWords(ip)))]
  }

  /** Sixteen words written as the a-th inode of a block are what the a-th inode reads, and no other does. */
  lemma InodeSplice(b: Block, a: nat, c: nat, bytes: seq<int>, ws: seq<int>, r: Block)
    requires |b| == BSIZE && a < IPB && c < IPB && |ws| == 16
    requires Encodes(bytes, ws) && r == Splice(b, 4 * (16 * a), bytes)
    ensures InodeIn(r, c) == if c == a then ws else InodeIn(b, c)
  {
    forall k: nat | k < 16
      ensures InodeIn(r, c)[k] == if c == a then ws[k] else InodeIn(b, c)[k]
    {
      SpliceWords(b, 16 * a, bytes, ws, r, 16 * c + k);
    }
  }

  lemma PutInodeRead(sb: Super, d: Disk, inum: nat, ip: Inode, j: nat)
    requires SuperOk(sb, d) && inum < sb.ninodes && j < sb.ninodes && |ip.addrs| == NDIRECT + 1 && WordSized(ip)
    ensures DiskInode(sb, PutInode(sb, d, inum, ip), j) == if j == inum then InodeWords(ip) else DiskInode(sb, d, j)
  {
    IBlockRange(sb, d, inum);
    IBlockRange(sb, d, j);
    if IBlock(sb, j) == IBlock(sb, inum) {
      var ws := InodeWords(ip);
      WordsEncode(ws);
      InodeSplice(d[IBlock(sb, inum)], inum % IPB, j % IPB, WordsBytes(ws), ws,
                  PutInode(sb, d, inum, ip)[IBlock(sb, inum)]);
    }
  }

  /** Writing below the free map changes no slot, no file and no bit. */
  lemma MetaWriteKeeps(sb: Super, d: Disk, d': Disk, inodes: seq<Inode>, owner: Owner, pend: set<int>, v: nat)
    requires Inv(sb, d, inodes, owner, pend) && SuperOk(sb, d') && |d'| == |d| && v < sb.bmapstart
    requires forall x :: 0 <= x < |d| && x != v ==> d'[x] == d[x]
    ensures Inv(sb, d', inodes, owner, pend)
    ensures forall j :: 0 <= j < |inodes| ==> FileBlocks(d', inodes[j]) == FileBlocks(d, inodes[j])
  {
    forall j | 0 <= j < |inodes|
      ensures forall s: nat :: s <= MAXFILE ==> Slot(d', inodes[j], s) == Slot(d, inodes[j], s)
      ensures FileBlocks(d', inodes[j]) == FileBlocks(d, inodes[j])
    {
      SameFile(d, d', inodes[j]);
    }
    UsedSame(sb, d, d', v);
  }
}
