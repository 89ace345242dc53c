/**
 Blocks as bytes, and the two ways fs.c reads them: as little-endian 32-bit words
 (indirect blocks, disk inodes) and as bits (the free map).  Bytes are integers;
 nothing depends on their range.
 */
module Bytes {
  import opened Params

  type Block = seq<int>

  /** What bzero leaves in a block. */
  function Zeroes(): (r: Block)
    ensures |r| == BSIZE && forall i :: 0 <= i < BSIZE ==> r[i] == 0
  {
    seq(BSIZE, _ => 0)
  }

  /** memmove of bytes into a block at an offset. */
  function Splice(b: Block, off: nat, bytes: seq<int>): (r: Block)
    requires off + |bytes| <= |b|
    ensures |r| == |b|
    ensures forall i :: 0 <= i < |b| ==> r[i] == if off <= i < off + |bytes| then bytes[i - off] else b[i]
  {
    b[..off] + bytes + b[off + |bytes|..]
  }

  // ----- words -----

  /** The little-endian value of some bytes. */
  function Value(q: seq<int>): (w: int) {
    if q == [] then 0 else q[0] + 256 * Value(q[1..])
  }

  /** The n low bytes of w, lowest first. */
  function Little(w: int, n: nat): (r: seq<int>)
    ensures |r| == n
    decreases n
  {
    if n == 0 then [] else [w % 256] + Little(w / 256, n - 1)
  }

  /** 256 to the n. */
  function Top(n: nat): (r: int)
    ensures r > 0
  {
    if n == 0 then 1 else 256 * Top(n - 1)
  }

  lemma {:induction false} ValueLittle(w: int, n: nat)
    requires 0 <= w < Top(n)
    ensures Value(Little(w, n)) == w
    decreases n
  {
    if n > 0 {
      var q := Little(w / 256, n - 1);
      ValueLittle(w / 256, n - 1);
      assert Little(w, n)[1..] == q;
      assert w == w % 256 + 256 * (w / 256);
    }
  }

  /** Word i of a block. */
  function Word(b: Block, i: nat): (w: int)
    requires 4 * i + 4 <= |b|
  {
    Value(b[4 * i..4 * i + 4])
  }

  /** Zeroed blocks hold zero words. */
  lemma ZeroWord(i: nat)
    requires 4 * i + 4 <= BSIZE
    ensures Word(Zeroes(), i) == 0
  {
    var q := Zeroes()[4 * i..4 * i + 4];
    assert Value(q[4..]) == 0;
    assert q[3..][1..] == q[4..] && Value(q[3..]) == 0;
    assert q[2..][1..] == q[3..] && Value(q[2..]) == 0;
    assert q[1..][1..] == q[2..] && Value(q[1..]) == 0;
  }

  function WordBytes(w: int): (r: seq<int>)
    ensures |r| == 4
  {
    Little(w, 4)
  }

  /** Taking a word apart and reading it again gives the word. */
  lemma WordRead(w: int)
    requires 0 <= w < TWO32
    ensures Value(WordBytes(w)) == w
  {
    assert Top(4) == TWO32 by {
      assert Top(1) == 256 && Top(2) == 65536 && Top(3) == 16777216;
    }
    ValueLittle(w, 4);
  }

  /** The bytes of a list of words. */
  function WordsBytes(ws: seq<int>): (r: seq<int>)
    ensures |r| == 4 * |ws|
  {
    if ws == [] then [] else WordsBytes(ws[..|ws| - 1]) + WordBytes(ws[|ws| - 1])
  }

  lemma {:induction false} WordsBytesAt(ws: seq<int>, k: nat)
    requires k < |ws|
    ensures WordsBytes(ws)[4 * k..4 * k + 4] == WordBytes(ws[k])
    decreases |ws|
  {
    var front := WordsBytes(ws[..|ws| - 1]);
    if k < |ws| - 1 {
      WordsBytesAt(ws[..|ws| - 1], k);
      assert WordsBytes(ws)[4 * k..4 * k + 4] == front[4 * k..4 * k + 4];
    }
  }

  /** bytes holds the words ws one after the other. */
  ghost predicate Encodes(bytes: seq<int>, ws: seq<int>) {
    |bytes| == 4 * |ws| && forall k :: 0 <= k < |ws| ==> Word(bytes, k) == ws[k]
  }

  lemma WordsEncode(ws: seq<int>)
    requires forall k :: 0 <= k < |ws| ==> 0 <= ws[k] < TWO32
    ensures Encodes(WordsBytes(ws), ws)
  {
    forall k | 0 <= k < |ws|
      ensures Word(WordsBytes(ws), k) == ws[k]
    {
      WordsBytesAt(ws, k);
      WordRead(ws[k]);
    }
  }

  lemma SpliceInside(b: Block, off: nat, bytes: seq<int>, m: nat, n: nat)
    requires off + |bytes| <= |b| && n + 4 <= |bytes| && m == off + n
    ensures Splice(b, off, bytes)[m..m + 4] == bytes[n..n + 4]
  {
  }

  lemma SpliceOutside(b: Block, off: nat, bytes: seq<int>, m: nat)
    requires off + |bytes| <= |b| && m + 4 <= |b| && (m + 4 <= off || off + |bytes| <= m)
    ensures Splice(b, off, bytes)[m..m + 4] == b[m..m + 4]
  {
  }

  /** Writing words at word offset at changes exactly those words. */
  lemma SpliceWords(b: Block, at: nat, bytes: seq<int>, ws: seq<int>, r: Block, i: nat)
    requires 4 * (at + |ws|) <= |b| && 4 * i + 4 <= |b| && Encodes(bytes, ws) && r == Splice(b, 4 * at, bytes)
    ensures Word(r, i) == if at <= i < at + |ws| then ws[i - at] else Word(b, i)
  {
    if at <= i < at + |ws| {
      var k := i - at;
      SpliceInside(b, 4 * at, bytes, 4 * i, 4 * k);
      assert Word(bytes, k) == ws[k];
    } else {
      SpliceOutside(b, 4 * at, bytes, 4 * i);
    }
  }

  // ----- bits -----

  /** Bit k of x. */
  function Bit(x: int, k: nat): (r: bool)
    decreases k
  {
    if k == 0 then x % 2 == 1 else Bit(x / 2, k - 1)
  }

  /** x | (1 << k) */
  function SetBit(x: int, k: nat): (r: int)
    ensures forall j: nat :: Bit(r, j) == (j == k || Bit(x, j))
    decreases k
  {
    if k == 0 then x + (1 - x % 2)
    else
      var r := 2 * SetBit(x / 2, k - 1) + x % 2;
      assert r / 2 == SetBit(x / 2, k - 1) && r % 2 == x % 2;
      r
  }

  /** x & ~(1 << k) */
  function ClearBit(x: int, k: nat): (r: int)
    ensures forall j: nat :: Bit(r, j) == (j != k && Bit(x, j))
    decreases k
  {
    if k == 0 then x - x % 2
    else
      var r := 2 * ClearBit(x / 2, k - 1) + x % 2;
      assert r / 2 == ClearBit(x / 2, k - 1) && r % 2 == x % 2;
      r
  }
}
