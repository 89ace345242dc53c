/** A file as a flat byte sequence, and what block-wise reading and writing does to it. */
module FileBytes {
  import opened Params
  import opened Bytes

  /** The blocks of a file; [] stands for a block that is not mapped. */
  type Blocks = seq<Block>

  ghost predicate BlocksOk(f: Blocks) {
    forall n :: 0 <= n < |f| ==> |f[n]| == 0 || |f[n]| == BSIZE
  }

  /** Every block below size is mapped. */
  ghost predicate Mapped(f: Blocks, size: nat) {
    && size <= |f| * BSIZE
    && forall n :: 0 <= n < |f| && n * BSIZE < size ==> |f[n]| == BSIZE
  }

  ghost predicate Has(f: Blocks, p: nat) {
    p / BSIZE < |f| && |f[p / BSIZE]| == BSIZE
  }

  ghost function ByteAt(f: Blocks, p: nat): (r: int)
    requires Has(f, p)
  {
    f[p / BSIZE][p % BSIZE]
  }

  /** The bytes of the file; a byte of an unmapped block reads as zero. */
  ghost function Contents(f: Blocks, size: nat): (c: seq<int>)
    ensures |c| == size
    ensures forall p :: 0 <= p < size ==> c[p] == if Has(f, p) then ByteAt(f, p) else 0
  {
    seq(size, p requires 0 <= p < size => if Has(f, p) then ByteAt(f, p) else 0)
  }

  /** Writing src over a byte sequence at an offset inside it or at its end. */
  function Overwrite(c: seq<int>, off: nat, src: seq<int>): (r: seq<int>)
    requires off <= |c|
  {
    c[..off] + src + (if off + |src| < |c| then c[off + |src|..] else [])
  }

  /** Byte by byte: src from off on, the old bytes elsewhere; the sequence grows when src reaches past its end. */
  lemma OverwriteAt(c: seq<int>, off: nat, src: seq<int>, p: nat)
    requires off <= |c| && p < |Overwrite(c, off, src)|
    ensures |Overwrite(c, off, src)| == if off + |src| < |c| then |c| else off + |src|
    ensures Overwrite(c, off, src)[p] == if off <= p < off + |src| then src[p - off] else c[p]
  {
  }

  /** Bytes lo .. hi of f are those of src, all others those of f0. */
  ghost predicate Written(f0: Blocks, f: Blocks, lo: nat, hi: nat, src: seq<int>) {
    && |f| == |f0| && lo <= hi && hi - lo <= |src|
    && BlocksOk(f)
    && (forall p: nat :: lo <= p < hi ==> Has(f, p) && ByteAt(f, p) == src[p - lo])
    && (forall p: nat :: !(lo <= p < hi) && Has(f0, p) ==> Has(f, p) && ByteAt(f, p) == ByteAt(f0, p))
  }

  /** The next memmove of writei extends what has been written. */
  lemma WrittenStep(f0: Blocks, f: Blocks, lo: nat, hi: nat, m: nat, src: seq<int>, f': Blocks)
    requires Written(f0, f, lo, hi, src)
    requires hi + m - lo <= |src| && hi % BSIZE + m <= BSIZE && 0 < m
    requires Has(f, hi)
    requires f' == f[hi / BSIZE := Splice(f[hi / BSIZE], hi % BSIZE, src[hi - lo..hi - lo + m])]
    ensures Written(f0, f', lo, hi + m, src)
  {
    var n := hi / BSIZE;
    forall p: nat | Has(f, p)
      ensures Has(f', p)
      ensures ByteAt(f', p) == if hi <= p < hi + m then src[p - lo] else ByteAt(f, p)
    {
      if p / BSIZE == n {
        assert hi % BSIZE <= p % BSIZE < hi % BSIZE + m <==> hi <= p < hi + m;
      }
    }
    assert forall p: nat :: hi <= p < hi + m ==> p / BSIZE == n;
  }

  /** Mapping a block that was not mapped changes no byte of the file. */
  lemma WrittenMap(f0: Blocks, f: Blocks, lo: nat, hi: nat, src: seq<int>, n: nat, b: Block)
    requires Written(f0, f, lo, hi, src) && n < |f| && f[n] == [] && |b| == BSIZE
    ensures Written(f0, f[n := b], lo, hi, src)
  {
    var f' := f[n := b];
    forall p: nat | Has(f, p)
      ensures Has(f', p) && ByteAt(f', p) == ByteAt(f, p)
    {
    }
    assert forall p: nat :: lo <= p < hi ==> Has(f, p);
  }

  /** A completed block-wise write is an overwrite of the byte sequence. */
  lemma WrittenIsOverwrite(f0: Blocks, f: Blocks, size: nat, off: nat, src: seq<int>)
    requires Mapped(f0, size) && BlocksOk(f0) && off <= size
    requires Written(f0, f, off, off + |src|, src) && off + |src| <= |f| * BSIZE
    ensures Mapped(f, if off + |src| > size then off + |src| else size)
    ensures Contents(f, if off + |src| > size then off + |src| else size) == Overwrite(Contents(f0, size), off, src)
  {
    var end := if off + |src| > size then off + |src| else size;
    forall p: nat | p < end
      ensures Has(f, p)
    {
      if p < size {
        assert Has(f0, p);
      }
    }
    forall n | 0 <= n < |f| && n * BSIZE < end
      ensures |f[n]| == BSIZE
    {
      assert Has(f, n * BSIZE);
    }
    var c, r := Contents(f0, size), Overwrite(Contents(f0, size), off, src);
    forall p: nat | p < end
      ensures r[p] == ByteAt(f, p)
    {
      if p < size {
        assert Has(f0, p) && c[p] == ByteAt(f0, p);
      }
    }
  }

  /** Two writes in a row are one write of both. */
  lemma OverwriteTwice(c: seq<int>, off: nat, a: seq<int>, b: seq<int>)
    requires off <= |c|
    ensures off + |a| <= |Overwrite(c, off, a)|
    ensures Overwrite(Overwrite(c, off, a), off + |a|, b) == Overwrite(c, off, a + b)
  {
    var r, t := Overwrite(Overwrite(c, off, a), off + |a|, b), Overwrite(c, off, a + b);
    assert |r| == |t|;
    assert forall i :: 0 <= i < |r| ==> r[i] == t[i];
  }
}
