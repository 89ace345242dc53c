/**
 The free list of umalloc.c as a value: addresses of headers, counted in units of
 one header, in address order from the static header base.
 */
module FreeList {
  import opened Collections

  /** Header fields by address. */
  type Fields = map<int, int>

  /** First unit after the block at a. */
  function End(size: Fields, a: int): (r: int)
    requires a in size
  {
    a + size[a]
  }

  /** Address order with a gap between any two free blocks; base comes first and is empty. */
  ghost predicate Sorted(list: seq<int>, size: Fields) {
    && list != []
    && (forall i :: 0 <= i < |list| ==> list[i] in size)
    && size[list[0]] == 0
    && (forall i :: 1 <= i < |list| ==> size[list[i]] > 0)
    && (forall i, j :: 0 <= i < j < |list| ==> End(size, list[i]) < list[j])
  }

  /** s.ptr runs through the list and back to its start. */
  ghost predicate Linked(list: seq<int>, ptr: Fields) {
    && list != []
    && (forall i :: 0 <= i < |list| ==> list[i] in ptr)
    && (forall i :: 0 <= i < |list| - 1 ==> ptr[list[i]] == list[i + 1])
    && ptr[list[|list| - 1]] == list[0]
  }

  /** Unit u lies in the free block at position i. */
  ghost predicate InBlock(list: seq<int>, size: Fields, i: int, u: int) {
    0 <= i < |list| && list[i] in size && list[i] <= u < End(size, list[i])
  }

  /** Unit u is free. */
  ghost predicate Free(list: seq<int>, size: Fields, u: int) {
    exists i :: InBlock(list, size, i, u)
  }

  /** No unit of [a, a + n) is free. */
  ghost predicate NoneFree(list: seq<int>, size: Fields, a: int, n: int) {
    forall i :: 0 <= i < |list| && list[i] in size ==> a + n <= list[i] || End(size, list[i]) <= a
  }

  /** Position t is the one before address b. */
  ghost predicate Before(list: seq<int>, b: int, t: int) {
    && 0 <= t < |list|
    && list[t] < b
    && (t < |list| - 1 ==> b < list[t + 1])
  }

  /** There is such a position for every address above base that is not in the list. */
  lemma {:induction false} FindBefore(list: seq<int>, size: Fields, b: int, k: nat) returns (t: int)
    requires Sorted(list, size) && (forall i :: 0 <= i < |list| ==> size[list[i]] >= 0)
    requires k < |list| && list[k] < b && b !in list
    ensures Before(list, b, t)
    decreases |list| - k
  {
    if k == |list| - 1 || b < list[k + 1] {
      t := k;
    } else {
      t := FindBefore(list, size, b, k + 1);
    }
  }

  /** The list with position t + 1 taken out when upper holds. */
  ghost function Rest(list: seq<int>, t: int, upper: bool): (r: seq<int>)
    requires 0 <= t < |list| && (upper ==> t + 1 < |list|)
    ensures |r| == if upper then |list| - 1 else |list|
    ensures forall i :: 0 <= i < |r| ==> r[i] == if upper && i > t then list[i + 1] else list[i]
  {
    if upper then list[..t + 1] + list[t + 2..] else list
  }

  /** The list with b put in after position t. */
  ghost function Insert(list: seq<int>, t: int, b: int): (r: seq<int>)
    requires 0 <= t < |list|
    ensures |r| == |list| + 1
    ensures forall i :: 0 <= i < |r| ==> r[i] == if i <= t then list[i] else if i == t + 1 then b else list[i - 1]
  {
    list[..t + 1] + [b] + list[t + 1..]
  }

  lemma RestSorted(list: seq<int>, size: Fields, t: int, upper: bool)
    requires Sorted(list, size) && 0 <= t < |list| && (upper ==> t + 1 < |list|)
    ensures Sorted(Rest(list, t, upper), size)
  {
  }

  /** Growing the block at position t up to below the next one. */
  lemma GrowSorted(list: seq<int>, size: Fields, t: int, n: int)
    requires Sorted(list, size) && 1 <= t < |list| && n > 0
    requires t + 1 < |list| ==> list[t] + n < list[t + 1]
    ensures Sorted(list, size[list[t] := n])
  {
    var s := size[list[t] := n];
    assert forall i :: 0 <= i < |list| && i != t ==> s[list[i]] == size[list[i]];
  }

  lemma InsertSorted(list: seq<int>, size: Fields, t: int, b: int, n: int)
    requires Sorted(list, size) && 0 <= t < |list| && n > 0
    requires End(size, list[t]) < b && (t + 1 < |list| ==> b + n < list[t + 1])
    requires b !in list
    ensures Sorted(Insert(list, t, b), size[b := n])
  {
    var r, s := Insert(list, t, b), size[b := n];
    assert forall i :: 0 <= i < |list| ==> s[list[i]] == size[list[i]];
    forall i, j | 0 <= i < j < |r|
      ensures End(s, r[i]) < r[j]
    {
      if j == t + 1 && i < t {
        assert End(size, list[i]) < list[t];
      } else if i == t + 1 && j > t + 2 {
        assert End(size, list[t + 1]) < list[j - 1];
      }
    }
  }

  lemma SortedDistinct(list: seq<int>, size: Fields)
    requires Sorted(list, size)
    ensures Distinct(list)
  {
    assert forall i :: 0 <= i < |list| ==> list[i] <= End(size, list[i]);
  }

  /** What position t must point to once position t + 1 is out when upper holds. */
  ghost function Skip(list: seq<int>, ptr: Fields, t: int, upper: bool): (r: int)
    requires Linked(list, ptr) && 0 <= t < |list| && (upper ==> t + 1 < |list|)
  {
    if upper then ptr[list[t + 1]] else ptr[list[t]]
  }

  lemma RestLinked(list: seq<int>, ptr: Fields, t: int, upper: bool, b: int, x: int)
    requires Linked(list, ptr) && Distinct(list) && 0 <= t < |list| && (upper ==> t + 1 < |list|) && b !in list
    ensures Linked(Rest(list, t, upper), ptr[b := x][list[t] := Skip(list, ptr, t, upper)])
  {
  }

  lemma InsertLinked(list: seq<int>, ptr: Fields, t: int, upper: bool, b: int)
    requires Linked(list, ptr) && Distinct(list) && 0 <= t < |list| && (upper ==> t + 1 < |list|) && b !in list
    ensures Linked(Insert(Rest(list, t, upper), t, b), ptr[b := Skip(list, ptr, t, upper)][list[t] := b])
  {
  }

  // ----- what free does -----

  /** bp + bp->s.size == p->s.ptr */
  function Upper(ptr: Fields, size: Fields, p: int, b: int): (r: bool)
    requires p in ptr && b in size
  {
    End(size, b) == ptr[p]
  }

  /** A block that free may insert after position t: above base, overlapping no free block. */
  ghost predicate Insertable(list: seq<int>, ptr: Fields, size: Fields, b: int, t: int) {
    && Sorted(list, size) && Linked(list, ptr) && Before(list, b, t)
    && b in size && size[b] > 0 && NoneFree(list, size, b, size[b])
  }

  /** The upper neighbour, when there is one, is the next block of the list. */
  lemma UpperIsNext(list: seq<int>, ptr: Fields, size: Fields, b: int, t: int)
    requires Insertable(list, ptr, size, b, t)
    ensures Upper(ptr, size, list[t], b) ==> t + 1 < |list| && ptr[list[t]] == list[t + 1]
    ensures End(size, list[t]) <= b && (t + 1 < |list| ==> End(size, b) <= list[t + 1])
    ensures b !in list
  {
    if t == |list| - 1 && t > 0 {
      assert End(size, list[0]) < list[t];
    }
    forall i | 0 <= i < |list|
      ensures list[i] != b
    {
    }
  }

  /** A field of an address outside the list does not matter. */
  lemma OtherSorted(list: seq<int>, size: Fields, b: int, n: int)
    requires Sorted(list, size) && b !in list
    ensures Sorted(list, size[b := n])
  {
    assert forall i :: 0 <= i < |list| ==> size[b := n][list[i]] == size[list[i]];
  }

  /** There is room below the block after the merged one. */
  lemma RoomAbove(list: seq<int>, ptr: Fields, size: Fields, b: int, t: int, upper: bool, n: int)
    requires Insertable(list, ptr, size, b, t)
    requires upper == Upper(ptr, size, list[t], b) && (upper ==> t + 1 < |list|)
    requires n == if upper then size[b] + size[list[t + 1]] else size[b]
    ensures t + 1 < |Rest(list, t, upper)| ==> b + n < Rest(list, t, upper)[t + 1]
    ensures n > 0 && b !in Rest(list, t, upper)
  {
    UpperIsNext(list, ptr, size, b, t);
    if upper && t + 2 < |list| {
      assert End(size, list[t + 1]) < list[t + 2];
    }
  }

  /** What free decides once it has found position t. */
  ghost predicate Merging(list: seq<int>, ptr: Fields, size: Fields, b: int, t: int, upper: bool, lower: bool, n: int) {
    && Insertable(list, ptr, size, b, t)
    && upper == Upper(ptr, size, list[t], b) && (upper ==> t + 1 < |list|)
    && lower == (End(size, list[t]) == b)
    && n == if upper then size[b] + size[list[t + 1]] else size[b]
  }

  lemma GrowOver(list: seq<int>, size: Fields, t: int, p: int, b: int, n: int)
    requires Sorted(list, size) && 0 <= t < |list| && p == list[t] && b !in list
    requires size[p] > 0 && End(size, p) == b && n > 0 && (t + 1 < |list| ==> b + n < list[t + 1])
    ensures Sorted(list, size[b := n][p := size[p] + n])
  {
    OtherSorted(list, size, b, n);
    GrowSorted(list, size[b := n], t, size[p] + n);
  }

  lemma LowerSorted(list: seq<int>, ptr: Fields, size: Fields, b: int, t: int, upper: bool, n: int, rest: seq<int>,
                    p: int, size': Fields)
    requires Merging(list, ptr, size, b, t, upper, true, n) && rest == Rest(list, t, upper) && p == list[t]
    requires size' == size[b := n][p := size[p] + n]
    ensures Sorted(rest, size')
  {
    RestSorted(list, size, t, upper);
    RoomAbove(list, ptr, size, b, t, upper, n);
    assert size[p] > 0;
    GrowOver(rest, size, t, p, b, n);
  }

  lemma InsertedSorted(list: seq<int>, ptr: Fields, size: Fields, b: int, t: int, upper: bool, n: int, rest: seq<int>,
                       list': seq<int>, size': Fields)
    requires Merging(list, ptr, size, b, t, upper, false, n) && rest == Rest(list, t, upper)
    requires list' == Insert(rest, t, b) && size' == size[b := n]
    ensures Sorted(list', size')
  {
    RestSorted(list, size, t, upper);
    RoomAbove(list, ptr, size, b, t, upper, n);
    UpperIsNext(list, ptr, size, b, t);
    InsertSorted(rest, size, t, b, n);
  }

  // ----- the units of a freed block -----

  /** A unit of the merged block: its own, or those of the upper neighbour. */
  lemma MergedUnits(list: seq<int>, ptr: Fields, size: Fields, b: int, t: int, upper: bool, lower: bool, n: int, u: int)
    requires Merging(list, ptr, size, b, t, upper, lower, n)
    ensures b <= u < b + n <==> b <= u < b + size[b] || (upper && InBlock(list, size, t + 1, u))
  {
    UpperIsNext(list, ptr, size, b, t);
  }

  ghost predicate Sizes(list: seq<int>, size: Fields) {
    forall i :: 0 <= i < |list| ==> list[i] in size
  }

  /** Not merged below: the merged block is inserted, the other blocks stay. */
  lemma InsertUnits(list: seq<int>, size: Fields, b: int, t: int, upper: bool, n: int, u: int, list': seq<int>,
                    size': Fields)
    requires Sizes(list, size) && b !in list && 0 <= t < |list| && (upper ==> t + 1 < |list|)
    requires list' == Insert(Rest(list, t, upper), t, b) && size' == size[b := n]
    ensures Free(list', size', u) <==> b <= u < b + n || exists k :: InBlock(list, size, k, u) && !(upper && k == t + 1)
  {
    if b <= u < b + n {
      assert InBlock(list', size', t + 1, u);
    }
    if k :| InBlock(list, size, k, u) && !(upper && k == t + 1) {
      assert InBlock(list', size', if k <= t then k else if upper then k else k + 1, u);
    }
    if i :| InBlock(list', size', i, u) && i != t + 1 {
      assert InBlock(list, size, if i <= t then i else if upper then i else i - 1, u);
    }
  }

  /** Merged below: the block at position t grows by n units, the other blocks stay. */
  lemma GrowUnits(list: seq<int>, size: Fields, b: int, t: int, upper: bool, n: int, u: int, list': seq<int>,
                  size': Fields)
    requires Sizes(list, size) && Distinct(list) && b !in list && 0 <= t < |list| && (upper ==> t + 1 < |list|)
    requires End(size, list[t]) == b && size[list[t]] >= 0 && n > 0
    requires list' == Rest(list, t, upper) && size' == size[b := n][list[t] := size[list[t]] + n]
    ensures Free(list', size', u) <==> b <= u < b + n || exists k :: InBlock(list, size, k, u) && !(upper && k == t + 1)
  {
    assert list'[t] == list[t];
    if b <= u < b + n {
      assert InBlock(list', size', t, u);
    }
    if k :| InBlock(list, size, k, u) && !(upper && k == t + 1) {
      assert InBlock(list', size', if k <= t || !upper then k else k - 1, u);
    }
    if i :| InBlock(list', size', i, u) && (i != t || u < b) {
      assert InBlock(list, size, if i <= t || !upper then i else i + 1, u);
    }
  }

  /** Either way the free units are the old ones and those of the block at b. */
  lemma FreedUnits(list: seq<int>, ptr: Fields, size: Fields, b: int, t: int, upper: bool, lower: bool, n: int,
                   u: int, list': seq<int>, size': Fields)
    requires Merging(list, ptr, size, b, t, upper, lower, n)
    requires list' == if lower then Rest(list, t, upper) else Insert(Rest(list, t, upper), t, b)
    requires size' == if lower then size[b := n][list[t] := size[list[t]] + n] else size[b := n]
    ensures Free(list', size', u) <==> Free(list, size, u) || b <= u < b + size[b]
  {
    MergedUnits(list, ptr, size, b, t, upper, lower, n, u);
    UpperIsNext(list, ptr, size, b, t);
    if lower {
      SortedDistinct(list, size);
      GrowUnits(list, size, b, t, upper, n, u, list', size');
    } else {
      InsertUnits(list, size, b, t, upper, n, u, list', size');
    }
  }

  // ----- what malloc does -----

  /** Taking the whole block at position t + 1 out of the list. */
  lemma TakeWhole(list: seq<int>, ptr: Fields, size: Fields, t: int, p: int, list': seq<int>)
    requires Sorted(list, size) && Linked(list, ptr) && 0 <= t < |list| - 1 && p == list[t + 1]
    requires list' == Rest(list, t, true)
    ensures Sorted(list', size) && Linked(list', ptr[list[t] := ptr[p]]) && list'[0] == list[0] && list[t] in list'
    ensures p !in list'
  {
    SortedDistinct(list, size);
    RestSorted(list, size, t, true);
    assert list'[t] == list[t];
  }

  lemma WholeUnits(list: seq<int>, size: Fields, t: int, u: int, p: int, list': seq<int>)
    requires Sorted(list, size) && 0 <= t < |list| - 1 && p == list[t + 1] && list' == Rest(list, t, true)
    ensures Free(list', size, u) <==> Free(list, size, u) && !(p <= u < End(size, p))
  {
    if i :| InBlock(list', size, i, u) {
      var j := if i <= t then i else i + 1;
      assert InBlock(list, size, j, u);
      BlocksApart(list, size, j, t + 1, u);
    }
    if k :| InBlock(list, size, k, u) && k != t + 1 {
      assert InBlock(list', size, if k <= t then k else k - 1, u);
    }
  }

  /** A unit lies in at most one block. */
  lemma BlocksApart(list: seq<int>, size: Fields, i: int, j: int, u: int)
    requires Sorted(list, size) && InBlock(list, size, i, u) && i != j
    ensures !InBlock(list, size, j, u)
  {
  }

  /** Cutting n units off the end of the block at position t. */
  lemma TakeTail(list: seq<int>, size: Fields, t: int, n: int, u: int, p: int, q: int, size': Fields)
    requires Sorted(list, size) && 0 <= t < |list| && p == list[t] && 0 < n < size[p]
    requires q == p + size[p] - n && size' == size[p := size[p] - n][q := n]
    ensures Sorted(list, size') && q !in list
    ensures Free(list, size', u) <==> Free(list, size, u) && !(q <= u < q + n)
  {
    assert t > 0;
    forall i | 0 <= i < |list|
      ensures list[i] != q
    {
      if t < i {
        assert End(size, p) < list[i];
      } else if i < t {
        assert End(size, list[i]) < p;
      }
    }
    TailSorted(list, size, t, n, p);
    OtherSorted(list, size[p := size[p] - n], q, n);
    TailUnits(list, size, t, n, u, p, q, size');
  }

  lemma TailSorted(list: seq<int>, size: Fields, t: int, n: int, p: int)
    requires Sorted(list, size) && 0 < t < |list| && p == list[t] && 0 < n < size[p]
    ensures Sorted(list, size[p := size[p] - n])
  {
    GrowSorted(list, size, t, size[p] - n);
  }

  lemma TailUnits(list: seq<int>, size: Fields, t: int, n: int, u: int, p: int, q: int, size': Fields)
    requires Sorted(list, size) && 0 <= t < |list| && p == list[t] && 0 < n < size[p] && q !in list
    requires q == p + size[p] - n && size' == size[p := size[p] - n][q := n]
    ensures Free(list, size', u) <==> Free(list, size, u) && !(q <= u < q + n)
  {
    SortedDistinct(list, size);
    if i :| InBlock(list, size', i, u) {
      assert InBlock(list, size, i, u);
      if i != t {
        BlocksApart(list, size, i, t, u);
      }
    }
    if k :| InBlock(list, size, k, u) && !(q <= u < q + n) {
      assert InBlock(list, size', k, u);
    }
  }
}
