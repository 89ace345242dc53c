/**
 The circular doubly linked list of bio.c.  The links are two arrays over the
 buffers and one more node, the head; order lists the buffers from head.next on.
 */
module BufList {
  import opened Collections

  type Links = seq<nat>

  /** The circle through the head and the buffers of order. */
  ghost function Around(head: nat, order: seq<nat>): (r: seq<nat>) {
    [head] + order
  }

  /** The node behind position i of the circle. */
  ghost function After(r: seq<nat>, i: nat): (x: nat)
    requires i < |r|
  {
    if i + 1 < |r| then r[i + 1] else r[0]
  }

  /** next and prev run round the circle r in both directions. */
  ghost predicate Linked(next: Links, prev: Links, r: seq<nat>) {
    && |r| > 0 && |next| == |prev| && Distinct(r)
    && (forall i :: 0 <= i < |r| ==> r[i] < |next|)
    && (forall i {:trigger After(r, i)} :: 0 <= i < |r| ==> next[r[i]] == After(r, i) && prev[After(r, i)] == r[i])
  }

  ghost predicate Circle(next: Links, prev: Links, head: nat, order: seq<nat>) {
    Linked(next, prev, Around(head, order))
  }

  lemma Alone(next: Links, prev: Links, head: nat)
    requires |next| == |prev| && head < |next| && next[head] == head && prev[head] == head
    ensures Circle(next, prev, head, [])
  {
  }

  /** Different positions have different nodes and different nodes behind them. */
  lemma Apart(next: Links, prev: Links, r: seq<nat>, i: nat, j: nat)
    requires Linked(next, prev, r) && i < |r| && j < |r|
    ensures next[r[i]] == After(r, i) < |next| && prev[After(r, i)] == r[i]
    ensures i != j ==> r[i] != r[j] && After(r, i) != After(r, j)
  {
    assert prev[After(r, j)] == r[j];
  }

  /** Insertion behind the head: four assignments. */
  lemma InsertFront(next: Links, prev: Links, head: nat, order: seq<nat>, b: nat, f: nat, next': Links, prev': Links)
    requires Circle(next, prev, head, order) && b < |next| && b != head && b !in order
    requires head < |next| && f == next[head] && f < |next|
    requires next' == next[b := f][head := b] && prev' == prev[b := head][f := b]
    ensures Circle(next', prev', head, [b] + order)
  {
    var r, q := Around(head, order), Around(head, [b] + order);
    assert r[0] == head && next[r[0]] == After(r, 0);
    assert b !in r;
    InsertLinks(next, prev, r, q, b, f, next', prev');
  }

  /** q is the circle r with b put in at position 1. */
  ghost predicate Inserts(r: seq<nat>, q: seq<nat>, b: nat) {
    && |r| > 0 && |q| == |r| + 1 && q[0] == r[0] && q[1] == b
    && forall i :: 2 <= i < |q| ==> q[i] == r[i - 1]
  }

  lemma InsertAfter(r: seq<nat>, q: seq<nat>, b: nat, k: nat)
    requires Inserts(r, q, b) && k < |q|
    ensures After(q, k) == if k == 0 then b else After(r, k - 1)
  {
  }

  lemma InsertAt(next: Links, prev: Links, r: seq<nat>, q: seq<nat>, b: nat, f: nat, next': Links, prev': Links, k: nat)
    requires Linked(next, prev, r) && b < |next| && b !in r && f == After(r, 0) < |next| && Inserts(r, q, b) && k < |q|
    requires next' == next[b := f][r[0] := b] && prev' == prev[b := r[0]][f := b]
    ensures q[k] < |next| && next'[q[k]] == After(q, k) < |next| && prev'[After(q, k)] == q[k]
  {
    InsertAfter(r, q, b, k);
    Apart(next, prev, r, 0, 0);
    if k >= 2 {
      Apart(next, prev, r, k - 1, 0);
      assert After(r, k - 1) != b by {
        AfterIn(r, k - 1);
      }
    }
  }

  lemma AfterIn(r: seq<nat>, i: nat)
    requires i < |r|
    ensures After(r, i) in r
  {
  }

  lemma InsertDistinct(r: seq<nat>, q: seq<nat>, b: nat)
    requires Distinct(r) && b !in r && Inserts(r, q, b)
    ensures Distinct(q)
  {
  }

  lemma InsertLinks(next: Links, prev: Links, r: seq<nat>, q: seq<nat>, b: nat, f: nat, next': Links, prev': Links)
    requires Linked(next, prev, r) && b < |next| && b !in r && f == After(r, 0) < |next| && Inserts(r, q, b)
    requires next' == next[b := f][r[0] := b] && prev' == prev[b := r[0]][f := b]
    ensures Linked(next', prev', q)
  {
    InsertDistinct(r, q, b);
    forall k | 0 <= k < |q|
      ensures q[k] < |next'| && next'[q[k]] == After(q, k) < |next'| && prev'[After(q, k)] == q[k]
    {
      InsertAt(next, prev, r, q, b, f, next', prev', k);
    }
  }

  /** The list without its i-th buffer. */
  ghost function Without(order: seq<nat>, i: nat): (r: seq<nat>)
    requires i < |order|
    ensures |r| == |order| - 1
    ensures forall k :: 0 <= k < |r| ==> r[k] == if k < i then order[k] else order[k + 1]
  {
    order[..i] + order[i + 1..]
  }

  /** Taking a buffer out: two assignments. */
  lemma Unlink(next: Links, prev: Links, head: nat, order: seq<nat>, i: nat, b: nat, next': Links, prev': Links)
    requires Circle(next, prev, head, order) && i < |order| && b == order[i] < |next| && next[b] < |next|
    requires prev[b] < |next|
    requires prev' == prev[next[b] := prev[b]] && next' == next[prev[b] := next[b]]
    ensures Circle(next', prev', head, Without(order, i)) && b != head && b !in Without(order, i)
  {
    var r, q := Around(head, order), Around(head, Without(order, i));
    AroundWithout(head, order, i, r, q);
    Neighbours(next, prev, r, i + 1);
    UnlinkLinks(next, prev, r, q, i + 1, next', prev');
    SkipDistinct(r, q, i + 1);
    assert q[1..] == Without(order, i);
  }

  lemma AroundWithout(head: nat, order: seq<nat>, i: nat, r: seq<nat>, q: seq<nat>)
    requires i < |order| && r == Around(head, order) && q == Around(head, Without(order, i))
    ensures Skips(r, q, i + 1) && r[i + 1] == order[i]
  {
  }

  /** The neighbours of position m > 0. */
  lemma Neighbours(next: Links, prev: Links, r: seq<nat>, m: nat)
    requires Linked(next, prev, r) && 0 < m < |r|
    ensures next[r[m]] == After(r, m) && prev[r[m]] == r[m - 1] && After(r, m - 1) == r[m]
  {
    assert After(r, m - 1) == r[m];
  }

  /** q is the circle r without position m. */
  ghost predicate Skips(r: seq<nat>, q: seq<nat>, m: nat) {
    && 0 < m < |r| && |q| == |r| - 1
    && (forall k :: 0 <= k < m ==> q[k] == r[k])
    && (forall k :: m <= k < |q| ==> q[k] == r[k + 1])
  }

  lemma SkipAfter(r: seq<nat>, q: seq<nat>, m: nat, k: nat, j: nat)
    requires Skips(r, q, m) && k < |q| && j == if k < m then k else k + 1
    ensures q[k] == r[j] && After(q, k) == if k == m - 1 then After(r, m) else After(r, j)
  {
  }

  lemma UnlinkAt(next: Links, prev: Links, r: seq<nat>, q: seq<nat>, m: nat, next': Links, prev': Links, k: nat, j: nat)
    requires Linked(next, prev, r) && Skips(r, q, m) && k < |q| && j == if k < m then k else k + 1
    requires prev' == prev[After(r, m) := r[m - 1]] && next' == next[r[m - 1] := After(r, m)]
    ensures next'[q[k]] == After(q, k) && prev'[After(q, k)] == q[k]
  {
    SkipAfter(r, q, m, k, j);
    Apart(next, prev, r, j, m);
    Apart(next, prev, r, j, m - 1);
  }

  lemma SkipDistinct(r: seq<nat>, q: seq<nat>, m: nat)
    requires Distinct(r) && Skips(r, q, m)
    ensures Distinct(q) && r[m] !in q
  {
  }

  lemma UnlinkLinks(next: Links, prev: Links, r: seq<nat>, q: seq<nat>, m: nat, next': Links, prev': Links)
    requires Linked(next, prev, r) && Skips(r, q, m)
    requires prev' == prev[After(r, m) := r[m - 1]] && next' == next[r[m - 1] := After(r, m)]
    ensures Linked(next', prev', q)
  {
    SkipDistinct(r, q, m);
    forall k | 0 <= k < |q|
      ensures next'[q[k]] == After(q, k) && prev'[After(q, k)] == q[k]
    {
      UnlinkAt(next, prev, r, q, m, next', prev', k, if k < m then k else k + 1);
    }
  }

  /** Distinct numbers below n, n of them, are all of them. */
  lemma {:induction false} Everything(order: seq<nat>, n: nat, b: nat)
    requires Distinct(order) && |order| == n && (forall i :: 0 <= i < n ==> order[i] < n) && b < n
    ensures b in order
  {
    var got := Firsts(order, n);
    SizeOf(order, n);
    Counts(n);
    if b !in order {
      SubsetSize(got, UpTo(n) - {b});
    }
  }

  predicate Below(i: nat, n: nat) {
    i < n
  }

  ghost function UpTo(n: nat): (r: set<nat>) {
    set i: nat | i < n && Below(i, n)
  }

  ghost function Firsts(order: seq<nat>, k: nat): (r: set<nat>)
    requires k <= |order|
  {
    set i | 0 <= i < k :: order[i]
  }

  lemma {:induction false} Counts(n: nat)
    ensures |UpTo(n)| == n
  {
    if n > 0 {
      Counts(n - 1);
      assert Below(n - 1, n);
      assert UpTo(n) == UpTo(n - 1) + {n - 1} by {
        assert forall i: nat :: Below(i, n) <==> Below(i, n - 1) || i == n - 1;
      }
    }
  }

  lemma FirstsSnoc(order: seq<nat>, m: nat)
    requires Distinct(order) && m < |order|
    ensures order[m] !in Firsts(order, m) && Firsts(order, m + 1) == Firsts(order, m) + {order[m]}
  {
  }

  lemma {:induction false} SizeOf(order: seq<nat>, k: nat)
    requires Distinct(order) && k <= |order|
    ensures |Firsts(order, k)| == k
  {
    if k > 0 {
      SizeOf(order, k - 1);
      FirstsSnoc(order, k - 1);
    }
  }
}
