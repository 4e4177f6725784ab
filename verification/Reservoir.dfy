/** The exponentially decaying sample: a min-heap of fixed capacity that is
    rescaled in place. */
module Reservoir {

  /** A key is a floating-point number that is not negative infinity; rounding
      is not modelled. */
  datatype Key =
    | Finite(r: real)
    | Infinite
    | NaN

  datatype Sample = Sample(k: Key, v: int)

  /** The comparison of the code; it is false whenever a NaN takes part. */
  predicate Lt(a: Key, b: Key) {
    match (a, b)
    case (Finite(x), Finite(y)) => x < y
    case (Finite(_), Infinite) => true
    case _ => false
  }

  /** The order of the numbers. */
  predicate Le(a: Key, b: Key) {
    !a.NaN? && !b.NaN? && !Lt(b, a)
  }

  /** A key times a decay factor: an infinite key times 0 is not a number. */
  function Times(k: Key, f: real): Key {
    match k
    case Finite(x) => Finite(x * f)
    case Infinite => if f == 0.0 then NaN else Infinite
    case NaN => NaN
  }

  predicate Ordered(h: seq<Sample>) {
    forall i :: 0 <= i < |h| ==> !h[i].k.NaN?
  }

  const RESCALE_THRESHOLD: nat := 3_600_000_000_000   // an hour, in nanoseconds

  function Parent(c: int): int
    requires 1 <= c
  {
    (c - 1) / 2
  }

  /** Every key is a number, and none is less than its parent's. */
  ghost predicate Heap(h: seq<Sample>) {
    Ordered(h) && forall c :: 1 <= c < |h| ==> Le(h[Parent(c)].k, h[c].k)
  }

  function Swap(h: seq<Sample>, i: nat, j: nat): (r: seq<Sample>)
    requires i < |h| && j < |h|
    ensures |r| == |h|
  {
    h[i := h[j]][j := h[i]]
  }

  lemma SwapPermutes(h: seq<Sample>, i: nat, j: nat)
    requires i < |h| && j < |h|
    ensures multiset(Swap(h, i, j)) == multiset(h)
  {
  }

  // ---------- Sifting as functions ----------

  /** Move the sample at j towards the root. */
  function Up(h: seq<Sample>, j: nat): (r: seq<Sample>)
    requires j < |h|
    ensures |r| == |h|
    decreases j
  {
    if j == 0 || !Lt(h[j].k, h[Parent(j)].k) then h else Up(Swap(h, Parent(j), j), Parent(j))
  }

  /** The child of i that is compared with: the right one on equal keys. */
  function Child(h: seq<Sample>, i: nat): (j: nat)
    requires 2 * i + 1 < |h|
    ensures i < j < |h| && Parent(j) == i
  {
    if 2 * i + 2 < |h| && !Lt(h[2 * i + 1].k, h[2 * i + 2].k) then 2 * i + 2 else 2 * i + 1
  }

  /** Move the sample at i towards the leaves. */
  function Down(h: seq<Sample>, i: nat): (r: seq<Sample>)
    ensures |r| == |h|
    decreases |h| - i
  {
    if 2 * i + 1 >= |h| || !Lt(h[Child(h, i)].k, h[i].k) then h
    else Down(Swap(h, i, Child(h, i)), Child(h, i))
  }

  // ---------- Sifting restores the heap ----------

  /** In order except above j, whose children respect its parent. */
  ghost predicate UpOk(h: seq<Sample>, j: nat) {
    && Ordered(h)
    && (forall c :: 1 <= c < |h| && c != j ==> Le(h[Parent(c)].k, h[c].k))
    && (forall c :: 1 <= c < |h| && 1 <= j && Parent(c) == j ==> Le(h[Parent(j)].k, h[c].k))
  }

  lemma UpStep(h: seq<Sample>, j: nat)
    requires 1 <= j < |h| && UpOk(h, j) && Lt(h[j].k, h[Parent(j)].k)
    ensures UpOk(Swap(h, Parent(j), j), Parent(j))
  {
    var i := Parent(j);
    var r := Swap(h, i, j);
    forall c | 1 <= c < |h| && c != i
      ensures Le(r[Parent(c)].k, r[c].k)
    {
      if c != j {
        assert Le(h[Parent(c)].k, h[c].k);
      }
    }
    forall c | 1 <= c < |h| && 1 <= i && Parent(c) == i
      ensures Le(r[Parent(i)].k, r[c].k)
    {
      assert Le(h[Parent(i)].k, h[i].k);
      if c != j {
        assert Le(h[Parent(c)].k, h[c].k);
      }
    }
  }

  lemma {:induction false} UpRestores(h: seq<Sample>, j: nat)
    requires j < |h| && UpOk(h, j)
    ensures Heap(Up(h, j))
    decreases j
  {
    if j > 0 && Lt(h[j].k, h[Parent(j)].k) {
      UpStep(h, j);
      UpRestores(Swap(h, Parent(j), j), Parent(j));
    }
  }

  /** Sifting permutes, whatever the keys. */
  lemma {:induction false} UpPermutes(h: seq<Sample>, j: nat)
    requires j < |h|
    ensures multiset(Up(h, j)) == multiset(h)
    decreases j
  {
    if j > 0 && Lt(h[j].k, h[Parent(j)].k) {
      SwapPermutes(h, Parent(j), j);
      UpPermutes(Swap(h, Parent(j), j), Parent(j));
    }
  }

  /** In order except below i, whose children respect its parent. */
  ghost predicate DownOk(h: seq<Sample>, i: nat) {
    && Ordered(h)
    && (forall c :: 1 <= c < |h| && Parent(c) != i ==> Le(h[Parent(c)].k, h[c].k))
    && (forall c :: 1 <= c < |h| && 1 <= i && Parent(c) == i ==> Le(h[Parent(i)].k, h[c].k))
  }

  lemma ParentIs(c: int, i: nat)
    requires 1 <= c
    ensures Parent(c) == i <==> c == 2 * i + 1 || c == 2 * i + 2
  {
  }

  lemma ChildIsLeast(h: seq<Sample>, i: nat)
    requires 2 * i + 1 < |h| && Ordered(h)
    ensures forall c :: 1 <= c < |h| && Parent(c) == i ==> Le(h[Child(h, i)].k, h[c].k)
  {
  }

  lemma DownStep(h: seq<Sample>, i: nat)
    requires 2 * i + 1 < |h| && DownOk(h, i) && Lt(h[Child(h, i)].k, h[i].k)
    ensures DownOk(Swap(h, i, Child(h, i)), Child(h, i))
  {
    var j := Child(h, i);
    var r := Swap(h, i, j);
    ChildIsLeast(h, i);
    forall c | 1 <= c < |h| && Parent(c) != j
      ensures Le(r[Parent(c)].k, r[c].k)
    {
      if Parent(c) == i {
      } else if c == i {
        assert Le(h[Parent(i)].k, h[j].k);
      } else {
        assert Le(h[Parent(c)].k, h[c].k);
      }
    }
    forall c | 1 <= c < |h| && Parent(c) == j
      ensures Le(r[Parent(j)].k, r[c].k)
    {
      assert Le(h[j].k, h[c].k);
    }
  }

  lemma {:induction false} DownRestores(h: seq<Sample>, i: nat)
    requires DownOk(h, i)
    ensures Heap(Down(h, i)) && multiset(Down(h, i)) == multiset(h)
    decreases |h| - i
  {
    if 2 * i + 1 < |h| && Lt(h[Child(h, i)].k, h[i].k) {
      DownStep(h, i);
      SwapPermutes(h, i, Child(h, i));
      DownRestores(Swap(h, i, Child(h, i)), Child(h, i));
    } else {
      forall c | 1 <= c < |h|
        ensures Le(h[Parent(c)].k, h[c].k)
      {
        if Parent(c) == i {
          ParentIs(c, i);
          ChildIsLeast(h, i);
        }
      }
    }
  }

  lemma {:induction false} RootIsLeast(h: seq<Sample>, i: nat)
    requires i < |h| && Heap(h)
    ensures Le(h[0].k, h[i].k)
  {
    if i > 0 {
      RootIsLeast(h, Parent(i));
    }
  }

  // ---------- Push and pop ----------

  function Pushed(h: seq<Sample>, x: Sample): seq<Sample> {
    Up(h + [x], |h|)
  }

  function Popped(h: seq<Sample>): seq<Sample>
    requires h != []
  {
    Down(h[|h| - 1 := h[0]][0 := h[|h| - 1]][..|h| - 1], 0)
  }

  /** A push adds exactly its sample, and keeps the heap exactly when the new
      key is a number. */
  lemma PushKeepsHeap(h: seq<Sample>, x: Sample)
    requires Heap(h)
    ensures Heap(Pushed(h, x)) <==> !x.k.NaN?
  {
    var e := h + [x];
    if !x.k.NaN? {
      forall c | 1 <= c < |e| && c != |h|
        ensures Le(e[Parent(c)].k, e[c].k)
      {
        assert Le(h[Parent(c)].k, h[c].k);
      }
      UpRestores(e, |h|);
    } else {
      assert Up(e, |h|) == e && e[|h|].k.NaN?;
    }
  }

  lemma PushAdds(h: seq<Sample>, x: Sample)
    ensures multiset(Pushed(h, x)) == multiset(h) + multiset{x}
  {
    UpPermutes(h + [x], |h|);
  }

  /** A pop keeps the heap and removes exactly one sample, of least key. */
  lemma PopRemovesLeast(h: seq<Sample>)
    requires Heap(h) && h != []
    ensures Heap(Popped(h))
    ensures multiset(Popped(h)) + multiset{h[0]} == multiset(h)
    ensures forall i :: 0 <= i < |h| ==> Le(h[0].k, h[i].k)
  {
    var n := |h| - 1;
    var e := h[n := h[0]][0 := h[n]][..n];
    forall c | 1 <= c < |e| && Parent(c) != 0
      ensures Le(e[Parent(c)].k, e[c].k)
    {
      assert Le(h[Parent(c)].k, h[c].k);
    }
    DownRestores(e, 0);
    forall i | 0 <= i < |h|
      ensures Le(h[0].k, h[i].k)
    {
      RootIsLeast(h, i);
    }
    PoppedMultiset(h);
  }

  lemma PoppedMultiset(h: seq<Sample>)
    requires h != []
    ensures var n := |h| - 1; multiset(h[n := h[0]][0 := h[n]][..n]) + multiset{h[0]} == multiset(h)
  {
    var n := |h| - 1;
    if n == 0 {
      assert h == [h[0]];
    } else {
      var swapped := Swap(h, 0, n);
      SwapPermutes(h, 0, n);
      assert swapped == h[n := h[0]][0 := h[n]][..n] + [h[0]];
    }
  }

  // ---------- The heap object ----------

  /** A slice of a fixed backing array: its first [size] entries. */
  class ExpDecaySampleHeap {
    const s: array<Sample>
    var size: nat

    ghost predicate Valid()
      reads this
    {
      size <= s.Length
    }

    ghost function Values(): seq<Sample>
      reads this, s
      requires Valid()
    {
      s[..size]
    }

    constructor (reservoirSize: nat)
      ensures Valid() && fresh(s) && s.Length == reservoirSize && size == 0
    {
      s := new Sample[reservoirSize](_ => Sample(Finite(0.0), 0));
      size := 0;
    }

    /** Forget the samples; the backing array keeps them. */
    method Clear()
      modifies this
      ensures Valid() && size == 0
    {
      size := 0;
    }

    /** Append in the backing array and sift up; entries beyond the new end
        are not touched. */
    method Push(x: Sample)
      requires Valid() && size < s.Length
      modifies this, s
      ensures Valid() && size == old(size) + 1
      ensures Values() == Pushed(old(Values()), x)
      ensures s[size..] == old(s[size + 1..])
    {
      var n := size;
      size := size + 1;
      s[n] := x;
      assert s[..size] == old(s[..size]) + [x];
      SiftUp(n);
    }

    method Pop() returns (x: Sample)
      requires Valid() && 0 < size
      modifies this, s
      ensures Valid() && size == old(size) - 1
      ensures x == old(Values())[0]
      ensures Values() == Popped(old(Values()))
    {
      var n := size - 1;
      s[0], s[n] := s[n], s[0];
      assert s[..n] == old(s[..size])[n := old(s[0])][0 := old(s[n])][..n];
      SiftDown(0, n);
      x := s[n];
      size := n;
    }

    method SiftUp(j0: nat)
      requires Valid() && j0 < size
      modifies s
      ensures Values() == Up(old(Values()), j0)
      ensures s[size..] == old(s[size..])
    {
      var j := j0;
      while true
        invariant 0 <= j < size
        invariant s[size..] == old(s[size..])
        invariant Up(Values(), j) == Up(old(Values()), j0)
        decreases j
      {
        var i := if j == 0 then 0 else (j - 1) / 2;
        if i == j || !Lt(s[j].k, s[i].k) {
          break;
        }
        SwapEntries(i, j, size);
        j := i;
      }
    }

    method SwapEntries(i: nat, j: nat, n: nat)
      requires n <= s.Length && i < n && j < n
      modifies s
      ensures s[..n] == Swap(old(s[..n]), i, j)
      ensures s[n..] == old(s[n..])
    {
      s[i], s[j] := s[j], s[i];
    }

    method SiftDown(i0: nat, n: nat)
      requires n <= s.Length
      modifies s
      ensures s[..n] == Down(old(s[..n]), i0)
      ensures s[n..] == old(s[n..])
    {
      var i := i0;
      while true
        invariant s[n..] == old(s[n..])
        invariant Down(s[..n], i) == Down(old(s[..n]), i0)
        decreases n - i
      {
        var j1 := 2 * i + 1;
        if j1 >= n {
          break;
        }
        var j := j1;
        if j1 + 1 < n && !Lt(s[j1].k, s[j1 + 1].k) {
          j := j1 + 1;
        }
        assert j == Child(s[..n], i);
        if !Lt(s[j].k, s[i].k) {
          break;
        }
        SwapEntries(i, j, n);
        i := j;
      }
    }
  }

  // ---------- The sample ----------

  function ScaleOne(x: Sample, f: real): Sample {
    Sample(Times(x.k, f), x.v)
  }

  function Scale(h: seq<Sample>, f: real): seq<Sample> {
    seq(|h|, i requires 0 <= i < |h| => ScaleOne(h[i], f))
  }

  function Least(a: nat, b: nat): nat {
    if a <= b then a else b
  }

  class ExpDecaySample {
    const reservoirSize: nat
    const values: ExpDecaySampleHeap
    var count: nat                 // updates since the last clear
    var t0: int
    var t1: int

    ghost predicate Valid()
      reads this, values, values.s
    {
      && 0 < reservoirSize == values.s.Length
      && values.Valid() && Heap(values.Values())
      && values.size == Least(count, reservoirSize)
    }

    constructor (n: nat, now: int)
      requires 0 < n
      ensures Valid() && fresh(values) && fresh(values.s) && count == 0 && reservoirSize == n
    {
      reservoirSize := n;
      values := new ExpDecaySampleHeap(n);
      count := 0;
      t0 := now;
      t1 := now + RESCALE_THRESHOLD;
    }

    method Clear(now: int)
      requires Valid()
      modifies this, values
      ensures Valid() && count == 0 && values.size == 0
    {
      count := 0;
      t0 := now;
      t1 := t0 + RESCALE_THRESHOLD;
      values.Clear();
    }

    /** Add a sample with key k at time t; [factor] is the decay since the last
        rescale.  A full reservoir first loses one sample of least key; once
        the hour has passed every remaining key is scaled, and no sample is
        lost or duplicated.  The order is kept exactly when no key stops being
        a number: neither the new one, nor an infinite one scaled by 0. */
    method Update(t: int, k: Key, v: int, factor: real) returns (ghost kept: seq<Sample>)
      requires Valid()
      modifies this, values, values.s
      ensures values.Valid() && count == old(count) + 1 && values.size == Least(count, reservoirSize)
      ensures (t0, t1) == if t > old(t1) then (t, t + RESCALE_THRESHOLD) else (old(t0), old(t1))
      ensures KeptAfterEviction(old(values.Values()), reservoirSize, kept)
      ensures t <= old(t1) ==> multiset(values.Values()) == multiset(kept + [Sample(k, v)])
      ensures t > old(t1) ==>
                multiset(values.Values()) == multiset(Scale(kept + [Sample(k, v)], factor))
      ensures Valid() <==> !k.NaN? && (t > old(t1) && factor == 0.0 ==> NoInfinite(kept + [Sample(k, v)]))
    {
      count := count + 1;
      kept := AddSample(k, v);
      RescaleIfDue(t, kept + [Sample(k, v)], factor);
    }

    /** Start a new hour, with every key scaled, once the last one has passed. */
    method RescaleIfDue(t: int, ghost samples: seq<Sample>, factor: real)
      requires values.Valid() && values.s.Length == reservoirSize
      requires multiset(values.Values()) == multiset(samples) && (Heap(values.Values()) <==> Ordered(samples))
      modifies this`t0, this`t1, values, values.s
      ensures values.Valid() && values.size == old(values.size)
      ensures (t0, t1) == if t > old(t1) then (t, t + RESCALE_THRESHOLD) else (old(t0), old(t1))
      ensures multiset(values.Values()) == multiset(if t > old(t1) then Scale(samples, factor) else samples)
      ensures Heap(values.Values()) <==> Ordered(samples) && (t > old(t1) && factor == 0.0 ==> NoInfinite(samples))
    {
      if t > t1 {
        RescaleTo(samples, factor);
        ScaledOrdered(samples, factor);
        t0 := t;
        t1 := t0 + RESCALE_THRESHOLD;
      }
    }

    /** Rescale samples known up to order. */
    method RescaleTo(ghost samples: seq<Sample>, f: real)
      requires values.Valid() && values.s.Length == reservoirSize && multiset(values.Values()) == multiset(samples)
      modifies values, values.s
      ensures values.Valid() && values.size == old(values.size)
      ensures multiset(values.Values()) == multiset(Scale(samples, f))
      ensures Heap(values.Values()) <==> Ordered(Scale(samples, f))
    {
      ScalePermutes(values.Values(), samples, f);
      SameOrdered(Scale(values.Values(), f), Scale(samples, f));
      Rescale(f);
    }

    /** Make room, then push. */
    method AddSample(k: Key, v: int) returns (ghost kept: seq<Sample>)
      requires 0 < reservoirSize == values.s.Length && values.Valid() && Heap(values.Values())
      modifies values, values.s
      ensures values.Valid() && values.size == Least(old(values.size) + 1, reservoirSize)
      ensures KeptAfterEviction(old(values.Values()), reservoirSize, kept)
      ensures multiset(values.Values()) == multiset(kept + [Sample(k, v)])
      ensures Ordered(kept + [Sample(k, v)]) <==> !k.NaN?
      ensures Heap(values.Values()) <==> !k.NaN?
    {
      kept := MakeRoom();
      PushKeepsHeap(kept, Sample(k, v));
      PushAdds(kept, Sample(k, v));
      values.Push(Sample(k, v));
      assert (kept + [Sample(k, v)])[|kept|].k == k;
    }

    /** Evict a sample of least key if the reservoir is full. */
    method MakeRoom() returns (ghost kept: seq<Sample>)
      requires 0 < reservoirSize == values.s.Length && values.Valid() && Heap(values.Values())
      modifies values, values.s
      ensures values.Valid() && Heap(values.Values()) && values.size < reservoirSize
      ensures values.size == Least(old(values.size), reservoirSize - 1)
      ensures kept == values.Values() && KeptAfterEviction(old(values.Values()), reservoirSize, kept)
    {
      ghost var before := values.Values();
      if values.size == reservoirSize {
        PopRemovesLeast(before);
        var x := values.Pop();
        assert before[0] in before;
      }
      kept := values.Values();
    }

    /** Push every sample, scaled, into the array it is read from.  Iteration
        i reads entry i before the push writes it. */
    method Rescale(f: real)
      requires values.Valid() && values.s.Length == reservoirSize
      modifies values, values.s
      ensures values.Valid() && values.size == old(values.size)
      ensures multiset(values.Values()) == multiset(Scale(old(values.Values()), f))
      ensures Heap(values.Values()) <==> Ordered(Scale(old(values.Values()), f))
    {
      var n := values.size;
      ghost var all := values.Values();
      values.Clear();
      assert Scale(all[..0], f) == [];
      var i := 0;
      while i < n
        invariant 0 <= i <= n <= values.s.Length && values.size == i
        invariant Ordered(Scale(all[..i], f)) ==> Heap(values.Values())
        invariant multiset(values.Values()) == multiset(Scale(all[..i], f))
        invariant values.s[i..n] == all[i..]
      {
        PushScaled(i, n, f, all);
        i := i + 1;
      }
      assert all[..n] == all;
      SameOrdered(values.Values(), Scale(all, f));
    }

    method PushScaled(i: nat, n: nat, f: real, ghost all: seq<Sample>)
      requires i < n <= values.s.Length && values.size == i && |all| == n
      requires Ordered(Scale(all[..i], f)) ==> Heap(values.s[..i])
      requires multiset(values.s[..i]) == multiset(Scale(all[..i], f))
      requires values.s[i..n] == all[i..]
      modifies values, values.s
      ensures values.size == i + 1
      ensures Ordered(Scale(all[..i + 1], f)) ==> Heap(values.s[..i + 1])
      ensures multiset(values.s[..i + 1]) == multiset(Scale(all[..i + 1], f))
      ensures values.s[i + 1..n] == all[i + 1..]
    {
      hide Heap, Ordered;
      var x := values.s[i];
      assert x == values.s[i..n][0] == all[i];
      assert all[..i + 1] == all[..i] + [x];
      ScaleCount(all[..i], f, x);
      OrderedPrefix(all[..i], f, x);
      if Ordered(Scale(all[..i + 1], f)) {
        PushKeepsHeap(values.Values(), ScaleOne(x, f));
      }
      PushAdds(values.Values(), ScaleOne(x, f));
      ghost var rest := values.s[i + 1..];
      assert rest[..n - i - 1] == values.s[i + 1..n] == values.s[i..n][1..];
      values.Push(ScaleOne(x, f));
      assert values.s[i + 1..] == rest;
      assert values.s[i + 1..n] == rest[..n - i - 1];
    }
  }

  predicate NoInfinite(h: seq<Sample>) {
    forall i :: 0 <= i < |h| ==> !h[i].k.Infinite?
  }

  /** Scaling keeps every key a number exactly when they were numbers and no
      infinite one meets the factor 0. */
  lemma ScaledOrdered(h: seq<Sample>, f: real)
    ensures Ordered(Scale(h, f)) <==> Ordered(h) && (f == 0.0 ==> NoInfinite(h))
  {
    if Ordered(Scale(h, f)) {
      forall i | 0 <= i < |h|
        ensures !h[i].k.NaN? && (f == 0.0 ==> !h[i].k.Infinite?)
      {
        assert !Scale(h, f)[i].k.NaN?;
      }
    }
  }

  lemma OrderedPrefix(h: seq<Sample>, f: real, x: Sample)
    ensures Ordered(Scale(h + [x], f)) ==> Ordered(Scale(h, f)) && !ScaleOne(x, f).k.NaN?
  {
    assert Scale(h + [x], f) == Scale(h, f) + [ScaleOne(x, f)];
    assert (Scale(h, f) + [ScaleOne(x, f)])[|h|] == ScaleOne(x, f);
    assert forall i :: 0 <= i < |h| ==> Scale(h, f)[i] == (Scale(h, f) + [ScaleOne(x, f)])[i];
  }

  /** Being numbers does not depend on the order. */
  lemma SameOrdered(a: seq<Sample>, b: seq<Sample>)
    requires multiset(a) == multiset(b)
    ensures Ordered(a) <==> Ordered(b)
  {
    if Ordered(a) {
      OrderedAs(a, b);
    }
    if Ordered(b) {
      OrderedAs(b, a);
    }
  }

  lemma OrderedAs(a: seq<Sample>, b: seq<Sample>)
    requires multiset(a) == multiset(b) && Ordered(a)
    ensures Ordered(b)
  {
    forall i | 0 <= i < |b|
      ensures !b[i].k.NaN?
    {
      assert b[i] in multiset(b);
      assert b[i] in a;
    }
  }

  /** With a key that is not a number the comparisons of the code can all be
      satisfied while the root is not least, so an eviction takes the wrong
      sample. */
  lemma NaNHidesLeast()
    ensures var h := [Sample(Finite(5.0), 0), Sample(NaN, 0), Sample(Finite(7.0), 0), Sample(Finite(1.0), 0)];
            && (forall c :: 1 <= c < |h| ==> !Lt(h[c].k, h[Parent(c)].k))
            && Lt(h[3].k, h[0].k)
            && Pushed(h[..3], h[3]) == h
  {
    var h := [Sample(Finite(5.0), 0), Sample(NaN, 0), Sample(Finite(7.0), 0), Sample(Finite(1.0), 0)];
    assert h[..3] + [h[3]] == h;
  }

  /** Either nothing was evicted, or the reservoir was full and exactly one
      sample of least key was. */
  ghost predicate KeptAfterEviction(before: seq<Sample>, capacity: nat, kept: seq<Sample>) {
    if |before| < capacity then kept == before
    else exists x :: x in before && (forall y :: y in before && y.k.Finite? ==> x.k.Finite? && x.k.r <= y.k.r)
                     && multiset(kept) + multiset{x} == multiset(before)
  }

  /** Scaling multiplies each finite key, keeps the values and their order of
      arrival, keeps the order of keys under a positive factor, and composes
      over successive hours. */
  lemma ScalingLaws(h: seq<Sample>, f: real, g: real, i: nat, j: nat)
    requires i < |h| && j < |h|
    ensures Scale(h, f)[i].v == h[i].v
    ensures h[i].k.Finite? ==> Scale(h, f)[i].k == Finite(h[i].k.r * f)
    ensures 0.0 < f ==> (Lt(Scale(h, f)[i].k, Scale(h, f)[j].k) <==> Lt(h[i].k, h[j].k))
    ensures Scale(Scale(h, f), g) == Scale(h, f * g)
  {
    if h[i].k.Finite? && h[j].k.Finite? {
      var x, y := h[i].k.r, h[j].k.r;
      assert (y - x) * f == y * f - x * f;
    }
    forall n | 0 <= n < |h|
      ensures Times(Times(h[n].k, f), g) == Times(h[n].k, f * g)
    {
      TimesCompose(h[n].k, f, g);
    }
  }

  lemma TimesCompose(k: Key, f: real, g: real)
    ensures Times(Times(k, f), g) == Times(k, f * g)
  {
    if k.Finite? {
      assert k.r * f * g == k.r * (f * g);
    } else if f != 0.0 && g != 0.0 {
      assert f * g != 0.0;
    }
  }

  lemma ScaleCount(h: seq<Sample>, f: real, x: Sample)
    ensures multiset(Scale(h + [x], f)) == multiset(Scale(h, f)) + multiset{ScaleOne(x, f)}
  {
    assert Scale(h + [x], f) == Scale(h, f) + [ScaleOne(x, f)];
  }

  lemma ScaleRemove(h: seq<Sample>, f: real, i: nat)
    requires i < |h|
    ensures multiset(Scale(h, f)) == multiset(Scale(h[..i] + h[i + 1..], f)) + multiset{ScaleOne(h[i], f)}
  {
    var a, b := Scale(h[..i], f), Scale(h[i + 1..], f);
    assert Scale(h, f) == a + [ScaleOne(h[i], f)] + b;
    assert Scale(h[..i] + h[i + 1..], f) == a + b;
  }

  lemma RemoveSame(a: multiset<Sample>, b: multiset<Sample>, x: Sample)
    requires a + multiset{x} == b + multiset{x}
    ensures a == b
  {
    assert a == (a + multiset{x}) - multiset{x};
    assert b == (b + multiset{x}) - multiset{x};
  }

  /** Scaling respects permutation. */
  lemma {:induction false} ScalePermutes(a: seq<Sample>, b: seq<Sample>, f: real)
    requires multiset(a) == multiset(b)
    ensures multiset(Scale(a, f)) == multiset(Scale(b, f))
    decreases |a|
  {
    assert |multiset(a)| == |a| && |multiset(b)| == |b|;
    if a == [] {
      assert Scale(a, f) == Scale(b, f);
    } else {
      var x, init := a[|a| - 1], a[..|a| - 1];
      assert a == init + [x];
      assert x in multiset(b);
      var i :| 0 <= i < |b| && b[i] == x;
      var c := b[..i] + b[i + 1..];
      assert b == b[..i] + [x] + b[i + 1..];
      RemoveSame(multiset(init), multiset(c), x);
      ScalePermutes(init, c, f);
      ScaleRemove(b, f, i);
      ScaleCount(init, f, x);
    }
  }
}
