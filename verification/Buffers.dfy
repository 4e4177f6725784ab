/** The bounded buffer and the first-in-first-out cache built on it. */
module Buffers {
  import opened BlockTree

  /** What one insertion does to the window of a buffer of the given size. */
  function Slide<K>(size: nat, window: seq<K>, x: K): (r: seq<K>)
    requires 0 < size && |window| <= size
    ensures |r| <= size && |r| > 0 && r[|r| - 1] == x
  {
    (if |window| == size then window[1..] else window) + [x]
  }

  /** The window after a whole run of insertions into an empty buffer. */
  function SlideAll<K>(size: nat, xs: seq<K>): (r: seq<K>)
    requires 0 < size
    ensures |r| <= size
  {
    if xs == [] then []
    else Slide(size, SlideAll(size, xs[..|xs| - 1]), xs[|xs| - 1])
  }

  /** The items handed to the eviction callback during that run, in order. */
  function Evicted<K>(size: nat, xs: seq<K>): seq<K>
    requires 0 < size
  {
    if xs == [] then []
    else
      var before := SlideAll(size, xs[..|xs| - 1]);
      Evicted(size, xs[..|xs| - 1]) + (if |before| == size then [before[0]] else [])
  }

  /** The buffer splits the run: evictions are a prefix of the insertions, in
      insertion order, and the window is the rest, so the k-th eviction
      releases exactly the k-th insertion. */
  lemma {:induction false} EvictionsArePrefix<K>(size: nat, xs: seq<K>)
    requires 0 < size
    ensures Evicted(size, xs) + SlideAll(size, xs) == xs
    ensures |SlideAll(size, xs)| == if |xs| < size then |xs| else size
  {
    if xs != [] {
      var init := xs[..|xs| - 1];
      EvictionsArePrefix(size, init);
      var w := SlideAll(size, init);
      assert init + [xs[|xs| - 1]] == xs;
      if |w| == size {
        assert [w[0]] + w[1..] == w;
        assert Evicted(size, xs) + SlideAll(size, xs)
            == Evicted(size, init) + ([w[0]] + w[1..]) + [xs[|xs| - 1]];
      } else {
        assert Evicted(size, xs) + SlideAll(size, xs)
            == (Evicted(size, init) + w) + [xs[|xs| - 1]];
      }
    }
  }

  lemma RecentInWindow<K>(size: nat, xs: seq<K>, i: nat)
    requires 0 < size && i < |xs| && |xs| - size <= i
    ensures xs[i] in SlideAll(size, xs)
  {
    EvictionsArePrefix(size, xs);
    var e, w := Evicted(size, xs), SlideAll(size, xs);
    assert (e + w)[i] == w[i - |e|];
  }

  /** Overwriting the oldest entry of a ring slides its window. */
  lemma RingSlides<K>(a: seq<K>, p: nat, x: K)
    requires p < |a|
    ensures var w, b := a[p..] + a[..p], a[p := x];
            w[0] == a[p] && b[p + 1..] + b[..p + 1] == w[1..] + [x]
  {
  }

  /** A ring of the most recent items; [Insert] hands the item it is about to
      overwrite to a callback, which may refuse. */
  class BoundedBuffer<K(0)> {
    var lastPos: int
    const size: nat
    const buffer: array<K>
    var cycled: bool

    ghost predicate Valid()
      reads this
    {
      && 0 < size == buffer.Length
      && -1 <= lastPos < size
      && (cycled ==> 0 <= lastPos)
    }

    /** The retained items, oldest first. */
    ghost function Window(): (w: seq<K>)
      reads this, buffer
      requires Valid()
      ensures |w| <= size
    {
      if cycled then buffer[lastPos + 1..] + buffer[..lastPos + 1] else buffer[..lastPos + 1]
    }

    constructor (n: nat)
      requires 0 < n
      ensures Valid() && fresh(buffer) && size == n && Window() == []
    {
      lastPos := -1;
      size := n;
      buffer := new K[n];
      cycled := false;
    }

    /** [callbackOk] is the callback's verdict, should it be consulted. */
    method Insert(h: K, callbackOk: bool) returns (released: Option<K>, ok: bool)
      requires Valid()
      modifies this, buffer
      ensures Valid()
      ensures released == if |old(Window())| == size then Some(old(Window())[0]) else None
      ensures ok == (released.None? || callbackOk)
      ensures Window() == if ok then Slide(size, old(Window()), h) else old(Window())
    {
      released := None;
      ghost var w, a := Window(), buffer[..];
      var nextPos := lastPos + 1;
      if nextPos == size {
        nextPos := 0;
        cycled := true;
      }
      assert w == if cycled then a[nextPos..] + a[..nextPos] else a[..nextPos];
      RingSlides(a, nextPos, h);
      if cycled {
        released := Some(buffer[nextPos]);
        if !callbackOk {
          return released, false;
        }
      }
      buffer[nextPos] := h;
      lastPos := nextPos;
      ok := true;
      assert buffer[..] == a[nextPos := h];
      assert buffer[..nextPos + 1] == a[nextPos := h][..nextPos + 1];
      assert buffer[nextPos + 1..] == a[nextPos := h][nextPos + 1..];
    }

    method Last() returns (r: Option<K>)
      requires Valid()
      ensures r == if Window() == [] then None else Some(Window()[|Window()| - 1])
    {
      if lastPos == -1 {
        return None;
      }
      return Some(buffer[lastPos]);
    }
  }

  /** The value of a first-in-first-out cache; a cache of limit 0 keeps nothing. */
  datatype Fifo<K(==), V> = Fifo(limit: nat, window: seq<K>, m: map<K, V>) {

    function Put(k: K, v: V): Fifo<K, V> {
      if limit == 0 then this
      else
        var kept := if |window| == limit then m - {window[0]} else m;
        Fifo(limit, (if |window| == limit then window[1..] else window) + [k], kept[k := v])
    }

    function Get(k: K): Option<V> {
      if k in m then Some(m[k]) else None
    }

    /** The keys present all belong to the last [limit] insertions. */
    ghost predicate Valid() {
      |window| <= limit && forall k :: k in m ==> k in window
    }
  }

  /** Storing under a key that is not already buffered keeps every retained
      key readable: exactly the keys of the window are present. */
  lemma PutKeepsWindow<K, V>(c: Fifo<K, V>, k: K, v: V)
    requires 0 < c.limit && c.Valid()
    requires forall i, j :: 0 <= i < j < |c.window| ==> c.window[i] != c.window[j]
    requires forall i :: 0 <= i < |c.window| ==> c.window[i] in c.m
    requires k !in c.window
    ensures var c' := c.Put(k, v);
            && c'.window == Slide(c.limit, c.window, k)
            && c'.Valid()
            && forall i :: 0 <= i < |c'.window| ==>
                 c'.window[i] in c'.m
                 && c'.m[c'.window[i]] == if c'.window[i] == k then v else c.m[c'.window[i]]
  {
  }

  /** The cache object: a map and the buffer that decides what leaves it. */
  class FifoCache<K(==, 0), V> {
    const buffer: BoundedBuffer<K>
    var m: map<K, V>

    ghost predicate Valid()
      reads this, buffer
    {
      buffer.Valid()
    }

    ghost function Value(): Fifo<K, V>
      reads this, buffer, buffer.buffer
      requires Valid()
    {
      Fifo(buffer.size, buffer.Window(), m)
    }

    constructor (limit: nat)
      requires 0 < limit
      ensures Valid() && fresh(buffer) && fresh(buffer.buffer)
      ensures Value() == Fifo(limit, [], map[])
    {
      buffer := new BoundedBuffer<K>(limit);
      m := map[];
    }

    method Put(key: K, val: V)
      requires Valid()
      modifies this, buffer, buffer.buffer
      ensures Valid() && Value() == old(Value()).Put(key, val)
    {
      ghost var before := Value();
      var released, _ := buffer.Insert(key, true);
      assert buffer.Window() == Slide(before.limit, before.window, key);
      if released.Some? {
        m := m - {released.value};
      }
      m := m[key := val];
      assert m == before.Put(key, val).m;
    }

    method Get(key: K) returns (r: Option<V>)
      requires Valid()
      ensures r == Value().Get(key)
    {
      if key in m {
        return Some(m[key]);
      }
      return None;
    }
  }
}
