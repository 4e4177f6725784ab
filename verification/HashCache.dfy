/** The ancestor-hash function handed to the EVM, with its memo. */
module HashCache {
  import opened BlockTree

  /** Walk parent by parent from a known hash h down to height n, looking up
      each header on the way. */
  function Walk(known: set<Block>, h: Block, n: nat): Option<Block> {
    if h.Number() == n then Some(h)
    else if h.Child? && h in known then Walk(known, h.parent, n)
    else None
  }

  /** The answer without a memo: walk from the parent of the reference header. */
  function PlainLookup(known: set<Block>, header: Block, n: nat): Option<Block> {
    if header.Number() <= n then None else Walk(known, header.parent, n)
  }

  /** Every header a walk from h to height n looks up is known. */
  ghost predicate AllKnown(known: set<Block>, h: Block, n: nat) {
    forall m: nat :: n < m <= h.Number() ==> h.At(m) in known
  }

  /** A walk that starts from above n either meets an unknown header or ends
      exactly at n, with the ancestor of that height. */
  lemma {:induction false} WalkFindsAncestor(known: set<Block>, h: Block, n: nat)
    requires n <= h.Number()
    ensures Walk(known, h, n) == if AllKnown(known, h, n) then Some(h.At(n)) else None
    decreases h
  {
    if h.Number() > n {
      WalkFindsAncestor(known, h.parent, n);
      assert h.At(h.Number()) == h;
      if AllKnown(known, h, n) {
        forall m: nat | n < m <= h.parent.Number()
          ensures h.parent.At(m) in known
        {
          assert h.At(m) in known;
        }
      } else if h in known {
        var m: nat :| n < m <= h.Number() && h.At(m) !in known;
        assert h.parent.At(m) !in known;
      }
    }
  }

  /** The memo is a prefix of the ancestors of the reference header, nearest
      first, and every header walked over is known. */
  ghost predicate Memo(header: Block, cache: seq<Block>, known: set<Block>) {
    && |cache| <= header.Number()
    && (forall i :: 0 <= i < |cache| ==> Remembers(header, cache, i))
    && (forall i :: 0 <= i < |cache| - 1 ==> cache[i] in known)
  }

  ghost predicate Remembers(header: Block, cache: seq<Block>, i: nat)
    requires i < |cache| <= header.Number()
  {
    cache[i] == header.At(header.Number() - 1 - i)
  }

  /** A memo that reaches height n knows every header above it. */
  lemma CachedAbove(header: Block, cache: seq<Block>, known: set<Block>, n: nat)
    requires Memo(header, cache, known) && n < header.Number() <= n + |cache|
    ensures AllKnown(known, header.parent, n)
  {
    forall m: nat | n < m <= header.parent.Number()
      ensures header.parent.At(m) in known
    {
      assert Remembers(header, cache, header.Number() - 1 - m);
    }
  }

  /** One more step of the walk extends the memo by one ancestor. */
  lemma MemoExtends(header: Block, cache: seq<Block>, known: set<Block>)
    requires Memo(header, cache, known) && 0 < |cache| < header.Number() && cache[|cache| - 1] in known
    ensures cache[|cache| - 1].Child? && cache[|cache| - 1].Number() == header.Number() - |cache|
    ensures Memo(header, cache + [cache[|cache| - 1].parent], known)
  {
    assert Remembers(header, cache, |cache| - 1);
    AtParent(header, header.Number() - |cache|);
    var next := cache + [cache[|cache| - 1].parent];
    forall i: nat | i < |next|
      ensures Remembers(header, next, i)
    {
      if i < |cache| {
        assert Remembers(header, cache, i);
      }
    }
  }

  class GetHash {
    const header: Block
    var known: set<Block>       // headers the chain context can return
    var cache: seq<Block>

    ghost predicate Valid()
      reads this
    {
      Memo(header, cache, known)
    }

    constructor (h: Block, headers: set<Block>)
      ensures Valid() && header == h && known == headers && cache == []
    {
      header := h;
      known := headers;
      cache := [];
    }

    /** The chain may learn further headers between calls. */
    method Learn(headers: set<Block>)
      requires Valid()
      modifies this`known
      ensures Valid() && known == old(known) + headers
    {
      known := known + headers;
    }

    /** The memoised lookup answers like the plain walk, keeps the memo, and
        extends it exactly to the requested height when it succeeds beyond it. */
    method Lookup(n: nat) returns (r: Option<Block>)
      requires Valid()
      modifies this`cache
      ensures Valid()
      ensures r == PlainLookup(known, header, n)
      ensures r.Some? ==> n < header.Number() && r.value == header.At(n)
      ensures old(cache) <= cache
      ensures r.Some? ==>
                |cache| == if |old(cache)| < header.Number() - n then header.Number() - n else |old(cache)|
    {
      if header.Number() <= n {
        return None;
      }
      WalkFindsAncestor(known, header.parent, n);
      if |cache| == 0 {
        cache := cache + [header.parent];
        assert Remembers(header, cache, 0);
      }
      var idx := header.Number() - n - 1;
      if idx < |cache| {
        assert Remembers(header, cache, idx);
        CachedAbove(header, cache, known, n);
        return Some(cache[idx]);
      }
      var lastKnownHash := cache[|cache| - 1];
      var lastKnownNumber := header.Number() - |cache|;
      while true
        invariant Valid() && old(cache) <= cache && 0 < |cache| <= idx
        invariant lastKnownHash == cache[|cache| - 1]
        invariant lastKnownNumber == header.Number() - |cache|
        decreases lastKnownNumber
      {
        assert Remembers(header, cache, |cache| - 1);
        if lastKnownHash !in known {
          assert header.parent.At(lastKnownNumber) == lastKnownHash;
          assert !AllKnown(known, header.parent, n);
          return None;
        }
        var h := lastKnownHash;
        MemoExtends(header, cache, known);
        cache := cache + [h.parent];
        lastKnownHash := h.parent;
        lastKnownNumber := h.Number() - 1;
        if n == lastKnownNumber {
          CachedAbove(header, cache, known, n);
          assert Remembers(header, cache, |cache| - 1);
          return Some(lastKnownHash);
        }
      }
      r := None;
    }
  }
}
