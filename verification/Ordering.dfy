/** Pending transactions in price order, honouring each account's nonces. */
module Ordering {
  import opened BlockTree

  /** A pool transaction: when it was first seen and what it offers. */
  datatype LazyTx = LazyTx(id: nat, time: int, tip: nat, cap: nat, gas: nat, blobGas: nat)

  /** The next transaction of an account with the miner's fee. */
  datatype Head = Head(tx: LazyTx, from: nat, fees: nat)

  /** The account lists and the base fee a set was built from. */
  datatype Source = Source(txs: map<nat, seq<LazyTx>>, baseFee: Option<nat>)

  predicate FeeOk(tx: LazyTx, baseFee: Option<nat>) {
    baseFee.None? || baseFee.value <= tx.cap
  }

  /** The effective tip of a transaction whose cap covers the base fee. */
  function Wrap(tx: LazyTx, from: nat, baseFee: Option<nat>): (h: Head)
    requires FeeOk(tx, baseFee)
    ensures h.fees <= tx.tip
    ensures baseFee.Some? ==> baseFee.value + h.fees <= tx.cap
    ensures h.fees == tx.tip || (baseFee.Some? && baseFee.value + h.fees == tx.cap)
  {
    if baseFee.Some? && tx.cap - baseFee.value < tx.tip then Head(tx, from, tx.cap - baseFee.value)
    else Head(tx, from, tx.tip)
  }

  /** a may come before b: it pays more, or as much and was seen no later. */
  predicate Le(a: Head, b: Head) {
    a.fees > b.fees || (a.fees == b.fees && a.tx.time <= b.tx.time)
  }

  /** The heap's Less. */
  predicate Less(a: Head, b: Head) {
    !Le(b, a)
  }

  // ---------- The heap ----------

  function Parent(c: int): int
    requires 1 <= c
  {
    (c - 1) / 2
  }

  /** Every edge of h[..n] whose parent is at lo or above is in order. */
  ghost predicate HeapFrom(h: seq<Head>, lo: nat, n: nat)
    requires n <= |h|
  {
    forall c :: 1 <= c < n && lo <= Parent(c) ==> Le(h[Parent(c)], h[c])
  }

  lemma {:induction false} RootFirst(h: seq<Head>, n: nat, i: nat)
    requires i < n <= |h| && HeapFrom(h, 0, n)
    ensures Le(h[0], h[i])
  {
    if i > 0 {
      RootFirst(h, n, Parent(i));
      assert Le(h[Parent(i)], h[i]);
    }
  }

  lemma SwapMultiset(h: seq<Head>, i: nat, j: nat)
    requires i < |h| && j < |h|
    ensures multiset(h[i := h[j]][j := h[i]]) == multiset(h)
  {
  }

  /** Order is restored except below i, whose children already respect its
      parent. */
  ghost predicate SiftOk(h: seq<Head>, i0: nat, i: nat, n: nat)
    requires n <= |h|
  {
    && (forall c :: 1 <= c < n && i0 <= Parent(c) && Parent(c) != i ==> Le(h[Parent(c)], h[c]))
    && (forall c :: 1 <= c < n && Parent(c) == i && i0 < i && i0 <= Parent(i) ==> Le(h[Parent(i)], h[c]))
  }

  lemma SiftStep(h: seq<Head>, i0: nat, i: nat, j: nat, n: nat)
    requires n <= |h| && i0 <= i < j < n && Parent(j) == i && SiftOk(h, i0, i, n)
    requires Less(h[j], h[i])
    requires forall c :: 1 <= c < n && Parent(c) == i ==> Le(h[j], h[c])
    ensures SiftOk(h[i := h[j]][j := h[i]], i0, j, n)
  {
  }

  /** The child of i that down compares with. */
  function Child(h: seq<Head>, i: nat, n: nat): (j: nat)
    requires 2 * i + 1 < n <= |h|
    ensures i < j < n && Parent(j) == i
  {
    if 2 * i + 2 < n && Less(h[2 * i + 2], h[2 * i + 1]) then 2 * i + 2 else 2 * i + 1
  }

  lemma ChildIsFirst(h: seq<Head>, i: nat, n: nat)
    requires 2 * i + 1 < n <= |h|
    ensures forall c :: 1 <= c < n && Parent(c) == i ==> Le(h[Child(h, i, n)], h[c])
  {
  }

  lemma SiftDone(h: seq<Head>, i0: nat, i: nat, n: nat)
    requires n <= |h| && SiftOk(h, i0, i, n)
    requires 2 * i + 1 < n ==> Le(h[i], h[Child(h, i, n)])
    ensures HeapFrom(h, i0, n)
  {
  }

  /** container/heap's down: sift h[i0] down within h[..n]. */
  method Down(h: seq<Head>, i0: nat, n: nat) returns (r: seq<Head>)
    requires n <= |h| && HeapFrom(h, i0 + 1, n)
    ensures |r| == |h| && r[n..] == h[n..] && multiset(r) == multiset(h)
    ensures HeapFrom(r, i0, n)
  {
    r := h;
    var i := i0;
    while 2 * i + 1 < n && Less(r[Child(r, i, n)], r[i])
      invariant i0 <= i && |r| == |h| && r[n..] == h[n..] && multiset(r) == multiset(h)
      invariant SiftOk(r, i0, i, n)
      decreases n - i
    {
      var j := Child(r, i, n);
      ChildIsFirst(r, i, n);
      SiftStep(r, i0, i, j, n);
      SwapMultiset(r, i, j);
      r := r[i := r[j]][j := r[i]];
      i := j;
    }
    SiftDone(r, i0, i, n);
  }

  method Init(h: seq<Head>) returns (r: seq<Head>)
    ensures |r| == |h| && multiset(r) == multiset(h) && HeapFrom(r, 0, |r|)
  {
    r := h;
    var i := |h| / 2;
    while i > 0
      invariant 0 <= i && |r| == |h| && multiset(r) == multiset(h) && HeapFrom(r, i, |r|)
    {
      i := i - 1;
      r := Down(r, i, |r|);
    }
  }

  /** Remove the root. */
  method PopRoot(h: seq<Head>) returns (r: seq<Head>)
    requires h != [] && HeapFrom(h, 0, |h|)
    ensures HeapFrom(r, 0, |r|) && multiset(r) == multiset(h[1..])
  {
    var n := |h| - 1;
    SwapMultiset(h, 0, n);
    var swapped := h[0 := h[n]][n := h[0]];
    var sifted := Down(swapped, 0, n);
    assert sifted[n] == sifted[n..][0] == h[0];
    LastRemoved(h, sifted, n);
    r := sifted[..n];
  }

  lemma LastRemoved(h: seq<Head>, sifted: seq<Head>, n: nat)
    requires |h| == |sifted| == n + 1 && multiset(sifted) == multiset(h) && sifted[n] == h[0]
    ensures multiset(sifted[..n]) == multiset(h[1..])
  {
    assert sifted == sifted[..n] + [h[0]];
    assert h == [h[0]] + h[1..];
    var a, b, m := multiset(sifted[..n]), multiset(h[1..]), multiset{h[0]};
    assert a + m == b + m;
    assert a == (a + m) - m && b == (b + m) - m;
  }

  /** Replace the root and restore the order. */
  method ReplaceRoot(h: seq<Head>, x: Head) returns (r: seq<Head>)
    requires h != [] && HeapFrom(h, 0, |h|)
    ensures HeapFrom(r, 0, |r|) && multiset(r) == multiset([x] + h[1..])
  {
    var changed := h[0 := x];
    assert changed == [x] + h[1..];
    r := Down(changed, 0, |changed|);
  }

  // ---------- What may be picked ----------

  /** The live accounts, each with the position of its next transaction. */
  type Picks = map<nat, nat>

  ghost predicate ValidPicks(s: Source, p: Picks) {
    forall a :: a in p ==> a in s.txs && p[a] < |s.txs[a]| && FeeOk(s.txs[a][p[a]], s.baseFee)
  }

  function HeadOf(s: Source, p: Picks, a: nat): Head
    requires a in p && a in s.txs && p[a] < |s.txs[a]| && FeeOk(s.txs[a][p[a]], s.baseFee)
  {
    Wrap(s.txs[a][p[a]], a, s.baseFee)
  }

  /** No live account offers a transaction that strictly precedes a's. */
  ghost predicate Best(s: Source, p: Picks, a: nat)
    requires ValidPicks(s, p)
  {
    a in p && forall b :: b in p ==> Le(HeadOf(s, p, a), HeadOf(s, p, b))
  }

  /** Shift moves an account to its next affordable transaction or drops it;
      Pop always drops it. */
  function Advance(s: Source, p: Picks, a: nat, shift: bool): Picks
    requires a in p && a in s.txs
  {
    if shift && p[a] + 1 < |s.txs[a]| && FeeOk(s.txs[a][p[a] + 1], s.baseFee)
    then p[a := p[a] + 1] else p - {a}
  }

  // ---------- The transaction set ----------

  /** The map holds what follows each live head. */
  ghost predicate Follows(s: Source, p: Picks, txs: map<nat, seq<LazyTx>>) {
    ValidPicks(s, p) && forall a :: a in p ==> a in txs && txs[a] == s.txs[a][p[a] + 1..]
  }

  /** Take the first transaction of every account that can pay. */
  method FirstHeads(s: Source) returns (hs: seq<Head>, rest: map<nat, seq<LazyTx>>)
    requires forall a :: a in s.txs ==> s.txs[a] != []
    ensures OneHeadEach(s, Fresh(s), hs) && Follows(s, Fresh(s), rest)
  {
    NoHeads(s);
    hide OneHeadEach, Follows;
    var left := s.txs.Keys;
    ghost var p: Picks := map[];
    hs, rest := [], s.txs;
    while left != {}
      invariant left <= s.txs.Keys && p == Fresh(s) - left
      invariant OneHeadEach(s, p, hs) && Follows(s, p, rest)
      decreases |left|
    {
      var from :| from in left;
      hs, rest, p := AddFirst(s, hs, rest, p, from);
      left := left - {from};
      assert p == Fresh(s) - left;
    }
    assert p == Fresh(s);
  }

  lemma NoHeads(s: Source)
    ensures OneHeadEach(s, map[], []) && Follows(s, map[], s.txs)
  {
  }

  method AddFirst(s: Source, hs: seq<Head>, rest: map<nat, seq<LazyTx>>, ghost p: Picks, from: nat)
    returns (heads: seq<Head>, others: map<nat, seq<LazyTx>>, ghost q: Picks)
    requires OneHeadEach(s, p, hs) && Follows(s, p, rest) && from in s.txs && s.txs[from] != [] && from !in p
    ensures OneHeadEach(s, q, heads) && Follows(s, q, others)
    ensures q == if FeeOk(s.txs[from][0], s.baseFee) then p[from := 0] else p
  {
    if FeeOk(s.txs[from][0], s.baseFee) {
      HeadAdded(s, p, hs, from);
      FollowsFirst(s, p, rest, from);
      heads := hs + [Wrap(s.txs[from][0], from, s.baseFee)];
      others := rest[from := s.txs[from][1..]];
      q := p[from := 0];
    } else {
      heads, others, q := hs, rest - {from}, p;
    }
  }

  lemma FollowsFirst(s: Source, p: Picks, txs: map<nat, seq<LazyTx>>, a: nat)
    requires Follows(s, p, txs) && a !in p && a in s.txs && s.txs[a] != [] && FeeOk(s.txs[a][0], s.baseFee)
    ensures Follows(s, p[a := 0], txs[a := s.txs[a][1..]])
  {
  }

  /** The heap and the map once the best account moves to its next transaction. */
  method NextOfBest(heads: seq<Head>, txs: map<nat, seq<LazyTx>>, baseFee: Option<nat>, ghost s: Source, ghost p: Picks)
    returns (h: seq<Head>, rest: map<nat, seq<LazyTx>>, ghost q: Picks)
    requires heads != [] && HeapFrom(heads, 0, |heads|) && OneHeadEach(s, p, heads) && Follows(s, p, txs)
    requires baseFee == s.baseFee
    requires var a := heads[0].from; a in txs && |txs[a]| > 0 && FeeOk(txs[a][0], baseFee)
    ensures q == Advance(s, p, heads[0].from, true)
    ensures HeapFrom(h, 0, |h|) && OneHeadEach(s, q, h) && Follows(s, q, rest)
  {
    var acc := heads[0].from;
    var x := Wrap(txs[acc][0], acc, baseFee);
    FollowsNext(s, p, txs, acc);
    h := ReplaceRoot(heads, x);
    BestReplaced(s, p, heads, x, h);
    rest := txs[acc := txs[acc][1..]];
    q := p[acc := p[acc] + 1];
  }

  class TransactionsByPriceAndNonce {
    var txs: map<nat, seq<LazyTx>>
    var heads: seq<Head>
    const baseFee: Option<nat>
    ghost const source: Source
    ghost var picks: Picks

    /** The heap holds exactly one head per live account, and the map holds
        what follows it. */
    ghost predicate Valid()
      reads this
    {
      && baseFee == source.baseFee
      && HeapFrom(heads, 0, |heads|)
      && OneHeadEach(source, picks, heads)
      && Follows(source, picks, txs)
    }

    /** Every account starts at its first transaction, unless that one cannot
        pay the base fee. */
    constructor (s: Source)
      requires forall a :: a in s.txs ==> s.txs[a] != []
      ensures Valid() && source == s
      ensures picks == Fresh(s)
      ensures forall a :: a in picks <==>
                          a in s.txs && (s.baseFee.None? || s.baseFee.value <= s.txs[a][0].cap)
      ensures forall a :: a in picks ==> picks[a] == 0
    {
      var hs, rest := FirstHeads(s);
      var heap := Init(hs);
      HeadsPermuted(s, Fresh(s), hs, heap);
      txs := rest;
      heads := heap;
      baseFee := s.baseFee;
      source := s;
      picks := Fresh(s);
    }

    /** The next transaction: one that no other live head strictly precedes. */
    method Peek() returns (r: Option<Head>)
      requires Valid()
      ensures r.None? <==> picks == map[]
      ensures r.Some? ==> heads != [] && r.value == heads[0] && Best(source, picks, r.value.from)
      ensures r.Some? ==> r.value == HeadOf(source, picks, r.value.from)
      ensures r.Some? ==>
                forall b :: b in picks ==>
                  var h := HeadOf(source, picks, b);
                  h.fees < r.value.fees || (h.fees == r.value.fees && r.value.tx.time <= h.tx.time)
      ensures r.Some? ==>
                var tx := source.txs[r.value.from][picks[r.value.from]];
                && r.value.tx == tx
                && r.value.fees == if baseFee.Some? && tx.cap < baseFee.value + tx.tip
                                   then tx.cap - baseFee.value else tx.tip
    {
      if |heads| == 0 {
        assert picks == map[];
        return None;
      }
      BestAtRoot();
      return Some(heads[0]);
    }

    lemma BestAtRoot()
      requires Valid() && heads != []
      ensures Best(source, picks, heads[0].from)
    {
      forall b | b in picks
        ensures Le(heads[0], HeadOf(source, picks, b))
      {
        var i :| 0 <= i < |heads| && heads[i].from == b;
        RootFirst(heads, |heads|, i);
      }
    }

    method Shift()
      requires Valid() && heads != []
      modifies this
      ensures Valid()
      ensures picks == Advance(source, old(picks), old(heads[0].from), true)
      ensures var acc := old(heads[0].from);
              var next := old(picks[acc]) + 1;
              picks == if next < |source.txs[acc]|
                          && (baseFee.None? || baseFee.value <= source.txs[acc][next].cap)
                       then old(picks)[acc := next] else old(picks) - {acc}
    {
      var acc := heads[0].from;
      if acc in txs && |txs[acc]| > 0 {
        if FeeOk(txs[acc][0], baseFee) {
          ReplaceBest();
          return;
        }
      }
      DropRoot();
    }

    /** Put the next transaction of the best account in its place. */
    method ReplaceBest()
      requires Valid() && heads != []
      requires var a := heads[0].from; a in txs && |txs[a]| > 0 && FeeOk(txs[a][0], baseFee)
      modifies this
      ensures Valid()
      ensures picks == Advance(source, old(picks), old(heads[0].from), true)
    {
      var h, rest;
      ghost var q;
      h, rest, q := NextOfBest(heads, txs, baseFee, source, picks);
      heads, txs, picks := h, rest, q;
    }

    /** Remove the best transaction and everything behind it. */
    method DropRoot()
      requires Valid() && heads != []
      modifies this
      ensures Valid()
      ensures picks == Advance(source, old(picks), old(heads[0].from), false)
      ensures picks == old(picks) - {old(heads[0].from)}
    {
      var h := PopRoot(heads);
      BestDropped(source, picks, heads, h);
      picks := picks - {heads[0].from};
      heads := h;
    }

    method Clear()
      requires Valid()
      modifies this
      ensures Valid() && picks == map[] && heads == []
    {
      heads, txs := [], map[];
      picks := map[];
    }
  }

  /** One head per live account, in some order. */
  ghost predicate OneHeadEach(s: Source, p: Picks, hs: seq<Head>) {
    && ValidPicks(s, p)
    && (forall i :: 0 <= i < |hs| ==> hs[i].from in p && hs[i] == HeadOf(s, p, hs[i].from))
    && Owners(p, hs)
  }

  /** Each live account owns exactly one of the heads. */
  ghost predicate Owners(p: Picks, hs: seq<Head>) {
    && (forall i, j :: 0 <= i < j < |hs| ==> hs[i].from != hs[j].from)
    && (forall a :: a in p ==> exists i :: 0 <= i < |hs| && hs[i].from == a)
  }

  /** Having one head per live account does not depend on the order. */
  lemma HeadsPermuted(s: Source, p: Picks, a: seq<Head>, b: seq<Head>)
    requires OneHeadEach(s, p, a) && multiset(a) == multiset(b)
    ensures OneHeadEach(s, p, b)
  {
    forall i | 0 <= i < |b|
      ensures b[i].from in p && b[i] == HeadOf(s, p, b[i].from)
    {
      assert b[i] in multiset(b);
      assert b[i] in a;
    }
    forall x | x in p
      ensures exists i :: 0 <= i < |b| && b[i].from == x
    {
      var i :| 0 <= i < |a| && a[i].from == x;
      assert a[i] in multiset(a);
      assert a[i] in b;
    }
    forall i, j | 0 <= i < j < |b|
      ensures b[i].from != b[j].from
    {
      if b[i].from == b[j].from {
        assert b[i] == b[j];
        AtMostOnce(a, b[i]);
        TwiceCounts(b, i, j);
      }
    }
  }

  lemma {:induction false} AtMostOnce(a: seq<Head>, x: Head)
    requires forall i, j :: 0 <= i < j < |a| ==> a[i].from != a[j].from
    ensures multiset(a)[x] <= 1
  {
    if a != [] {
      var init := a[..|a| - 1];
      AtMostOnce(init, x);
      assert a == init + [a[|a| - 1]];
      if a[|a| - 1] == x {
        assert x !in init;
      }
    }
  }

  lemma TwiceCounts(b: seq<Head>, i: nat, j: nat)
    requires i < j < |b| && b[i] == b[j]
    ensures multiset(b)[b[i]] >= 2
  {
    assert b == b[..j] + [b[j]] + b[j + 1..];
    assert b[i] in b[..j];
  }

  lemma HeadAdded(s: Source, p: Picks, hs: seq<Head>, a: nat)
    requires OneHeadEach(s, p, hs) && a !in p && a in s.txs && s.txs[a] != [] && FeeOk(s.txs[a][0], s.baseFee)
    ensures OneHeadEach(s, p[a := 0], hs + [Wrap(s.txs[a][0], a, s.baseFee)])
  {
    var r := hs + [Wrap(s.txs[a][0], a, s.baseFee)];
    var q := p[a := 0];
    forall b | b in q
      ensures exists i :: 0 <= i < |r| && r[i].from == b
    {
      if b == a {
        assert r[|hs|].from == b;
      } else {
        var i :| 0 <= i < |hs| && hs[i].from == b;
        assert r[i].from == b;
      }
    }
  }

  lemma HeadsReplaced(s: Source, p: Picks, hs: seq<Head>, x: Head)
    requires OneHeadEach(s, p, hs) && hs != []
    requires var a := hs[0].from;
             && p[a] + 1 < |s.txs[a]| && FeeOk(s.txs[a][p[a] + 1], s.baseFee)
             && x == Wrap(s.txs[a][p[a] + 1], a, s.baseFee)
    ensures OneHeadEach(s, p[hs[0].from := p[hs[0].from] + 1], [x] + hs[1..])
  {
    var a := hs[0].from;
    var q := p[a := p[a] + 1];
    var r := [x] + hs[1..];
    assert ValidPicks(s, q) && x == HeadOf(s, q, a);
    hide Owners, HeadOf, FeeOk, ValidPicks;
    SameOwners(p, q, hs, r);
    forall i | 0 < i < |r|
      ensures r[i].from in q && r[i] == HeadOf(s, q, r[i].from)
    {
      OthersKeep(s, p, hs, i);
    }
  }

  lemma OthersKeep(s: Source, p: Picks, hs: seq<Head>, i: nat)
    requires OneHeadEach(s, p, hs) && 0 < i < |hs|
    requires p[hs[0].from] + 1 < |s.txs[hs[0].from]| && FeeOk(s.txs[hs[0].from][p[hs[0].from] + 1], s.baseFee)
    ensures var q := p[hs[0].from := p[hs[0].from] + 1];
            hs[i].from in q && ValidPicks(s, q) && hs[i] == HeadOf(s, q, hs[i].from)
  {
  }

  /** Whose heads there are does not depend on the heads themselves. */
  lemma SameOwners(p: Picks, q: Picks, hs: seq<Head>, r: seq<Head>)
    requires |hs| == |r| && forall i :: 0 <= i < |r| ==> r[i].from == hs[i].from
    requires Owners(p, hs) && q.Keys == p.Keys
    ensures Owners(q, r)
  {
  }

  lemma HeadsDropped(s: Source, p: Picks, hs: seq<Head>)
    requires OneHeadEach(s, p, hs) && hs != []
    ensures OneHeadEach(s, p - {hs[0].from}, hs[1..])
  {
  }

  lemma BestReplaced(s: Source, p: Picks, hs: seq<Head>, x: Head, h: seq<Head>)
    requires OneHeadEach(s, p, hs) && hs != [] && multiset(h) == multiset([x] + hs[1..])
    requires var a := hs[0].from;
             && p[a] + 1 < |s.txs[a]| && FeeOk(s.txs[a][p[a] + 1], s.baseFee)
             && x == Wrap(s.txs[a][p[a] + 1], a, s.baseFee)
    ensures OneHeadEach(s, p[hs[0].from := p[hs[0].from] + 1], h)
  {
    HeadsReplaced(s, p, hs, x);
    HeadsPermuted(s, p[hs[0].from := p[hs[0].from] + 1], [x] + hs[1..], h);
  }

  lemma BestDropped(s: Source, p: Picks, hs: seq<Head>, h: seq<Head>)
    requires OneHeadEach(s, p, hs) && hs != [] && multiset(h) == multiset(hs[1..])
    ensures OneHeadEach(s, p - {hs[0].from}, h)
  {
    HeadsDropped(s, p, hs);
    HeadsPermuted(s, p - {hs[0].from}, hs[1..], h);
  }

  lemma FollowsNext(s: Source, p: Picks, txs: map<nat, seq<LazyTx>>, a: nat)
    requires Follows(s, p, txs) && a in p && |txs[a]| > 0 && FeeOk(txs[a][0], s.baseFee)
    ensures p[a] + 1 < |s.txs[a]| && txs[a][0] == s.txs[a][p[a] + 1]
    ensures Advance(s, p, a, true) == p[a := p[a] + 1]
    ensures Follows(s, p[a := p[a] + 1], txs[a := txs[a][1..]])
  {
  }

  // ---------- Whole runs ----------

  /** One use of the set: peek at the best account, then shift or pop it. */
  datatype Use = Use(account: nat, shift: bool)

  ghost predicate LegalRun(s: Source, p: Picks, uses: seq<Use>)
    decreases |uses|
  {
    ValidPicks(s, p)
    && (uses != [] ==>
          Best(s, p, uses[0].account)
          && LegalRun(s, Advance(s, p, uses[0].account, uses[0].shift), uses[1..]))
  }

  /** The transactions of one account among those peeked, in order. */
  ghost function Peeked(s: Source, p: Picks, uses: seq<Use>, a: nat): seq<LazyTx>
    requires LegalRun(s, p, uses)
    decreases |uses|
  {
    if uses == [] then []
    else
      var b := uses[0].account;
      (if b == a then [s.txs[a][p[a]]] else [])
      + Peeked(s, Advance(s, p, b, uses[0].shift), uses[1..], a)
  }

  lemma {:induction false} NeverAgain(s: Source, p: Picks, uses: seq<Use>, a: nat)
    requires LegalRun(s, p, uses) && a !in p
    ensures Peeked(s, p, uses, a) == []
    decreases |uses|
  {
    if uses != [] {
      NeverAgain(s, Advance(s, p, uses[0].account, uses[0].shift), uses[1..], a);
    }
  }

  lemma LegalStep(s: Source, p: Picks, uses: seq<Use>)
    requires LegalRun(s, p, uses) && uses != []
    ensures uses[0].account in p
    ensures LegalRun(s, Advance(s, p, uses[0].account, uses[0].shift), uses[1..])
  {
  }

  lemma PieceGrows(list: seq<LazyTx>, i: nat, j: nat, k: nat)
    requires i <= j <= k <= |list| && j <= i + 1
    ensures list[i..k] == (if j == i then [] else [list[i]]) + list[j..k]
  {
  }

  /** From any point on, what is peeked of an account is a contiguous piece of
      its list that starts at its current position, without repeats. */
  lemma {:induction false} PeekedIsPiece(s: Source, p: Picks, uses: seq<Use>, a: nat)
    requires LegalRun(s, p, uses) && a in p
    ensures p[a] + |Peeked(s, p, uses, a)| <= |s.txs[a]|
    ensures Peeked(s, p, uses, a) == s.txs[a][p[a]..p[a] + |Peeked(s, p, uses, a)|]
    decreases |uses|
  {
    hide Best, FeeOk;
    if uses != [] {
      LegalStep(s, p, uses);
      var q := Advance(s, p, uses[0].account, uses[0].shift);
      if a in q {
        PeekedIsPiece(s, q, uses[1..], a);
        PieceGrows(s.txs[a], p[a], q[a], q[a] + |Peeked(s, q, uses[1..], a)|);
      } else {
        NeverAgain(s, q, uses[1..], a);
      }
    }
  }

  /** The set as constructed. */
  function Fresh(s: Source): Picks
    requires forall a :: a in s.txs ==> s.txs[a] != []
  {
    map a | a in s.txs && FeeOk(s.txs[a][0], s.baseFee) :: 0
  }

  /** For every sequence of shifts and pops, an account's peeked transactions
      are a prefix of its nonce-ordered list. */
  lemma PeekedIsPrefix(s: Source, uses: seq<Use>, a: nat)
    requires forall b :: b in s.txs ==> s.txs[b] != []
    requires LegalRun(s, Fresh(s), uses) && a in s.txs
    ensures Peeked(s, Fresh(s), uses, a) <= s.txs[a]
  {
    if a in Fresh(s) {
      PeekedIsPiece(s, Fresh(s), uses, a);
    } else {
      NeverAgain(s, Fresh(s), uses, a);
    }
  }

  /** The set after some uses. */
  ghost function After(s: Source, p: Picks, uses: seq<Use>): Picks
    requires LegalRun(s, p, uses)
    decreases |uses|
  {
    if uses == [] then p else After(s, Advance(s, p, uses[0].account, uses[0].shift), uses[1..])
  }

  /** The end of the affordable transactions of a list from position i. */
  function AffordableEnd(list: seq<LazyTx>, baseFee: Option<nat>, i: nat): (n: nat)
    requires i <= |list|
    ensures i <= n <= |list|
    ensures forall k :: i <= k < n ==> baseFee.None? || baseFee.value <= list[k].cap
    ensures n < |list| ==> baseFee.Some? && list[n].cap < baseFee.value
    decreases |list| - i
  {
    if i == |list| || !FeeOk(list[i], baseFee) then i else AffordableEnd(list, baseFee, i + 1)
  }

  /** Shifting until the set is empty offers every transaction of a live
      account up to the first that cannot pay the base fee, and no more. */
  lemma {:induction false} ShiftsOfferAll(s: Source, p: Picks, uses: seq<Use>, a: nat)
    requires LegalRun(s, p, uses) && a in p && After(s, p, uses) == map[]
    requires forall i :: 0 <= i < |uses| ==> uses[i].shift
    ensures Peeked(s, p, uses, a) == s.txs[a][p[a]..AffordableEnd(s.txs[a], s.baseFee, p[a])]
    decreases |uses|
  {
    hide Best, FeeOk;
    if uses != [] {
      LegalStep(s, p, uses);
      var q := Advance(s, p, uses[0].account, true);
      ShiftEnd(s, p, uses[0].account);
      hide AffordableEnd;
      if a in q {
        ShiftsOfferAll(s, q, uses[1..], a);
        PieceGrows(s.txs[a], p[a], q[a], AffordableEnd(s.txs[a], s.baseFee, q[a]));
      } else {
        NeverAgain(s, q, uses[1..], a);
      }
    }
  }

  /** A shift goes on to the next transaction up to the affordable end. */
  lemma ShiftEnd(s: Source, p: Picks, a: nat)
    requires ValidPicks(s, p) && a in p
    ensures var q := Advance(s, p, a, true);
            var end := AffordableEnd(s.txs[a], s.baseFee, p[a]);
            if a in q then q[a] == p[a] + 1 && AffordableEnd(s.txs[a], s.baseFee, q[a]) == end else end == p[a] + 1
  {
  }

  /** Nothing of an account follows a pop of it. */
  lemma NothingAfterPop(s: Source, p: Picks, uses: seq<Use>)
    requires LegalRun(s, p, uses) && uses != [] && !uses[0].shift
    ensures Peeked(s, p, uses, uses[0].account) == [s.txs[uses[0].account][p[uses[0].account]]]
  {
    NeverAgain(s, Advance(s, p, uses[0].account, false), uses[1..], uses[0].account);
  }

  /** How many transactions can still be peeked. */
  ghost function Remaining(s: Source, p: Picks): nat
    requires ValidPicks(s, p)
    decreases |p|
  {
    if p == map[] then 0
    else
      var a :| a in p;
      |s.txs[a]| - p[a] + Remaining(s, p - {a})
  }

  lemma {:induction false} RemainingSplit(s: Source, p: Picks, a: nat)
    requires ValidPicks(s, p) && a in p
    ensures Remaining(s, p) == |s.txs[a]| - p[a] + Remaining(s, p - {a})
    decreases |p|
  {
    var b :| b in p && Remaining(s, p) == |s.txs[b]| - p[b] + Remaining(s, p - {b});
    if a != b {
      RemainingSplit(s, p - {b}, a);
      RemainingSplit(s, p - {a}, b);
      DropBoth(p, a, b);
    }
  }

  lemma DropBoth(p: Picks, a: nat, b: nat)
    ensures p - {a} - {b} == p - {b} - {a}
  {
  }

  /** Every use strictly decreases what remains, so every packing loop that
      shifts or pops in each iteration terminates. */
  lemma AdvanceDecreases(s: Source, p: Picks, a: nat, shift: bool)
    requires ValidPicks(s, p) && a in p
    ensures ValidPicks(s, Advance(s, p, a, shift))
    ensures Remaining(s, Advance(s, p, a, shift)) < Remaining(s, p)
  {
    RemainingSplit(s, p, a);
    var q := Advance(s, p, a, shift);
    if a in q {
      RemainingSplit(s, q, a);
      assert q - {a} == p - {a};
    }
  }
}
