/** The pruning trie writer: references on state roots held in memory. */
module TrieRefs {
  import opened BlockTree
  import opened Buffers

  const TIP_BUFFER_SIZE: nat := 32
  const FLUSH_WINDOW: nat := 768

  /** dirty counts the references to each root in the memory database; disk
      holds the roots whose trie has been written; pending are the inserted
      blocks not yet accepted or rejected; released are the roots the tip
      buffer has given up, in order. */
  datatype State = State(dirty: map<nat, nat>,
                         disk: set<nat>,
                         pending: set<Block>,
                         accepted: seq<Block>,
                         window: seq<nat>,
                         released: seq<nat>)

  /** The flushed set of an operation names the roots a Cap call writes out. */
  datatype Op =
    | Insert(b: Block, flushed: set<nat>)
    | Accept(b: Block, flushed: set<nat>)
    | Reject(b: Block)

  function Refs(s: State, r: nat): nat {
    if r in s.dirty then s.dirty[r] else 0
  }

  predicate Readable(s: State, r: nat) {
    r in s.dirty || r in s.disk
  }

  // ---------- The memory database ----------

  /** Committing a block's state references its root, unless the root is the
      one the block started from. */
  function Update(s: State, b: Block): State {
    if b.Child? && b.root != b.parent.root
    then s.(dirty := s.dirty[b.root := Refs(s, b.root) + 1])
    else s
  }

  function Dereference(s: State, r: nat): State {
    if r !in s.dirty then s
    else if s.dirty[r] <= 1 then s.(dirty := s.dirty - {r})
    else s.(dirty := s.dirty[r := s.dirty[r] - 1])
  }

  /** Write tries to disk and forget them in memory. */
  function Flush(s: State, rs: set<nat>): State {
    s.(dirty := s.dirty - rs, disk := s.disk + (set r | r in rs && r in s.dirty))
  }

  function Commit(s: State, r: nat): State {
    s.(dirty := s.dirty - {r}, disk := s.disk + {r})
  }

  // ---------- Steps ----------

  function Slid(s: State, r: nat): State
    requires |s.window| <= TIP_BUFFER_SIZE
  {
    var t := if |s.window| == TIP_BUFFER_SIZE
             then Dereference(s, s.window[0]).(released := s.released + [s.window[0]]) else s;
    t.(window := Slide(TIP_BUFFER_SIZE, s.window, r))
  }

  function Step(s: State, op: Op, interval: nat): State
    requires 0 < interval && |s.window| <= TIP_BUFFER_SIZE
  {
    match op
    case Insert(b, flushed) =>
      Flush(Update(s, b).(pending := s.pending + {b}), flushed)
    case Accept(b, flushed) =>
      var t := Slid(s, b.root).(pending := s.pending - {b}, accepted := s.accepted + [b]);
      if b.Number() % interval == 0 then Commit(t, b.root) else Flush(t, flushed)
    case Reject(b) =>
      Dereference(s, b.root).(pending := s.pending - {b})
  }

  /** Each block is inserted once and then accepted or rejected at most once. */
  ghost predicate Legal(s: State, op: Op) {
    match op
    case Insert(b, _) => b !in s.pending
    case Accept(b, _) => b in s.pending
    case Reject(b) => b in s.pending
  }

  /** Verified blocks carry transactions, so they change the state root. */
  predicate ChangesRoot(op: Op) {
    op.Insert? ==> op.b.Child? && op.b.root != op.b.parent.root
  }

  // ---------- Reference conservation ----------

  function PendingWith(s: State, r: nat): set<Block> {
    set b | b in s.pending && b.root == r
  }

  /** Pending blocks with root r, plus the entries of r in the tip buffer. */
  function Holders(s: State, r: nat): nat {
    |PendingWith(s, r)| + multiset(s.window)[r]
  }

  function Roots(bs: seq<Block>): (rs: seq<nat>)
    ensures |rs| == |bs|
    ensures forall i :: 0 <= i < |bs| ==> rs[i] == bs[i].root
  {
    if bs == [] then [] else Roots(bs[..|bs| - 1]) + [bs[|bs| - 1].root]
  }

  ghost predicate Balanced(s: State, r: nat) {
    && Refs(s, r) <= Holders(s, r)
    && (r !in s.disk ==> Refs(s, r) == Holders(s, r))
    && (r in s.dirty ==> 0 < s.dirty[r])
  }

  ghost predicate Inv(s: State, interval: nat)
    requires 0 < interval
  {
    && (forall r: nat :: Balanced(s, r))
    && WindowFollows(s)
    && Committed(s, interval)
  }

  lemma PendingAdd(s: State, t: State, b: Block, r: nat)
    requires b !in s.pending && t.pending == s.pending + {b}
    ensures |PendingWith(t, r)| == |PendingWith(s, r)| + if b.root == r then 1 else 0
  {
    if b.root == r {
      assert PendingWith(t, r) == PendingWith(s, r) + {b};
    } else {
      assert PendingWith(t, r) == PendingWith(s, r);
    }
  }

  lemma SlideCount(w: seq<nat>, x: nat, r: nat)
    requires |w| <= TIP_BUFFER_SIZE
    ensures multiset(Slide(TIP_BUFFER_SIZE, w, x))[r]
            == multiset(w)[r] + (if x == r then 1 else 0)
               - if |w| == TIP_BUFFER_SIZE && w[0] == r then 1 else 0
  {
    if |w| == TIP_BUFFER_SIZE {
      assert w == [w[0]] + w[1..];
    }
  }

  lemma FlushBalanced(s: State, rs: set<nat>, r: nat)
    requires Balanced(s, r)
    ensures Balanced(Flush(s, rs), r)
  {
  }

  /** An insertion keeps every count balanced exactly when it changes the
      state root or its root is already on disk. */
  lemma InsertBalanced(s: State, b: Block, r: nat)
    requires Balanced(s, r) && b !in s.pending
    ensures var t := Update(s, b).(pending := s.pending + {b});
            Balanced(t, r) <==> r != b.root || (b.Child? && b.root != b.parent.root) || r in s.disk
  {
    PendingAdd(s, Update(s, b).(pending := s.pending + {b}), b, r);
  }

  lemma AcceptBalanced(s: State, b: Block, r: nat)
    requires Balanced(s, r) && b in s.pending && |s.window| <= TIP_BUFFER_SIZE
    ensures Balanced(Slid(s, b.root).(pending := s.pending - {b}), r)
  {
    var t := Slid(s, b.root).(pending := s.pending - {b});
    PendingAdd(t, s, b, r) by { assert t.pending + {b} == s.pending; }
    SlideCount(s.window, b.root, r);
  }

  lemma RejectBalanced(s: State, b: Block, r: nat)
    requires Balanced(s, r) && b in s.pending
    ensures Balanced(Dereference(s, b.root).(pending := s.pending - {b}), r)
  {
    var t := Dereference(s, b.root).(pending := s.pending - {b});
    PendingAdd(t, s, b, r) by { assert t.pending + {b} == s.pending; }
  }

  lemma StepBalanced(s: State, op: Op, interval: nat, r: nat)
    requires 0 < interval && |s.window| <= TIP_BUFFER_SIZE
    requires Balanced(s, r) && Legal(s, op) && ChangesRoot(op)
    ensures Balanced(Step(s, op, interval), r)
  {
    match op
    case Insert(b, flushed) =>
      InsertBalanced(s, b, r);
      FlushBalanced(Update(s, b).(pending := s.pending + {b}), flushed, r);
    case Accept(b, flushed) =>
      AcceptBalanced(s, b, r);
      var u := Slid(s, b.root).(pending := s.pending - {b}, accepted := s.accepted + [b]);
      assert PendingWith(u, r) == PendingWith(Slid(s, b.root).(pending := s.pending - {b}), r);
      if b.Number() % interval == 0 {
        assert PendingWith(Commit(u, b.root), r) == PendingWith(u, r);
      } else {
        FlushBalanced(u, flushed, r);
      }
    case Reject(b) =>
      RejectBalanced(s, b, r);
  }

  lemma SlideAllNext(xs: seq<nat>, x: nat)
    ensures var w := SlideAll(TIP_BUFFER_SIZE, xs);
            && SlideAll(TIP_BUFFER_SIZE, xs + [x]) == Slide(TIP_BUFFER_SIZE, w, x)
            && Evicted(TIP_BUFFER_SIZE, xs + [x]) ==
               Evicted(TIP_BUFFER_SIZE, xs) + if |w| == TIP_BUFFER_SIZE then [w[0]] else []
  {
    assert (xs + [x])[..|xs|] == xs;
  }

  lemma RootsNext(bs: seq<Block>, b: Block)
    ensures Roots(bs + [b]) == Roots(bs) + [b.root]
  {
  }

  /** The tip buffer follows the accepted roots, and has released the others. */
  ghost predicate WindowFollows(s: State) {
    && s.window == SlideAll(TIP_BUFFER_SIZE, Roots(s.accepted))
    && s.released == Evicted(TIP_BUFFER_SIZE, Roots(s.accepted))
  }

  lemma SlidWindow(s: State, b: Block)
    requires WindowFollows(s)
    ensures WindowFollows(Slid(s, b.root).(accepted := s.accepted + [b]))
  {
    hide SlideAll, Evicted, Roots, Slide;
    RootsNext(s.accepted, b);
    SlideAllNext(Roots(s.accepted), b.root);
  }

  lemma StepWindow(s: State, op: Op, interval: nat)
    requires 0 < interval && WindowFollows(s)
    ensures WindowFollows(Step(s, op, interval))
  {
    hide SlideAll, Evicted, Roots, Slide;
    if op.Accept? {
      SlidWindow(s, op.b);
    }
  }

  /** Roots accepted at commit heights are on disk. */
  ghost predicate Committed(s: State, interval: nat)
    requires 0 < interval
  {
    forall i :: 0 <= i < |s.accepted| && s.accepted[i].Number() % interval == 0 ==> s.accepted[i].root in s.disk
  }

  lemma StepCommitted(s: State, op: Op, interval: nat)
    requires 0 < interval && |s.window| <= TIP_BUFFER_SIZE && Committed(s, interval)
    ensures Committed(Step(s, op, interval), interval)
  {
  }

  /** Every legal step of a run whose blocks change the state root keeps the
      references of each uncommitted root equal to its holders. */
  lemma StepKeepsInv(s: State, op: Op, interval: nat)
    requires 0 < interval && Inv(s, interval) && Legal(s, op) && ChangesRoot(op)
    ensures Inv(Step(s, op, interval), interval)
  {
    forall r: nat
      ensures Balanced(Step(s, op, interval), r)
    {
      assert Balanced(s, r);
      StepBalanced(s, op, interval, r);
    }
    StepWindow(s, op, interval);
    StepCommitted(s, op, interval);
  }

  // ---------- Runs ----------

  ghost predicate LegalRun(s: State, ops: seq<Op>, interval: nat)
    requires 0 < interval && |s.window| <= TIP_BUFFER_SIZE
    decreases |ops|
  {
    ops == [] ||
    (Legal(s, ops[0]) && ChangesRoot(ops[0]) && LegalRun(Step(s, ops[0], interval), ops[1..], interval))
  }

  ghost function Run(s: State, ops: seq<Op>, interval: nat): (t: State)
    requires 0 < interval && |s.window| <= TIP_BUFFER_SIZE && LegalRun(s, ops, interval)
    ensures |t.window| <= TIP_BUFFER_SIZE
    decreases |ops|
  {
    if ops == [] then s else Run(Step(s, ops[0], interval), ops[1..], interval)
  }

  lemma {:induction false} RunKeepsInv(s: State, ops: seq<Op>, interval: nat)
    requires 0 < interval && |s.window| <= TIP_BUFFER_SIZE && LegalRun(s, ops, interval) && Inv(s, interval)
    ensures Inv(Run(s, ops, interval), interval)
    decreases |ops|
  {
    if ops != [] {
      StepKeepsInv(s, ops[0], interval);
      RunKeepsInv(Step(s, ops[0], interval), ops[1..], interval);
    }
  }

  function Empty(disk: set<nat>): State {
    State(map[], disk, {}, [], [], [])
  }

  lemma EmptyInv(disk: set<nat>, interval: nat)
    requires 0 < interval
    ensures Inv(Empty(disk), interval)
  {
  }

  /** Over every run from startup: the references of an uncommitted root are
      its pending blocks plus its tip-buffer entries, nothing nobody holds
      stays in memory, pending roots and the last 32 accepted roots are
      readable, and roots accepted at commit heights are on disk. */
  lemma ReferencesConserved(disk: set<nat>, ops: seq<Op>, interval: nat)
    requires 0 < interval && LegalRun(Empty(disk), ops, interval)
    ensures var t := Run(Empty(disk), ops, interval);
            && (forall r: nat :: r !in t.disk ==> Refs(t, r) == Holders(t, r))
            && (forall r: nat :: r in t.dirty ==> 0 < Holders(t, r))
            && (forall b :: b in t.pending ==> Readable(t, b.root))
            && (forall i :: 0 <= i < |t.accepted| && |t.accepted| - TIP_BUFFER_SIZE <= i ==>
                  Readable(t, t.accepted[i].root))
            && (forall i :: 0 <= i < |t.accepted| && t.accepted[i].Number() % interval == 0 ==>
                  t.accepted[i].root in t.disk)
  {
    EmptyInv(disk, interval);
    RunKeepsInv(Empty(disk), ops, interval);
    var t := Run(Empty(disk), ops, interval);
    forall r: nat
      ensures r !in t.disk ==> Refs(t, r) == Holders(t, r)
      ensures r in t.dirty ==> 0 < Holders(t, r)
    {
      assert Balanced(t, r);
    }
    forall b | b in t.pending
      ensures Readable(t, b.root)
    {
      PendingReadable(t, b);
    }
    forall i | 0 <= i < |t.accepted| && |t.accepted| - TIP_BUFFER_SIZE <= i
      ensures Readable(t, t.accepted[i].root)
    {
      assert Balanced(t, t.accepted[i].root);
      RecentReadable(t, i);
    }
  }

  /** Over every run from startup the tip buffer releases the accepted roots in
      order: the k-th release is the k-th accepted root, and what it has not
      released it still holds. */
  lemma ReleasedInOrder(disk: set<nat>, ops: seq<Op>, interval: nat)
    requires 0 < interval && LegalRun(Empty(disk), ops, interval)
    ensures var t := Run(Empty(disk), ops, interval);
            && t.released + t.window == Roots(t.accepted)
            && |t.released| <= |t.accepted|
            && (forall k :: 0 <= k < |t.released| ==> t.released[k] == t.accepted[k].root)
  {
    EmptyInv(disk, interval);
    RunKeepsInv(Empty(disk), ops, interval);
    ReleasedSplits(Run(Empty(disk), ops, interval));
  }

  lemma ReleasedSplits(t: State)
    requires WindowFollows(t)
    ensures t.released + t.window == Roots(t.accepted)
    ensures |t.released| <= |t.accepted|
    ensures forall k :: 0 <= k < |t.released| ==> t.released[k] == t.accepted[k].root
  {
    EvictionsArePrefix(TIP_BUFFER_SIZE, Roots(t.accepted));
    hide SlideAll, Evicted, Roots;
    forall k | 0 <= k < |t.released|
      ensures t.released[k] == t.accepted[k].root
    {
      assert t.released[k] == (t.released + t.window)[k];
    }
  }

  lemma PendingReadable(s: State, b: Block)
    requires Balanced(s, b.root) && b in s.pending
    ensures Readable(s, b.root)
  {
    assert b in PendingWith(s, b.root);
  }

  lemma RecentReadable(s: State, i: nat)
    requires WindowFollows(s) && i < |s.accepted| && |s.accepted| - TIP_BUFFER_SIZE <= i
    requires Balanced(s, s.accepted[i].root)
    ensures Readable(s, s.accepted[i].root)
  {
    RecentInWindow(TIP_BUFFER_SIZE, Roots(s.accepted), i);
    assert s.accepted[i].root in multiset(s.window);
  }

  /** A block that repeats its parent's root takes no reference but gives one
      back, so rejecting it prunes the root of its accepted parent. */
  lemma UnchangedRootLosesState(g: Block, b: Block, c: Block)
    requires g.Genesis? && b.Child? && b.parent == g && b.root != g.root
    requires c.Child? && c.parent == b && c.root == b.root
    ensures var s := Step(Empty({g.root}), Insert(b, {}), 4096);
            var t := Step(s, Insert(c, {}), 4096);
            var u := Step(t, Accept(b, {}), 4096);
            var v := Step(u, Reject(c), 4096);
            && b.root in v.window && !Readable(v, b.root)
  {
    assert b.Number() == 1;
  }

  lemma LastOfWindow(xs: seq<nat>)
    ensures var w := SlideAll(TIP_BUFFER_SIZE, xs);
            if xs == [] then w == [] else w != [] && w[|w| - 1] == xs[|xs| - 1]
  {
  }

  // ---------- The writer object ----------

  /** Sizes are in bytes; a Cap call flushes the oldest tries it is given. */
  class CappedMemoryTrieWriter {
    const memoryCap: real
    const targetCommitSize: real
    const imageCap: real
    const commitInterval: nat
    const tipBuffer: BoundedBuffer<nat>
    var dirty: map<nat, nat>
    var disk: set<nat>
    ghost var pending: set<Block>
    ghost var accepted: seq<Block>
    ghost var released: seq<nat>

    ghost predicate Valid()
      reads this, tipBuffer
    {
      0 < commitInterval && tipBuffer.Valid() && tipBuffer.size == TIP_BUFFER_SIZE
    }

    ghost function St(): State
      reads this, tipBuffer, tipBuffer.buffer
      requires Valid()
    {
      State(dirty, disk, pending, accepted, tipBuffer.Window(), released)
    }

    constructor (interval: nat, memory: real, target: real, onDisk: set<nat>)
      requires 0 < interval
      ensures Valid() && fresh(tipBuffer) && fresh(tipBuffer.buffer)
      ensures St() == Empty(onDisk) && commitInterval == interval
    {
      memoryCap := memory;
      targetCommitSize := target;
      imageCap := 4194304.0;
      commitInterval := interval;
      tipBuffer := new BoundedBuffer<nat>(TIP_BUFFER_SIZE);
      dirty := map[];
      disk := onDisk;
      pending := {};
      accepted := [];
      released := [];
    }

    method CapTo(oldest: set<nat>)
      requires Valid()
      modifies this`dirty, this`disk
      ensures St() == Flush(old(St()), oldest)
    {
      disk := disk + (set r | r in oldest && r in dirty);
      dirty := dirty - oldest;
    }

    method DereferenceRoot(r: nat)
      requires Valid()
      modifies this`dirty
      ensures St() == Dereference(old(St()), r)
    {
      if r in dirty {
        if dirty[r] <= 1 {
          dirty := dirty - {r};
        } else {
          dirty := dirty[r := dirty[r] - 1];
        }
      }
    }

    /** Commit the block's state to memory, then cap memory if it is exceeded. */
    method InsertTrie(b: Block, nodes: real, images: real, oldest: set<nat>)
      requires Valid()
      modifies this
      ensures Valid()
      ensures St() == Step(old(St()), Insert(b, if nodes <= memoryCap && images <= imageCap then {} else oldest),
                           commitInterval)
    {
      if b.Child? && b.root != b.parent.root {
        dirty := dirty[b.root := (if b.root in dirty then dirty[b.root] else 0) + 1];
      }
      pending := pending + {b};
      if nodes <= memoryCap && images <= imageCap {
        assert dirty - {} == dirty;
        return;
      }
      CapTo(oldest);
    }

    /** Does accepting a block of this number flush optimistically? */
    predicate FlushesAt(number: nat, nodes: real)
      reads this
      requires 0 < commitInterval
    {
      var distance := commitInterval - number % commitInterval;
      distance <= FLUSH_WINDOW
      && targetCommitSize + (memoryCap - targetCommitSize) / (FLUSH_WINDOW as real) * (distance as real) < nodes
    }

    /** Near the end of a commit interval the threshold falls on a line from the
        memory cap, 768 blocks before the commit, to the target size at it. */
    lemma FlushesIff(number: nat, nodes: real)
      requires 0 < commitInterval
      ensures var distance := commitInterval - number % commitInterval;
              FlushesAt(number, nodes) <==>
              && distance <= 768
              && (memoryCap - targetCommitSize) * (distance as real) < (nodes - targetCommitSize) * 768.0
    {
      var distance := (commitInterval - number % commitInterval) as real;
      var slope := (memoryCap - targetCommitSize) / 768.0;
      assert slope * distance * 768.0 == (memoryCap - targetCommitSize) * distance;
    }

    /** Put the root in the tip buffer, dereferencing the one it displaces. */
    method SlideTip(b: Block)
      requires Valid()
      modifies this, tipBuffer, tipBuffer.buffer
      ensures Valid()
      ensures St() == Slid(old(St()), b.root).(pending := old(pending) - {b}, accepted := old(accepted) + [b])
    {
      var displaced, _ := tipBuffer.Insert(b.root, true);
      if displaced.Some? {
        DereferenceRoot(displaced.value);
        released := released + [displaced.value];
      }
      accepted := accepted + [b];
      pending := pending - {b};
    }

    method AcceptTrie(b: Block, nodes: real, oldest: set<nat>)
      requires Valid()
      modifies this, tipBuffer, tipBuffer.buffer
      ensures Valid()
      ensures St() == Step(old(St()), Accept(b, if FlushesAt(b.Number(), nodes) then oldest else {}), commitInterval)
    {
      SlideTip(b);
      var modCommitInterval := b.Number() % commitInterval;
      if modCommitInterval == 0 {
        dirty := dirty - {b.root};
        disk := disk + {b.root};
        return;
      }
      if FlushesAt(b.Number(), nodes) {
        CapTo(oldest);
      } else {
        assert dirty - {} == dirty;
      }
    }

    method RejectTrie(b: Block)
      requires Valid()
      modifies this
      ensures Valid()
      ensures St() == Step(old(St()), Reject(b), commitInterval)
    {
      DereferenceRoot(b.root);
      pending := pending - {b};
    }

    /** A clean shutdown leaves the last accepted state on disk. */
    method Shutdown()
      requires Valid() && WindowFollows(St())
      modifies this`dirty, this`disk
      ensures Valid()
      ensures accepted != [] ==> accepted[|accepted| - 1].root in disk
      ensures accepted == [] ==> St() == old(St())
    {
      var last := tipBuffer.Last();
      LastOfWindow(Roots(accepted));
      if last.Some? {
        dirty := dirty - {last.value};
        disk := disk + {last.value};
      }
    }
  }
}
