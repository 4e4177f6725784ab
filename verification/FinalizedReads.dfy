/** Reads through the finality guard of the API backend. */
module FinalizedReads {
  import opened BlockTree
  import opened Buffers
  import opened CanonicalChain
  import opened ChainRuns

  datatype Answer =
    | Unfinalized
    | Found(b: Block)
    | Missing

  /** GetHeader and GetBlock answer from a cache keyed by hash, then from disk.
      The hash names the block, so a cache holds a set of blocks; entries of
      rejected blocks may linger in the header cache. */
  predicate Known(s: State, cache: set<Block>, b: Block) {
    b in cache || b in s.disk.blocks
  }

  predicate AboveAccepted(s: State, allowUnfinalized: bool, n: nat) {
    !allowUnfinalized && n > s.acceptorTip.Number()
  }

  /** GetHeaderByNumber: the accepted-number cache first, then the index. */
  function CanonicalHeader(s: State, cache: set<Block>, n: nat): Option<Block> {
    if s.accepted.Get(n).Some? then s.accepted.Get(n)
    else if n in s.disk.canon && Known(s, cache, s.disk.canon[n]) then Some(s.disk.canon[n])
    else None
  }

  function HeaderByNumber(s: State, cache: set<Block>, allowUnfinalized: bool, n: nat): Answer {
    if AboveAccepted(s, allowUnfinalized, n) then Unfinalized
    else match CanonicalHeader(s, cache, n)
      case Some(b) => Found(b)
      case None => Missing
  }

  function BlockByNumber(s: State, cache: set<Block>, allowUnfinalized: bool, n: nat): Answer {
    if AboveAccepted(s, allowUnfinalized, n) then Unfinalized
    else if n in s.disk.canon && Known(s, cache, s.disk.canon[n]) then Found(s.disk.canon[n])
    else Missing
  }

  /** HeaderByHash and BlockByHash take the same branches. */
  function ByHash(s: State, cache: set<Block>, allowUnfinalized: bool, hash: Block): Answer {
    if !Known(s, cache, hash) then Missing
    else if !(hash.Number() in s.disk.canon && s.disk.canon[hash.Number()] == hash) then Missing
    else if AboveAccepted(s, allowUnfinalized, hash.Number()) then Unfinalized
    else Found(hash)
  }

  /** A hit in the accepted-number cache is the canonical header of its height. */
  lemma CacheHitIsCanonical(s: State, n: nat)
    requires Inv(s) && s.accepted.Get(n).Some?
    ensures n in s.disk.canon && s.disk.canon[n] == s.accepted.Get(n).value
  {
    var h := s.accepted.m[n];
    LinkedDescends(s.acceptorTip, s.queue, s.lastAccepted);
    DescendsTrans(s.lastAccepted, s.acceptorTip, h);
    DescendsTrans(s.current, s.lastAccepted, h);
  }

  /** Whatever the caches hold, every read is decided by the canonical chain
      alone: a height answers with the head's ancestor of that height, and a
      hash answers exactly when it is one of them. */
  lemma ReadsFollowTheHead(s: State, cache: set<Block>, allow: bool, n: nat, hash: Block)
    requires Inv(s)
    ensures HeaderByNumber(s, cache, allow, n) == BlockByNumber(s, cache, allow, n)
    ensures BlockByNumber(s, cache, allow, n) ==
            if !allow && s.acceptorTip.Number() < n then Unfinalized
            else if n <= s.current.Number() then Found(s.current.At(n)) else Missing
    ensures ByHash(s, cache, allow, hash) ==
            if !s.current.DescendsFrom(hash) then Missing
            else if !allow && s.acceptorTip.Number() < hash.Number() then Unfinalized else Found(hash)
  {
    if s.accepted.Get(n).Some? {
      CacheHitIsCanonical(s, n);
    }
    if n <= s.current.Number() {
      assert s.current.At(n) in s.disk.blocks;
    }
    if s.current.DescendsFrom(hash) {
      assert s.current.At(hash.Number()) in s.disk.blocks;
    }
  }

  /** An accepted block that is durable and served. */
  ghost predicate Final(n: Node, b: Block) {
    n.l.DescendsFrom(b) && Served(n).DescendsFrom(b)
  }

  lemma EventKeepsFinal(n: Node, e: Event, c: Config, b: Block)
    requires NodeInv(n, c) && LegalEvent(n, e, c) && Final(n, b)
    ensures Final(Next(n, e, c), b)
  {
    EventKeepsInv(n, e, c);
    hide NodeInv, LegalEvent, Next;
    DescendsTrans(Next(n, e, c).l, n.l, b);
    ServedNext(n, e, c);
    if n.Up? && Served(Next(n, e, c)) != Served(n) && Served(Next(n, e, c)) != n.l {
      DescendsTrans(Served(Next(n, e, c)), n.s.acceptorTip, b);
    }
  }

  lemma ChildDescends(b: Block)
    requires b.Child?
    ensures b.DescendsFrom(b.parent)
  {
  }

  /** What is served after an event: the next accepted block, the durable block
      after a crash, or what was served before. */
  lemma ServedNext(n: Node, e: Event, c: Config)
    requires NodeInv(n, c) && LegalEvent(n, e, c)
    ensures var t := Served(Next(n, e, c));
            t == Served(n) || t == n.l || (n.Up? && t.DescendsFrom(n.s.acceptorTip))
  {
    hide TriesOk, Recoverable, Boots;
    if n.Up? && n.s.queue != [] {
      assert Linked(n.s.acceptorTip, n.s.queue, n.s.lastAccepted);
      ChildDescends(n.s.queue[0]);
    }
  }

  /** Over every run a final block stays final. */
  lemma {:induction false} RunKeepsFinal(n: Node, es: seq<Event>, c: Config, b: Block)
    requires NodeInv(n, c) && LegalRun(n, es, c) && Final(n, b)
    ensures NodeInv(Run(n, es, c), c) && Final(Run(n, es, c), b)
    decreases |es|
  {
    if es != [] {
      EventKeepsInv(n, es[0], c);
      EventKeepsFinal(n, es[0], c, b);
      RunKeepsFinal(Next(n, es[0], c), es[1..], c, b);
    }
  }

  /** Without unfinalized queries, a block answers its height and its hash
      exactly when it is served. */
  lemma FoundIffServed(s: State, cache: set<Block>, b: Block)
    requires Inv(s)
    ensures BlockByNumber(s, cache, false, b.Number()) == Found(b) <==> s.acceptorTip.DescendsFrom(b)
    ensures ByHash(s, cache, false, b) == Found(b) <==> s.acceptorTip.DescendsFrom(b)
  {
    ReadsFollowTheHead(s, cache, false, b.Number(), b);
    ServedByHead(s);
    if s.acceptorTip.DescendsFrom(b) {
      DescendsTrans(s.current, s.acceptorTip, b);
    } else if s.current.DescendsFrom(b) && b.Number() <= s.acceptorTip.Number() {
      AncestorsComparable(s.current, b, s.acceptorTip);
    }
  }

  /** With unfinalized queries disabled, a block that answers a height or hash
      query is accepted.  If its height is not above the durable block, every
      later state of every run, across crashes and restarts, gives the same
      answer. */
  lemma FinalizedReadsAreStable(n: Node, es: seq<Event>, c: Config, cache: set<Block>, cache': set<Block>, b: Block)
    requires NodeInv(n, c) && n.Up? && LegalRun(n, es, c) && Run(n, es, c).Up?
    requires BlockByNumber(n.s, cache, false, b.Number()) == Found(b) || ByHash(n.s, cache, false, b) == Found(b)
    ensures n.s.acceptorTip.DescendsFrom(b)
    ensures b.Number() <= n.l.Number() ==>
              var t := Run(n, es, c).s;
              && HeaderByNumber(t, cache', false, b.Number()) == Found(b)
              && BlockByNumber(t, cache', false, b.Number()) == Found(b)
              && ByHash(t, cache', false, b) == Found(b)
  {
    FoundIffServed(n.s, cache, b);
    if b.Number() <= n.l.Number() {
      ServedIsDurable(n, c, b);
      RunKeepsFinal(n, es, c, b);
      FoundIffServed(Run(n, es, c).s, cache', b);
      ReadsFollowTheHead(Run(n, es, c).s, cache', false, b.Number(), b);
    }
  }

  /** A served block not above the durable one is on its chain. */
  lemma ServedIsDurable(n: Node, c: Config, b: Block)
    requires NodeInv(n, c) && n.Up? && n.s.acceptorTip.DescendsFrom(b) && b.Number() <= n.l.Number()
    ensures n.l.DescendsFrom(b)
  {
    LinkedDescends(n.s.acceptorTip, n.s.queue, n.s.lastAccepted);
    DescendsTrans(n.s.lastAccepted, n.s.acceptorTip, b);
    assert n.s.lastAccepted.DescendsFrom(n.l);
    AncestorsComparable(n.s.lastAccepted, b, n.l);
  }

  /** The condition is exact: the answer for a served block survives every run
      if and only if its height is not above the durable block. */
  lemma StableIffDurable(n: Node, c: Config, cache: set<Block>, b: Block)
    requires NodeInv(n, c) && n.Up? && n.s.acceptorTip.DescendsFrom(b)
    ensures (forall es :: LegalRun(n, es, c) && Run(n, es, c).Up? ==>
               BlockByNumber(Run(n, es, c).s, cache, false, b.Number()) == Found(b))
            <==> b.Number() <= n.l.Number()
  {
    FoundIffServed(n.s, cache, b);
    if b.Number() <= n.l.Number() {
      forall es | LegalRun(n, es, c) && Run(n, es, c).Up?
        ensures BlockByNumber(Run(n, es, c).s, cache, false, b.Number()) == Found(b)
      {
        FinalizedReadsAreStable(n, es, c, cache, cache, b);
      }
    } else {
      LinkedDescends(n.s.acceptorTip, n.s.queue, n.s.lastAccepted);
      DescendsTrans(n.s.lastAccepted, n.s.acceptorTip, b);
      NotDurable(n, b, c);
      UnpersistedLost(n, c);
      assert AboveAccepted(Run(n, [Stop, Boot], c).s, false, b.Number());
    }
  }

  /** Reads do not wait for the chain's lock: between any two batch writes of an
      operation a block that answered still answers. */
  lemma ReadsDuringStep(s: State, op: Op, i: nat, cache: set<Block>, b: Block)
    requires Inv(s) && Legal(s, op) && i < |Disks(s, op)|
    requires BlockByNumber(s, cache, false, b.Number()) == Found(b) || ByHash(s, cache, false, b) == Found(b)
    ensures var m := s.(disk := Disks(s, op)[i]);
            && HeaderByNumber(m, cache, false, b.Number()) == Found(b)
            && BlockByNumber(m, cache, false, b.Number()) == Found(b)
            && ByHash(m, cache, false, b) == Found(b)
  {
    FoundIffServed(s, cache, b);
    StepKeepsInv(s, op);
    ReadsBetween(s, Disks(s, op)[i], cache, b);
  }

  /** Any disk that a restart could repair answers alike for served blocks. */
  lemma ReadsBetween(s: State, d: Disk, cache: set<Block>, b: Block)
    requires Inv(s) && Recoverable(d, s.lastAccepted) && s.acceptorTip.DescendsFrom(b)
    ensures var m := s.(disk := d);
            && HeaderByNumber(m, cache, false, b.Number()) == Found(b)
            && BlockByNumber(m, cache, false, b.Number()) == Found(b)
            && ByHash(m, cache, false, b) == Found(b)
  {
    var m := s.(disk := d);
    LinkedDescends(s.acceptorTip, s.queue, s.lastAccepted);
    DescendsTrans(s.lastAccepted, s.acceptorTip, b);
    assert AgreesTo(m.disk, s.lastAccepted);
    assert m.disk.canon[b.Number()] == s.lastAccepted.At(b.Number()) == b;
    DescendsTrans(m.disk.headBlock, s.lastAccepted, b);
    assert m.disk.headBlock.At(b.Number()) in m.disk.blocks;
    if s.accepted.Get(b.Number()).Some? {
      CacheHitIsCanonical(s, b.Number());
      DescendsTrans(s.current, s.lastAccepted, b);
    }
  }

  lemma ServedByHead(s: State)
    requires Inv(s)
    ensures s.current.DescendsFrom(s.acceptorTip)
  {
    LinkedDescends(s.acceptorTip, s.queue, s.lastAccepted);
    DescendsTrans(s.current, s.lastAccepted, s.acceptorTip);
  }
}
