/** Restarts, whole runs with crashes, and what finality means over them. */
module ChainRuns {
  import opened Arithmetic
  import opened BlockTree
  import opened Buffers
  import opened CanonicalChain

  // ---------- Restart ----------

  /** Setting the preference to the last accepted block while loading. */
  function Repaired(d: Disk, l: Block): Disk {
    if d.headBlock == l then d else d.(canon := Canonical(l), headBlock := l, headHeader := l)
  }

  /** Reprocessing moves a stored acceptor tip up to the last accepted block; a
      tip above it stays. */
  function CaughtUp(d: Disk, l: Block): Disk {
    if d.acceptorTip.None? || TipAhead(d, l) then d else d.(acceptorTip := Some(l))
  }

  /** Where the search for a base state starts. */
  function Start(d: Disk, l: Block): Block {
    if d.acceptorTip.None? then l else d.acceptorTip.value
  }

  predicate UpToDate(d: Disk, l: Block, tries: set<nat>) {
    l.root in tries && (d.acceptorTip.None? || d.acceptorTip.value == l)
  }

  /** Some strict ancestor of b, at most reexec blocks back, has its state. */
  ghost predicate HasBase(b: Block, tries: set<nat>, reexec: nat) {
    exists n: nat :: n < b.Number() && b.Number() - n <= reexec && b.At(n).root in tries
  }

  /** Reprocessing from this disk, with these tries, finds a base state.  With
      no budget it takes the start itself, whose state it needs only to execute
      further blocks. */
  ghost predicate Reprocesses(d: Disk, l: Block, tries: set<nat>, reexec: nat) {
    || UpToDate(d, l, tries)
    || if reexec == 0 then l.Number() <= Start(d, l).Number() || Start(d, l).root in tries
       else HasBase(Start(d, l), tries, reexec)
  }

  /** Store the accepted blocks of heights i and above in the number cache. */
  function WarmFrom(cache: Fifo<nat, Block>, l: Block, i: nat): Fifo<nat, Block>
    decreases l.Number() + 1 - i
  {
    if i > l.Number() then cache else WarmFrom(cache.Put(i, l.At(i)), l, i + 1)
  }

  function Warmed(l: Block, limit: nat): Fifo<nat, Block> {
    var empty := Fifo(limit, [], map[]);
    if limit == 0 then empty
    else WarmFrom(empty, l, if limit - 1 < l.Number() then l.Number() - (limit - 1) else 1)
  }

  /** While the cache has room, warming adds the blocks of l's chain from
      height i and drops nothing. */
  lemma {:induction false} WarmFromHolds(cache: Fifo<nat, Block>, l: Block, i: nat)
    requires i <= l.Number() ==> |cache.window| + l.Number() + 1 - i <= cache.limit
    ensures forall n: nat :: WarmFrom(cache, l, i).Get(n) ==
                             if i <= n <= l.Number() then Some(l.At(n)) else cache.Get(n)
    decreases l.Number() + 1 - i
  {
    if i <= l.Number() {
      WarmFromHolds(cache.Put(i, l.At(i)), l, i + 1);
    }
  }

  /** A warmed cache answers exactly the last limit heights of l's chain above
      genesis. */
  lemma WarmedHolds(l: Block, limit: nat)
    ensures forall n: nat :: Warmed(l, limit).Get(n) ==
                             if 1 <= n <= l.Number() < n + limit then Some(l.At(n)) else None
  {
    if 0 < limit {
      WarmFromHolds(Fifo(limit, [], map[]), l, if limit - 1 < l.Number() then l.Number() - (limit - 1) else 1);
    }
  }

  function Load(d: Disk, l: Block, limit: nat): State {
    State(CaughtUp(Repaired(d, l), l), l, l, l, l, [], Warmed(l, limit))
  }

  /** The disk values the preference passes through while loading. */
  function RepairDisks(d: Disk, l: Block): seq<Disk> {
    if d.headBlock == l then [] else ReorgDisks(d, l, l.Number())
  }

  /** The disk values loading passes through: the preference, then one write of
      the acceptor tip per reprocessed accepted block above the old tip. */
  function LoadDisks(d: Disk, l: Block): seq<Disk> {
    RepairDisks(d, l) + if d.acceptorTip.None? then [] else TipDisks(Repaired(d, l), l, d.acceptorTip.value.Number())
  }

  /** One write of the tip for each height of l's chain above t. */
  function TipDisks(r: Disk, l: Block, t: nat): (ds: seq<Disk>)
    ensures |ds| == if t <= l.Number() then l.Number() - t else 0
    ensures forall i :: 0 <= i < |ds| ==> ds[i] == r.(acceptorTip := Some(l.At(t + 1 + i)))
    decreases l
  {
    if l.Number() <= t then [] else TipDisks(r, l.parent, t) + [r.(acceptorTip := Some(l))]
  }

  lemma {:induction false} WarmSound(cache: Fifo<nat, Block>, l: Block, i: nat)
    requires CacheSound(cache, l)
    ensures CacheSound(WarmFrom(cache, l, i), l)
    decreases l.Number() + 1 - i
  {
    if i <= l.Number() {
      WarmSound(cache.Put(i, l.At(i)), l, i + 1);
    }
  }

  /** Any recoverable disk loads into a state with the full invariant and the
      head at the last accepted block, and a crash while loading leaves a disk
      that is again recoverable. */
  lemma LoadRepairs(d: Disk, l: Block, limit: nat)
    requires Recoverable(d, l)
    ensures Inv(Load(d, l, limit))
    ensures Load(d, l, limit).current == l
    ensures forall i :: 0 <= i < |LoadDisks(d, l)| ==> Recoverable(LoadDisks(d, l)[i], l)
  {
    var r := Repaired(d, l);
    StoredAncestors(d, d.headBlock, l);
    assert l in d.blocks by { assert l.At(l.Number()) in d.blocks; }
    if d.headBlock != l {
      assert ReorgReady(d, l, l, l);
      ReorgDisksRecoverable(d, l, l, l);
    }
    assert Indexed(r, l) && Recoverable(r, l);
    LoadDisksRecoverable(d, l);
    if d.acceptorTip.Some? && !TipAhead(d, l) {
      TipWriteRecoverable(r, l, l);
    }
    if limit != 0 {
      WarmSound(Fifo(limit, [], map[]), l, if limit - 1 < l.Number() then l.Number() - (limit - 1) else 1);
    }
  }

  lemma TipWriteRecoverable(r: Disk, l: Block, t: Block)
    requires Recoverable(r, l) && Indexed(r, l) && l.DescendsFrom(t) && t.Child?
    ensures Recoverable(r.(acceptorTip := Some(t)), l)
  {
    assert l.At(t.Number()) in r.blocks;
  }

  lemma LoadDisksRecoverable(d: Disk, l: Block)
    requires Recoverable(d, l) && l in d.blocks && Recoverable(Repaired(d, l), l) && Indexed(Repaired(d, l), l)
    ensures forall i :: 0 <= i < |LoadDisks(d, l)| ==> Recoverable(LoadDisks(d, l)[i], l)
  {
    var r := Repaired(d, l);
    var first := RepairDisks(d, l);
    if d.headBlock != l {
      assert ReorgReady(d, l, l, l);
      ReorgDisksRecoverable(d, l, l, l);
    }
    forall i | 0 <= i < |LoadDisks(d, l)|
      ensures Recoverable(LoadDisks(d, l)[i], l)
    {
      if i < |first| {
        assert LoadDisks(d, l)[i] == first[i];
      } else {
        var n := d.acceptorTip.value.Number() + 1 + (i - |first|);
        assert LoadDisks(d, l)[i] == r.(acceptorTip := Some(l.At(n)));
        TipWriteRecoverable(r, l, l.At(n));
      }
    }
  }

  // ---------- Starting without a last accepted block ----------

  function LoadGenesis(d: Disk, g: Block): Disk {
    SetHead(d.(blocks := d.blocks + {g}), g)
  }

  /** Loading the genesis state does not trim the index: it restores the
      canonical-index invariant exactly when nothing was indexed above 0. */
  lemma LoadGenesisIndex(d: Disk, g: Block)
    requires g.Genesis?
    ensures Indexed(LoadGenesis(d, g), g) <==> forall n: nat :: n in d.canon ==> n == 0
  {
    var e := LoadGenesis(d, g);
    if Indexed(e, g) {
      forall n: nat | n in d.canon
        ensures n == 0
      {
        assert n in e.canon;
      }
    } else if forall n: nat :: n in d.canon ==> n == 0 {
      IndexIsCanonical(e.canon, g);
      assert AllStored(e, g);
    }
  }

  /** A node that inserted a block, accepted nothing and was started again
      without a last accepted hash keeps a stale entry above its head. */
  lemma LoadGenesisStale(g: Block, b: Block)
    requires g.Genesis? && b.Child? && b.parent == g
    ensures var s := Step(Load(Disk({g}, map[0 := g], g, g, None), g, 32), Insert(b, true));
            !Indexed(LoadGenesis(s.disk, g), g)
  {
    var s := Step(Load(Disk({g}, map[0 := g], g, g, None), g, 32), Insert(b, true));
    assert 1 in s.disk.canon;
    LoadGenesisIndex(s.disk, g);
  }

  // ---------- Runs ----------

  /** The size of the accepted-number cache, the commit interval, and how many
      accepted blocks may wait for the acceptor. */
  datatype Config = Config(limit: nat, interval: nat, queue: nat)

  predicate ValidConfig(c: Config) {
    0 < c.interval && c.queue <= c.interval
  }

  /** A node is running, or it is down with the disk of its last batch write.
      Its durable marker l names the last accepted block on restart; it is
      committed after the chain has accepted the block.  The tries are the
      state roots on disk. */
  datatype Node =
    | Up(s: State, l: Block, tries: set<nat>)
    | Down(disk: Disk, l: Block, tries: set<nat>)

  /** Persist commits the durable marker.  Commit puts some root on disk, at any
      time.  CrashIn stops the node after batch k of an operation, Stop between
      two operations, CrashBoot after batch k of loading. */
  datatype Event =
    | Do(op: Op)
    | Persist
    | Commit(root: nat)
    | CrashIn(op: Op, k: nat)
    | Stop
    | Boot
    | CrashBoot(k: nat)

  /** Accepting a block and committing its marker happen under one lock of the
      virtual machine, so in between only the acceptor runs.  Accepting waits
      while the queue is full. */
  ghost predicate MayDo(n: Node, op: Op, c: Config)
    requires n.Up?
  {
    && Legal(n.s, op)
    && (n.l != n.s.lastAccepted ==> op.Process?)
    && (op.Accept? ==> |n.s.queue| < c.queue)
  }

  ghost predicate LegalEvent(n: Node, e: Event, c: Config) {
    match e
    case Do(op) => n.Up? && MayDo(n, op, c)
    case Persist => n.Up?
    case Commit(_) => n.Up?
    case CrashIn(op, k) => n.Up? && MayDo(n, op, c) && k < |Disks(n.s, op)|
    case Stop => n.Up?
    case Boot => n.Down?
    case CrashBoot(k) =>
      && n.Down? && k < |LoadDisks(n.disk, n.l)|
      && (k < |RepairDisks(n.disk, n.l)| || Boots(n, c))
  }

  /** Before the acceptor moves the tip it commits the tries of heights that are
      multiples of the interval. */
  function TriesAfter(n: Node, op: Op, c: Config): set<nat>
    requires n.Up? && 0 < c.interval
  {
    if op.Process? && n.s.queue != [] && n.s.queue[0].Number() % c.interval == 0
    then n.tries + {n.s.queue[0].root} else n.tries
  }

  /** Loading succeeds: after the preference, reprocessing finds a base state
      within twice the commit interval. */
  ghost predicate Boots(n: Node, c: Config)
    requires n.Down?
  {
    Reprocesses(Repaired(n.disk, n.l), n.l, n.tries, 2 * c.interval)
  }

  ghost function Next(n: Node, e: Event, c: Config): Node
    requires LegalEvent(n, e, c) && 0 < c.interval
  {
    match e
    case Do(op) => Up(Step(n.s, op), n.l, TriesAfter(n, op, c))
    case Persist => Up(n.s, n.s.lastAccepted, n.tries)
    case Commit(root) => n.(tries := n.tries + {root})
    case CrashIn(op, k) => Down(Disks(n.s, op)[k], n.l, TriesAfter(n, op, c))
    case Stop => Down(n.s.disk, n.l, n.tries)
    case Boot => if Boots(n, c) then Up(Load(n.disk, n.l, c.limit), n.l, n.tries + {n.l.root}) else n
    case CrashBoot(k) => n.(disk := LoadDisks(n.disk, n.l)[k])
  }

  ghost predicate LegalRun(n: Node, es: seq<Event>, c: Config)
    requires 0 < c.interval
    decreases |es|
  {
    es == [] || (LegalEvent(n, es[0], c) && LegalRun(Next(n, es[0], c), es[1..], c))
  }

  ghost function Run(n: Node, es: seq<Event>, c: Config): Node
    requires 0 < c.interval && LegalRun(n, es, c)
    decreases |es|
  {
    if es == [] then n else Run(Next(n, es[0], c), es[1..], c)
  }

  function LastAccepted(n: Node): Block {
    match n
    case Up(s, _, _) => s.lastAccepted
    case Down(_, l, _) => l
  }

  /** What clients are told is accepted: the processed tip of a running node; a
      restart catches up with the durable block. */
  function Served(n: Node): Block {
    match n
    case Up(s, _, _) => s.acceptorTip
    case Down(_, l, _) => l
  }

  function DiskOf(n: Node): Disk {
    match n
    case Up(s, _, _) => s.disk
    case Down(d, _, _) => d
  }

  // ---------- Base states ----------

  /** The state of b, or of an ancestor not below the last multiple of the
      interval, is on disk. */
  ghost predicate Near(b: Block, tries: set<nat>, interval: nat)
    requires 0 < interval
  {
    exists n: nat :: b.Number() - b.Number() % interval <= n <= b.Number() && b.At(n).root in tries
  }

  /** Every block on the chain of b, genesis excepted, has a base state within
      twice the interval. */
  ghost predicate Based(b: Block, tries: set<nat>, interval: nat) {
    forall t: nat :: 0 < t <= b.Number() ==> HasBase(b.At(t), tries, 2 * interval)
  }

  /** The tries a running or stopped node can rely on. */
  ghost predicate TriesOk(n: Node, c: Config)
    requires 0 < c.interval
  {
    && n.l.At(0).root in n.tries
    && match n
       case Up(s, _, tries) =>
         |s.queue| <= c.queue && Near(s.acceptorTip, tries, c.interval) && Based(s.acceptorTip, tries, c.interval)
       case Down(d, l, tries) =>
         Based(l, tries, c.interval) && (TipAhead(d, l) ==> HasBase(d.acceptorTip.value, tries, 2 * c.interval))
  }

  ghost predicate ChainOk(n: Node) {
    match n
    case Up(s, l, _) =>
      Inv(s) && Recoverable(s.disk, l) && (l == s.lastAccepted || (s.lastAccepted.Child? && s.lastAccepted.parent == l))
    case Down(d, l, _) => Recoverable(d, l)
  }

  ghost predicate NodeInv(n: Node, c: Config) {
    ValidConfig(c) && ChainOk(n) && TriesOk(n, c)
  }

  lemma HasBaseGrows(b: Block, tries: set<nat>, more: set<nat>, reexec: nat)
    requires HasBase(b, tries, reexec) && tries <= more
    ensures HasBase(b, more, reexec)
  {
    var n: nat :| n < b.Number() && b.Number() - n <= reexec && b.At(n).root in tries;
    assert b.At(n).root in more;
  }

  lemma BasedGrows(b: Block, tries: set<nat>, more: set<nat>, interval: nat)
    requires Based(b, tries, interval) && tries <= more
    ensures Based(b, more, interval)
  {
    forall t: nat | 0 < t <= b.Number()
      ensures HasBase(b.At(t), more, 2 * interval)
    {
      HasBaseGrows(b.At(t), tries, more, 2 * interval);
    }
  }

  lemma NearGrows(b: Block, tries: set<nat>, more: set<nat>, interval: nat)
    requires 0 < interval && Near(b, tries, interval) && tries <= more
    ensures Near(b, more, interval)
  {
    var n: nat :| b.Number() - b.Number() % interval <= n <= b.Number() && b.At(n).root in tries;
    assert b.At(n).root in more;
  }

  lemma BasedBelow(b: Block, a: Block, tries: set<nat>, interval: nat)
    requires Based(b, tries, interval) && b.DescendsFrom(a)
    ensures Based(a, tries, interval)
  {
    forall t: nat | 0 < t <= a.Number()
      ensures HasBase(a.At(t), tries, 2 * interval)
    {
      AtAt(b, a.Number(), t);
      assert HasBase(b.At(t), tries, 2 * interval);
    }
  }

  /** From a block with a near state, every block at most an interval above has
      a base. */
  lemma BaseAbove(m: Block, b: Block, tries: set<nat>, interval: nat)
    requires 0 < interval && Near(m, tries, interval) && b.DescendsFrom(m)
    requires m.Number() < b.Number() <= m.Number() + interval + 1
    ensures HasBase(b, tries, 2 * interval)
  {
    var n: nat :| m.Number() - m.Number() % interval <= n <= m.Number() && m.At(n).root in tries;
    AtAt(b, m.Number(), n);
    assert b.At(n).root in tries;
  }

  lemma BasedAbove(m: Block, b: Block, tries: set<nat>, interval: nat)
    requires 0 < interval && Near(m, tries, interval) && Based(m, tries, interval) && b.DescendsFrom(m)
    requires b.Number() <= m.Number() + interval
    ensures Based(b, tries, interval)
  {
    forall t: nat | 0 < t <= b.Number()
      ensures HasBase(b.At(t), tries, 2 * interval)
    {
      if t <= m.Number() {
        AtAt(b, m.Number(), t);
        assert HasBase(m.At(t), tries, 2 * interval);
      } else {
        AtAt(b, t, m.Number());
        BaseAbove(m, b.At(t), tries, interval);
      }
    }
  }

  lemma NextMultiple(a: nat, k: nat)
    requires 0 < k && (a + 1) % k != 0
    ensures (a + 1) % k == a % k + 1
  {
    DivFacts(a, k);
    if a % k + 1 == k {
      MulStep(k, a / k, a / k + 1);
      ModUnique(a + 1, k, a / k + 1, 0);
    } else {
      ModUnique(a + 1, k, a / k, a % k + 1);
    }
  }

  /** Processing the next block keeps a state near. */
  lemma NearNext(m: Block, b: Block, tries: set<nat>, interval: nat)
    requires 0 < interval && Near(m, tries, interval) && b.Child? && b.parent == m
    requires b.Number() % interval == 0 ==> b.root in tries
    ensures Near(b, tries, interval)
  {
    if b.Number() % interval == 0 {
      assert b.At(b.Number()).root in tries;
    } else {
      NextMultiple(m.Number(), interval);
      var n: nat :| m.Number() - m.Number() % interval <= n <= m.Number() && m.At(n).root in tries;
      assert b.At(n) == m.At(n);
    }
  }

  // ---------- Every event keeps the invariant ----------

  lemma {:induction false} LinkedLength(tip: Block, queue: seq<Block>, l: Block)
    requires Linked(tip, queue, l)
    ensures l.Number() == tip.Number() + |queue|
    decreases |queue|
  {
    if queue != [] {
      LinkedLength(queue[0], queue[1..], l);
    }
  }

  /** While the marker of an accepted block is not committed, processing keeps
      the disk recoverable for its parent. */
  lemma PendingProcess(s: State, l: Block)
    requires Inv(s) && Recoverable(s.disk, l) && s.lastAccepted.Child? && s.lastAccepted.parent == l && s.queue != []
    ensures Recoverable(s.disk.(acceptorTip := Some(s.queue[0])), l)
  {
    var d, t := s.disk.(acceptorTip := Some(s.queue[0])), s.queue[0];
    ProcessStep(s);
    LinkedDescends(t, s.queue[1..], s.lastAccepted);
    DescendsTrans(s.current, s.lastAccepted, t);
    assert s.current.At(t.Number()) in s.disk.blocks;
    forall b | b in d.blocks && b.DescendsFrom(l)
      ensures AllStored(d, b)
    {
      assert AllStored(s.disk, b);
    }
  }

  lemma DoKeepsChain(n: Node, op: Op, c: Config)
    requires NodeInv(n, c) && n.Up? && MayDo(n, op, c)
    ensures Inv(Step(n.s, op)) && ChainOk(Up(Step(n.s, op), n.l, {}))
    ensures forall i :: 0 <= i < |Disks(n.s, op)| ==> Recoverable(Disks(n.s, op)[i], n.l)
  {
    StepKeepsInv(n.s, op);
    if n.l != n.s.lastAccepted && n.s.queue != [] {
      PendingProcess(n.s, n.l);
    }
  }

  /** What a running node's tries promise for a restart. */
  lemma TriesForRestart(n: Node, d: Disk, tries: set<nat>, c: Config)
    requires NodeInv(n, c) && n.Up? && n.tries <= tries && TipOk(d, n.l)
    ensures TriesOk(Down(d, n.l, tries), c)
  {
    var s := n.s;
    LinkedDescends(s.acceptorTip, s.queue, s.lastAccepted);
    LinkedLength(s.acceptorTip, s.queue, s.lastAccepted);
    BasedAbove(s.acceptorTip, s.lastAccepted, n.tries, c.interval);
    assert s.lastAccepted.DescendsFrom(n.l);
    BasedBelow(s.lastAccepted, n.l, n.tries, c.interval);
    BasedGrows(n.l, n.tries, tries, c.interval);
    if TipAhead(d, n.l) {
      TipHasBase(n, d.acceptorTip.value, c);
      HasBaseGrows(d.acceptorTip.value, n.tries, tries, 2 * c.interval);
    }
  }

  lemma TipHasBase(n: Node, t: Block, c: Config)
    requires NodeInv(n, c) && n.Up? && t.Child? && t.parent == n.l
    ensures HasBase(t, n.tries, 2 * c.interval)
  {
    var s := n.s;
    LinkedDescends(s.acceptorTip, s.queue, s.lastAccepted);
    LinkedLength(s.acceptorTip, s.queue, s.lastAccepted);
    if n.l.DescendsFrom(s.acceptorTip) {
      assert t.DescendsFrom(n.l);
      DescendsTrans(t, n.l, s.acceptorTip);
      BaseAbove(s.acceptorTip, t, n.tries, c.interval);
    } else {
      AncestorsComparable(s.lastAccepted, n.l, s.acceptorTip);
      assert s.acceptorTip == s.lastAccepted;
      assert HasBase(s.acceptorTip.At(s.acceptorTip.Number()), n.tries, 2 * c.interval);
      SiblingBase(s.acceptorTip, t, n.tries, 2 * c.interval);
    }
  }

  /** Blocks with the same parent have the same bases. */
  lemma SiblingBase(a: Block, b: Block, tries: set<nat>, reexec: nat)
    requires a.Child? && b.Child? && a.parent == b.parent && HasBase(a, tries, reexec)
    ensures HasBase(b, tries, reexec)
  {
    var n: nat :| n < a.Number() && a.Number() - n <= reexec && a.At(n).root in tries;
    assert b.At(n) == a.At(n);
  }

  lemma DoKeepsTries(n: Node, op: Op, c: Config)
    requires NodeInv(n, c) && n.Up? && MayDo(n, op, c)
    ensures TriesOk(Up(Step(n.s, op), n.l, TriesAfter(n, op, c)), c)
  {
    var s, more := n.s, TriesAfter(n, op, c);
    NearGrows(s.acceptorTip, n.tries, more, c.interval);
    BasedGrows(s.acceptorTip, n.tries, more, c.interval);
    if op.Process? && s.queue != [] {
      var next := s.queue[0];
      NearNext(s.acceptorTip, next, more, c.interval);
      assert next.DescendsFrom(s.acceptorTip);
      BasedAbove(s.acceptorTip, next, more, c.interval);
    }
  }

  /** A stopped node always loads. */
  lemma BootSucceeds(n: Node, c: Config)
    requires NodeInv(n, c) && n.Down?
    ensures Boots(n, c)
  {
    var d, l := n.disk, n.l;
    if d.acceptorTip.None? {
      if 0 < l.Number() {
        assert HasBase(l.At(l.Number()), n.tries, 2 * c.interval);
      }
    } else if !TipAhead(d, l) {
      var t := d.acceptorTip.value;
      assert HasBase(l.At(t.Number()), n.tries, 2 * c.interval);
    }
  }

  lemma BootKeepsInv(n: Node, c: Config)
    requires NodeInv(n, c) && n.Down?
    ensures NodeInv(Next(n, Boot, c), c)
    ensures forall i :: 0 <= i < |LoadDisks(n.disk, n.l)| ==> NodeInv(n.(disk := LoadDisks(n.disk, n.l)[i]), c)
  {
    BootSucceeds(n, c);
    LoadRepairs(n.disk, n.l, c.limit);
    var more := n.tries + {n.l.root};
    BasedGrows(n.l, n.tries, more, c.interval);
    assert n.l.At(n.l.Number()).root in more;
    forall i | 0 <= i < |LoadDisks(n.disk, n.l)|
      ensures NodeInv(n.(disk := LoadDisks(n.disk, n.l)[i]), c)
    {
      LoadKeepsTip(n.disk, n.l, i);
    }
  }

  /** Loading moves a tip only along the accepted chain. */
  lemma LoadKeepsTip(d: Disk, l: Block, i: nat)
    requires i < |LoadDisks(d, l)| && Recoverable(d, l)
    ensures var e := LoadDisks(d, l)[i];
            e.acceptorTip == d.acceptorTip || !TipAhead(e, l)
  {
    var first := RepairDisks(d, l);
    if i < |first| {
      assert LoadDisks(d, l)[i] == first[i];
      ReorgKeepsTip(d, l, l.Number(), i);
    } else {
      var t := d.acceptorTip.value.Number();
      assert LoadDisks(d, l)[i] == TipDisks(Repaired(d, l), l, t)[i - |first|];
      assert l.DescendsFrom(l.At(t + 1 + (i - |first|)));
    }
  }

  lemma ReorgKeepsTip(d: Disk, b: Block, h: nat, i: nat)
    requires h <= b.Number() && i < |ReorgDisks(d, b, h)|
    ensures ReorgDisks(d, b, h)[i].acceptorTip == d.acceptorTip
  {
    hide WriteHeads, EarlyHeads;
    var top := LastEarlyHead(b, h);
    var ds := ReorgDisks(d, b, h);
    WriteHeadsIndex(d, b, h, top);
    if i < top - h {
      WriteHeadsIndex(d, b, h, h + 1 + i);
      assert ds[i] == EarlyHeads(d, b, h, top)[i] == WriteHeads(d, b, h, h + 1 + i);
    } else if i == top - h {
      assert ds[i] == Trim(WriteHeads(d, b, h, top), b.Number());
    } else {
      assert ds[i] == SetHead(Trim(WriteHeads(d, b, h, top), b.Number()), b);
    }
  }

  lemma EventKeepsInv(n: Node, e: Event, c: Config)
    requires NodeInv(n, c) && LegalEvent(n, e, c)
    ensures NodeInv(Next(n, e, c), c)
    ensures Next(n, e, c).l.DescendsFrom(n.l)
  {
    match e
    case Do(op) =>
      DoKeepsChain(n, op, c);
      DoKeepsTries(n, op, c);
    case Persist => PersistKeepsInv(n, c);
    case Commit(root) =>
      NearGrows(n.s.acceptorTip, n.tries, n.tries + {root}, c.interval);
      BasedGrows(n.s.acceptorTip, n.tries, n.tries + {root}, c.interval);
    case CrashIn(op, k) =>
      DoKeepsChain(n, op, c);
      TriesForRestart(n, Disks(n.s, op)[k], TriesAfter(n, op, c), c);
    case Stop => TriesForRestart(n, n.s.disk, n.tries, c);
    case Boot => BootKeepsInv(n, c);
    case CrashBoot(k) => BootKeepsInv(n, c);
  }

  lemma PersistKeepsInv(n: Node, c: Config)
    requires NodeInv(n, c) && n.Up?
    ensures NodeInv(Next(n, Persist, c), c)
    ensures n.s.lastAccepted.DescendsFrom(n.l)
  {
    assert n.s.lastAccepted.DescendsFrom(n.l);
    AtAt(n.s.lastAccepted, n.l.Number(), 0);
  }

  // ---------- Whole runs ----------

  /** Over every run, with crashes between any two batch writes, between an
      acceptance and its durable marker, and during recovery: the invariant
      holds and the durable block only moves forward. */
  lemma {:induction false} RunKeepsInv(n: Node, es: seq<Event>, c: Config)
    requires NodeInv(n, c) && LegalRun(n, es, c)
    ensures NodeInv(Run(n, es, c), c)
    ensures Run(n, es, c).l.DescendsFrom(n.l)
    decreases |es|
  {
    if es != [] {
      var m := Next(n, es[0], c);
      EventKeepsInv(n, es[0], c);
      RunKeepsInv(m, es[1..], c);
      DescendsTrans(Run(n, es, c).l, m.l, n.l);
    }
  }

  /** However a node stopped, reprocessing finds a base state within twice the
      commit interval, so every restart succeeds and ends with the head at the
      durable block. */
  lemma EveryRestartSucceeds(n: Node, es: seq<Event>, c: Config)
    requires NodeInv(n, c) && LegalRun(n, es, c) && Run(n, es, c).Down?
    ensures Boots(Run(n, es, c), c)
    ensures var r := Run(n, es, c);
            Next(r, Boot, c).Up? && Next(r, Boot, c).s.current == r.l && Inv(Next(r, Boot, c).s)
  {
    RunKeepsInv(n, es, c);
    BootSucceeds(Run(n, es, c), c);
    LoadRepairs(Run(n, es, c).disk, Run(n, es, c).l, c.limit);
  }

  /** The block is stored and indexed at its height. */
  predicate IndexedAt(d: Disk, a: Block) {
    a in d.blocks && a.Number() in d.canon && d.canon[a.Number()] == a
  }

  lemma DurableIndexed(n: Node, a: Block, c: Config)
    requires NodeInv(n, c) && n.l.DescendsFrom(a)
    ensures IndexedAt(DiskOf(n), a)
    ensures n.Up? ==> n.s.current.DescendsFrom(a)
  {
    var d := DiskOf(n);
    assert Recoverable(d, n.l) && n.l.At(a.Number()) == a;
    DescendsTrans(d.headBlock, n.l, a);
    assert d.headBlock.At(a.Number()) in d.blocks;
  }

  /** A block whose acceptance is durable is stored and indexed at its height in
      every later state of every run, on disk and in a running node. */
  lemma AcceptedNeverDisplaced(n: Node, es: seq<Event>, c: Config, a: Block)
    requires NodeInv(n, c) && LegalRun(n, es, c) && n.l.DescendsFrom(a)
    ensures IndexedAt(DiskOf(Run(n, es, c)), a)
    ensures Run(n, es, c).Up? ==> Run(n, es, c).s.current.DescendsFrom(a)
  {
    RunKeepsInv(n, es, c);
    DescendsTrans(Run(n, es, c).l, n.l, a);
    DurableIndexed(Run(n, es, c), a, c);
  }

  /** A crash before the marker of an accepted block is committed restarts the
      node at its parent, with the block out of the index and not served. */
  lemma UnpersistedLost(n: Node, c: Config)
    requires NodeInv(n, c) && n.Up? && n.l != n.s.lastAccepted
    ensures LegalRun(n, [Stop, Boot], c)
    ensures var r := Run(n, [Stop, Boot], c);
            && r.Up? && r.l == n.l && r.s.current == r.s.lastAccepted == r.s.acceptorTip == n.l
            && n.s.lastAccepted.Number() !in r.s.disk.canon
  {
    var down := Next(n, Stop, c);
    EventKeepsInv(n, Stop, c);
    BootSucceeds(down, c);
    LoadRepairs(down.disk, down.l, c.limit);
    var up := Next(down, Boot, c);
    assert [Stop, Boot][1..] == [Boot] && [Boot][1..] == [];
    assert Run(n, [Stop, Boot], c) == Run(down, [Boot], c) == up;
  }

  /** An accepted block stays indexed in every later state of every run if and
      only if its acceptance is durable. */
  lemma NeverDisplacedIffDurable(n: Node, a: Block, c: Config)
    requires NodeInv(n, c) && n.Up? && n.s.lastAccepted.DescendsFrom(a)
    ensures (forall es :: LegalRun(n, es, c) ==> IndexedAt(DiskOf(Run(n, es, c)), a)) <==> n.l.DescendsFrom(a)
  {
    if n.l.DescendsFrom(a) {
      forall es | LegalRun(n, es, c)
        ensures IndexedAt(DiskOf(Run(n, es, c)), a)
      {
        AcceptedNeverDisplaced(n, es, c, a);
      }
    } else {
      NotDurable(n, a, c);
      UnpersistedLost(n, c);
    }
  }

  /** Only the last accepted block itself can fail to be durable. */
  lemma NotDurable(n: Node, a: Block, c: Config)
    requires NodeInv(n, c) && n.Up? && n.s.lastAccepted.DescendsFrom(a)
    ensures n.l.DescendsFrom(a) || (a == n.s.lastAccepted && n.l != n.s.lastAccepted)
  {
    if a != n.s.lastAccepted {
      AncestorsComparable(n.s.lastAccepted, a, n.l);
    }
  }

  /** An event moves finality back exactly when it stops a node whose last
      acceptance is not durable. */
  lemma FinalityMovesBackIff(n: Node, e: Event, c: Config)
    requires NodeInv(n, c) && LegalEvent(n, e, c)
    ensures LastAccepted(Next(n, e, c)).DescendsFrom(LastAccepted(n)) <==>
            !(n.Up? && (e.Stop? || e.CrashIn?) && n.l != n.s.lastAccepted)
  {
    if n.Down? {
      EventKeepsInv(n, e, c);
    } else if e.Do? && e.op.Accept? && Accepts(n.s, e.op.b) {
      assert e.op.b.DescendsFrom(n.s.lastAccepted);
    }
  }

  /** After any run that ends with a boot or an operation, the index holds
      exactly the head's ancestors, and the last accepted block is one of them. */
  lemma IndexOverRuns(n: Node, es: seq<Event>, c: Config)
    requires NodeInv(n, c) && LegalRun(n, es, c) && Run(n, es, c).Up?
    ensures var s := Run(n, es, c).s;
            && (forall k: nat :: k in s.disk.canon <==> k <= s.current.Number())
            && (forall k: nat :: k in s.disk.canon ==>
                  s.disk.canon[k] in s.disk.blocks && s.current.DescendsFrom(s.disk.canon[k]))
            && s.current.DescendsFrom(s.lastAccepted)
            && s.lastAccepted.DescendsFrom(s.acceptorTip)
  {
    RunKeepsInv(n, es, c);
    var s := Run(n, es, c).s;
    LinkedDescends(s.acceptorTip, s.queue, s.lastAccepted);
    forall k: nat | k in s.disk.canon
      ensures s.disk.canon[k] in s.disk.blocks && s.current.DescendsFrom(s.disk.canon[k])
    {
      assert s.current.At(k) in s.disk.blocks;
    }
  }

  /** A fresh node starts with the genesis batch and the genesis state on disk. */
  lemma FreshNode(g: Block, c: Config)
    requires g.Genesis? && ValidConfig(c)
    ensures NodeInv(Down(Disk({g}, map[0 := g], g, g, None), g, {g.root}), c)
  {
  }

  /** The window is real: a fresh node that inserts, accepts and processes a
      block serves it while genesis is still its durable block. */
  lemma ServedBeforeDurable(g: Block, b: Block, c: Config)
    requires g.Genesis? && b.Child? && b.parent == g && ValidConfig(c) && 0 < c.queue
    ensures var n := Down(Disk({g}, map[0 := g], g, g, None), g, {g.root});
            var es := [Boot, Do(Insert(b, true)), Do(Accept(b)), Do(Process)];
            && LegalRun(n, es, c)
            && var r := Run(n, es, c);
               r.Up? && r.l == g && r.s.lastAccepted == r.s.acceptorTip == b
  {
    var n := Down(Disk({g}, map[0 := g], g, g, None), g, {g.root});
    FreshNode(g, c);
    BootSucceeds(n, c);
    var n1 := Next(n, Boot, c);
    var n2 := Next(n1, Do(Insert(b, true)), c);
    var n3 := Next(n2, Do(Accept(b)), c);
    var n4 := Next(n3, Do(Process), c);
    var es := [Boot, Do(Insert(b, true)), Do(Accept(b)), Do(Process)];
    assert es[1..] == [Do(Insert(b, true)), Do(Accept(b)), Do(Process)];
    assert es[1..][1..] == [Do(Accept(b)), Do(Process)];
    assert es[1..][1..][1..] == [Do(Process)];
    assert es[1..][1..][1..][1..] == [];
    assert LegalRun(n3, es[1..][1..][1..], c) && Run(n3, es[1..][1..][1..], c) == n4;
    assert LegalRun(n2, es[1..][1..], c) && Run(n2, es[1..][1..], c) == n4;
    assert LegalRun(n1, es[1..], c) && Run(n1, es[1..], c) == n4;
  }
}
