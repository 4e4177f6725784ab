/** The canonical chain: a block tree, an on-disk number-to-hash index rewritten
    by reorgs, finality, the acceptor queue, and recovery after a crash.

    The specification is the pure state machine below; the class [BlockChain]
    in BlockChain.dfy carries out the same steps with the loops of the
    implementation. */
module CanonicalChain {
  import opened BlockTree
  import opened Buffers

  /** Everything that survives a crash.  Each batch write replaces the whole
      value, so a crash leaves one of the values between two batches. */
  datatype Disk = Disk(blocks: set<Block>,
                       canon: map<nat, Block>,
                       headBlock: Block,
                       headHeader: Block,
                       acceptorTip: Option<Block>)

  datatype State = State(disk: Disk,
                         current: Block,
                         currentHeader: Block,
                         lastAccepted: Block,
                         acceptorTip: Block,
                         queue: seq<Block>,
                         accepted: Fifo<nat, Block>)

  /** Insert's flag stands for the rest of header, body and state validation. */
  datatype Op =
    | Insert(b: Block, verified: bool)
    | Prefer(b: Block)
    | Accept(b: Block)
    | Reject(b: Block)
    | Process

  // ---------- Disk writes ----------

  /** The batch of writeHeadBlock. */
  function SetHead(d: Disk, b: Block): Disk {
    d.(canon := d.canon[b.Number() := b], headBlock := b, headHeader := b)
  }

  /** The batch that drops every index entry above height n. */
  function Trim(d: Disk, n: nat): Disk {
    d.(canon := map k | k in d.canon && k <= n :: d.canon[k])
  }

  /** The disk after the heads of b's chain at heights lo+1..hi are written. */
  function WriteHeads(d: Disk, b: Block, lo: nat, hi: nat): Disk
    requires lo <= hi <= b.Number()
  {
    if lo == hi then d else SetHead(WriteHeads(d, b, lo, hi - 1), b.At(hi))
  }

  /** How far a reorg with common height c writes heads before it trims. */
  function LastEarlyHead(b: Block, c: nat): nat
    requires c <= b.Number()
  {
    if c == b.Number() then c else b.Number() - 1
  }

  /** The disk after each early head write of a reorg, in order. */
  function EarlyHeads(d: Disk, b: Block, lo: nat, hi: nat): (ds: seq<Disk>)
    requires lo <= hi <= b.Number()
    ensures |ds| == hi - lo
    ensures forall i :: 0 <= i < |ds| ==> ds[i] == WriteHeads(d, b, lo, lo + 1 + i)
    decreases hi - lo
  {
    if lo == hi then [] else EarlyHeads(d, b, lo, hi - 1) + [WriteHeads(d, b, lo, hi)]
  }

  /** Every value the disk takes while the head moves to b over the common
      height c: one per batch, in order. */
  function ReorgDisks(d: Disk, b: Block, c: nat): (ds: seq<Disk>)
    requires c <= b.Number()
    ensures |ds| == LastEarlyHead(b, c) - c + 2
  {
    var top := LastEarlyHead(b, c);
    var trimmed := Trim(WriteHeads(d, b, c, top), b.Number());
    EarlyHeads(d, b, c, top) + [trimmed, SetHead(trimmed, b)]
  }

  // ---------- Invariants ----------

  ghost predicate AllStored(d: Disk, b: Block) {
    forall n: nat :: n <= b.Number() ==> b.At(n) in d.blocks
  }

  /** The index holds exactly the ancestors of h at heights 0..h, all stored. */
  ghost predicate Indexed(d: Disk, h: Block) {
    && d.canon == Canonical(h)
    && AllStored(d, h)
    && d.headBlock == h
    && d.headHeader == h
  }

  /** The index agrees with b up to b's height and has no holes. */
  ghost predicate AgreesTo(d: Disk, b: Block) {
    && (forall n: nat :: n <= b.Number() ==> n in d.canon && d.canon[n] == b.At(n))
    && (forall n: nat, m: nat :: n in d.canon && m <= n ==> m in d.canon)
  }

  /** The stored tip is a stored block above genesis.  It is on the chain of l,
      or the child of l that was accepted and processed just before a crash
      lost its acceptance. */
  ghost predicate TipOk(d: Disk, l: Block) {
    d.acceptorTip.Some? ==>
      var t := d.acceptorTip.value;
      t.Child? && t in d.blocks && (l.DescendsFrom(t) || t.parent == l)
  }

  /** The stored tip lies above l. */
  predicate TipAhead(d: Disk, l: Block) {
    d.acceptorTip.Some? && !l.DescendsFrom(d.acceptorTip.value)
  }

  /** A restart with last-accepted block l can repair this disk. */
  ghost predicate Recoverable(d: Disk, l: Block) {
    && d.headBlock.DescendsFrom(l)
    && d.headHeader == d.headBlock
    && AllStored(d, d.headBlock)
    && AgreesTo(d, l)
    && (d.headBlock == l ==> d.canon == Canonical(l))
    && (forall b :: b in d.blocks && b.DescendsFrom(l) ==> AllStored(d, b))
    && TipOk(d, l)
  }

  /** The acceptor queue continues the accepted chain from tip to l. */
  ghost predicate Linked(tip: Block, queue: seq<Block>, l: Block)
    decreases |queue|
  {
    if queue == [] then tip == l
    else queue[0].Child? && queue[0].parent == tip && Linked(queue[0], queue[1..], l)
  }

  /** Every cached height maps to the processed accepted block of that height. */
  ghost predicate CacheSound(cache: Fifo<nat, Block>, tip: Block) {
    forall n: nat :: n in cache.m ==> cache.m[n].Number() == n && tip.DescendsFrom(cache.m[n])
  }

  ghost predicate Inv(s: State) {
    && Indexed(s.disk, s.current)
    && s.currentHeader == s.current
    && Recoverable(s.disk, s.lastAccepted)
    && Linked(s.acceptorTip, s.queue, s.lastAccepted)
    && CacheSound(s.accepted, s.acceptorTip)
  }

  // ---------- Steps ----------

  /** Consensus calls the chain as documented: preferences and acceptances name
      inserted blocks, only blocks that conflict with the accepted chain are
      rejected, and a block it had accepted before a crash is the one it
      accepts again. */
  ghost predicate Legal(s: State, op: Op) {
    match op
    case Insert(_, _) => true
    case Prefer(b) => b in s.disk.blocks
    case Accept(b) => b in s.disk.blocks && (TipAhead(s.disk, s.lastAccepted) ==> s.disk.acceptorTip == Some(b))
    case Reject(b) => b.ConflictsWith(s.lastAccepted)
    case Process => true
  }

  predicate Inserts(s: State, b: Block, verified: bool) {
    verified && b.Child? && b.parent in s.disk.blocks
  }

  function Preferred(s: State, b: Block): State {
    if b.DescendsFrom(s.lastAccepted) then
      s.(disk := s.disk.(canon := Canonical(b), headBlock := b, headHeader := b),
      current := b, currentHeader := b)
    else s
  }

  predicate Accepts(s: State, b: Block) {
    b.Child? && b.parent == s.lastAccepted
  }

  function Step(s: State, op: Op): State {
    match op
    case Insert(b, verified) =>
      if !Inserts(s, b, verified) then s
      else
        var d := s.disk.(blocks := s.disk.blocks + {b});
        if b.parent == s.current
        then s.(disk := SetHead(d, b), current := b, currentHeader := b)
        else s.(disk := d)
    case Prefer(b) => Preferred(s, b)
    case Accept(b) =>
      if !Accepts(s, b) then s
      else
        var p := if b.Number() in s.disk.canon && s.disk.canon[b.Number()] == b then s else Preferred(s, b);
        p.(lastAccepted := b, queue := s.queue + [b])
    case Reject(b) => s.(disk := s.disk.(blocks := s.disk.blocks - {b}))
    case Process =>
      if s.queue == [] then s
      else
        var next := s.queue[0];
        s.(disk := s.disk.(acceptorTip := Some(next)),
        acceptorTip := next,
        queue := s.queue[1..],
        accepted := s.accepted.Put(next.Number(), next))
  }

  /** The disk values a preference for b passes through, the last one included. */
  function PreferDisks(s: State, b: Block): seq<Disk> {
    if !b.DescendsFrom(s.lastAccepted) || b == s.current then []
    else if b.Child? && b.parent == s.current then [SetHead(s.disk, b)]
    else match Common(s.current, b)
      case Some(c) => if c.Number() <= b.Number() then ReorgDisks(s.disk, b, c.Number()) else []
      case None => []
  }

  /** The disk values a step passes through: one per batch write, in order. */
  function Disks(s: State, op: Op): seq<Disk> {
    match op
    case Insert(b, verified) =>
      if !Inserts(s, b, verified) then []
      else
        var d := s.disk.(blocks := s.disk.blocks + {b});
        [d] + if b.parent == s.current then [SetHead(d, b)] else []
    case Prefer(b) => PreferDisks(s, b)
    case Accept(b) =>
      if !Accepts(s, b) || (b.Number() in s.disk.canon && s.disk.canon[b.Number()] == b) then []
      else PreferDisks(s, b)
    case Reject(b) => [s.disk.(blocks := s.disk.blocks - {b})]
    case Process => if s.queue == [] then [] else [s.disk.(acceptorTip := Some(s.queue[0]))]
  }

  // ---------- What a reorg does to the index ----------

  /** While heads are written the index below the last head is b's chain and
      everything else is as before. */
  lemma {:induction false} WriteHeadsIndex(d: Disk, b: Block, lo: nat, hi: nat)
    requires lo <= hi <= b.Number()
    ensures var w := WriteHeads(d, b, lo, hi);
            && w.blocks == d.blocks && w.acceptorTip == d.acceptorTip
            && (forall n: nat :: n in w.canon <==> n in d.canon || lo < n <= hi)
            && (forall n: nat :: n in w.canon ==> w.canon[n] == if lo < n <= hi then b.At(n) else d.canon[n])
            && (w.headBlock, w.headHeader) ==
               if lo == hi then (d.headBlock, d.headHeader) else (b.At(hi), b.At(hi))
    decreases hi - lo
  {
    if lo < hi {
      WriteHeadsIndex(d, b, lo, hi - 1);
    }
  }

  lemma IndexIsCanonical(m: map<nat, Block>, b: Block)
    requires forall n: nat :: n in m <==> n <= b.Number()
    requires forall n: nat :: n in m ==> m[n] == b.At(n)
    ensures m == Canonical(b)
  {
  }

  /** From any hole-free index that agrees with the common ancestor, the last
      batch of a reorg leaves exactly the index of b. */
  lemma ReorgIndex(d: Disk, b: Block, c: Block)
    requires b.DescendsFrom(c) && AgreesTo(d, c)
    ensures var top := LastEarlyHead(b, c.Number());
            SetHead(Trim(WriteHeads(d, b, c.Number(), top), b.Number()), b)
            == d.(canon := Canonical(b), headBlock := b, headHeader := b)
  {
    var top := LastEarlyHead(b, c.Number());
    WriteHeadsIndex(d, b, c.Number(), top);
    var w := WriteHeads(d, b, c.Number(), top);
    var t := Trim(w, b.Number());
    var r := SetHead(t, b);
    forall n: nat | n <= b.Number()
      ensures n in r.canon && r.canon[n] == b.At(n)
    {
      if n <= c.Number() {
        AtAt(b, c.Number(), n);
        assert n in d.canon && d.canon[n] == c.At(n);
        assert n in w.canon && w.canon[n] == c.At(n);
        assert n in t.canon && t.canon[n] == c.At(n);
      } else if n <= top {
        assert n in w.canon && w.canon[n] == b.At(n);
        assert n in t.canon && t.canon[n] == b.At(n);
      }
    }
    IndexIsCanonical(r.canon, b);
  }

  // ---------- Ancestors, storage and the index ----------

  lemma StoredAncestors(d: Disk, b: Block, a: Block)
    requires AllStored(d, b) && b.DescendsFrom(a)
    ensures AllStored(d, a)
  {
    forall n: nat | n <= a.Number()
      ensures a.At(n) in d.blocks
    {
      AtAt(b, a.Number(), n);
      assert b.At(n) in d.blocks;
    }
  }

  lemma IndexedAgrees(d: Disk, h: Block, a: Block)
    requires d.canon == Canonical(h) && h.DescendsFrom(a)
    ensures AgreesTo(d, a)
  {
    forall n: nat | n <= a.Number()
      ensures n in d.canon && d.canon[n] == a.At(n)
    {
      AtAt(h, a.Number(), n);
    }
  }

  /** A disk whose index belongs to a stored head above l is recoverable. */
  lemma IndexedRecoverable(d: Disk, h: Block, l: Block)
    requires Indexed(d, h) && h.DescendsFrom(l)
    requires forall b :: b in d.blocks && b.DescendsFrom(l) ==> AllStored(d, b)
    requires TipOk(d, l)
    ensures Recoverable(d, l)
  {
    IndexedAgrees(d, h, l);
  }

  // ---------- Every disk a reorg passes through is recoverable ----------

  /** The situation in which a reorg from the stored head to b runs. */
  ghost predicate ReorgReady(d: Disk, b: Block, c: Block, l: Block) {
    && Recoverable(d, l)
    && b in d.blocks && b.DescendsFrom(c) && d.headBlock.DescendsFrom(c) && c.DescendsFrom(l)
    && AgreesTo(d, c)
    && b != d.headBlock && !(b.Child? && b.parent == d.headBlock)
  }

  lemma EarlyHeadRecoverable(d: Disk, b: Block, c: Block, l: Block, n: nat)
    requires ReorgReady(d, b, c, l) && c.Number() < n <= b.Number()
    ensures Recoverable(WriteHeads(d, b, c.Number(), n), l)
  {
    var w := WriteHeads(d, b, c.Number(), n);
    WriteHeadsIndex(d, b, c.Number(), n);
    DescendsTrans(b, c, l);
    AtAt(b, n, l.Number());
    assert w.headBlock == b.At(n);
    assert AllStored(d, b);
    StoredAncestors(d, b, b.At(n)) by { assert b.DescendsFrom(b.At(n)); }
    assert AllStored(w, w.headBlock);
    assert AgreesTo(w, l) by {
      forall k: nat | k <= l.Number()
        ensures k in w.canon && w.canon[k] == l.At(k)
      {
        assert k in d.canon && d.canon[k] == l.At(k);
      }
      assert c.Number() in d.canon;
    }
    forall x | x in w.blocks && x.DescendsFrom(l)
      ensures AllStored(w, x)
    {
      assert AllStored(d, x);
    }
  }

  lemma TrimmedRecoverable(d: Disk, b: Block, c: Block, l: Block)
    requires ReorgReady(d, b, c, l)
    ensures Recoverable(Trim(WriteHeads(d, b, c.Number(), LastEarlyHead(b, c.Number())), b.Number()), l)
  {
    var top := LastEarlyHead(b, c.Number());
    var w := WriteHeads(d, b, c.Number(), top);
    if top > c.Number() {
      EarlyHeadRecoverable(d, b, c, l, top);
      AtAt(b, top, l.Number());
      assert w.headBlock.Number() == top by { WriteHeadsIndex(d, b, c.Number(), top); }
    } else {
      assert b.Number() == c.Number() + 1 ==> b.At(c.Number()) == b.parent;
      assert d.headBlock != l;
    }
    var t := Trim(w, b.Number());
    DescendsTrans(b, c, l);
    forall x | x in t.blocks && x.DescendsFrom(l)
      ensures AllStored(t, x)
    {
      assert AllStored(w, x);
    }
  }

  /** The last disk of a reorg holds the whole index of the new head. */
  lemma ReorgEnds(d: Disk, b: Block, c: Block, l: Block)
    requires ReorgReady(d, b, c, l)
    ensures var ds := ReorgDisks(d, b, c.Number());
            var r := d.(canon := Canonical(b), headBlock := b, headHeader := b);
            ds[|ds| - 1] == r && Indexed(r, b) && Recoverable(r, l)
  {
    ReorgIndex(d, b, c);
    DescendsTrans(b, c, l);
    var r := d.(canon := Canonical(b), headBlock := b, headHeader := b);
    assert AllStored(d, b);
    forall x | x in r.blocks && x.DescendsFrom(l)
      ensures AllStored(r, x)
    {
      assert AllStored(d, x);
    }
    assert AllStored(r, b);
    IndexedRecoverable(r, b, l);
  }

  lemma ReorgDisksRecoverable(d: Disk, b: Block, c: Block, l: Block)
    requires ReorgReady(d, b, c, l)
    ensures var ds := ReorgDisks(d, b, c.Number());
            && (forall i :: 0 <= i < |ds| ==> Recoverable(ds[i], l))
            && ds[|ds| - 1] == d.(canon := Canonical(b), headBlock := b, headHeader := b)
            && Indexed(ds[|ds| - 1], b)
  {
    assert c.Number() <= b.Number();
    hide Recoverable, ReorgReady, Indexed, EarlyHeads, WriteHeads, Trim, Canonical;
    var top := LastEarlyHead(b, c.Number());
    EarlyHeadsRecoverable(d, b, c, l, top);
    TrimmedRecoverable(d, b, c, l);
    ReorgEnds(d, b, c, l);
    var trimmed := Trim(WriteHeads(d, b, c.Number(), top), b.Number());
    assert Recoverable(trimmed, l);
    assert ReorgDisks(d, b, c.Number()) == EarlyHeads(d, b, c.Number(), top) + [trimmed, SetHead(trimmed, b)];
    assert Recoverable(SetHead(trimmed, b), l);
    assert forall i :: 0 <= i < |EarlyHeads(d, b, c.Number(), top)| ==> Recoverable(EarlyHeads(d, b, c.Number(), top)[i], l);
    AllRecoverable(EarlyHeads(d, b, c.Number(), top), trimmed, SetHead(trimmed, b), l);
  }

  lemma AllRecoverable(es: seq<Disk>, x: Disk, y: Disk, l: Block)
    requires Recoverable(x, l) && Recoverable(y, l) && forall i :: 0 <= i < |es| ==> Recoverable(es[i], l)
    ensures var ds := es + [x, y];
            forall i :: 0 <= i < |ds| ==> Recoverable(ds[i], l)
  {
  }

  lemma EarlyHeadsRecoverable(d: Disk, b: Block, c: Block, l: Block, top: nat)
    requires ReorgReady(d, b, c, l) && c.Number() <= top <= b.Number()
    ensures var ds := EarlyHeads(d, b, c.Number(), top);
            forall i :: 0 <= i < |ds| ==> Recoverable(ds[i], l)
  {
    var ds := EarlyHeads(d, b, c.Number(), top);
    forall i | 0 <= i < |ds|
      ensures Recoverable(ds[i], l)
    {
      EarlyHeadRecoverable(d, b, c, l, c.Number() + 1 + i);
    }
  }

  // ---------- Each step ----------

  /** A preference for an inserted block is granted exactly when it keeps the
      last accepted block; then every disk on the way is recoverable. */
  lemma PreferStep(s: State, b: Block)
    requires Inv(s) && b in s.disk.blocks
    ensures Inv(Preferred(s, b))
    ensures var ds := PreferDisks(s, b);
            && (forall i :: 0 <= i < |ds| ==> Recoverable(ds[i], s.lastAccepted))
            && Preferred(s, b).disk == if ds == [] then s.disk else ds[|ds| - 1]
    ensures b.DescendsFrom(s.lastAccepted) && b != s.current && !(b.Child? && b.parent == s.current) ==>
              && Common(s.current, b).Some?
              && ReorgReady(s.disk, b, Common(s.current, b).value, s.lastAccepted)
  {
    var l := s.lastAccepted;
    var d := s.disk;
    var p := Preferred(s, b);
    if b.DescendsFrom(l) {
      assert AllStored(d, b);
      assert Indexed(p.disk, b);
      forall x | x in p.disk.blocks && x.DescendsFrom(l)
        ensures AllStored(p.disk, x)
      {
        assert AllStored(d, x);
      }
      IndexedRecoverable(p.disk, b, l);
      if b == s.current {
      } else if b.Child? && b.parent == s.current {
        ExtendIndex(s.current, b);
      } else {
        CommonIsHighest(s.current, b);
        var c := Common(s.current, b).value;
        IndexedAgrees(d, s.current, c);
        ReorgDisksRecoverable(d, b, c, l);
      }
    }
  }

  lemma ExtendIndex(h: Block, b: Block)
    requires b.Child? && b.parent == h
    ensures Canonical(h)[b.Number() := b] == Canonical(b)
  {
  }

  lemma InsertStep(s: State, b: Block)
    requires Inv(s) && Inserts(s, b, true)
    ensures Inv(Step(s, Insert(b, true)))
    ensures forall i :: 0 <= i < |Disks(s, Insert(b, true))| ==>
              Recoverable(Disks(s, Insert(b, true))[i], s.lastAccepted)
  {
    var l := s.lastAccepted;
    var d := s.disk.(blocks := s.disk.blocks + {b});
    StoredGrows(s.disk, d, s.current);
    forall x | x in d.blocks && x.DescendsFrom(l)
      ensures AllStored(d, x)
    {
      if x in s.disk.blocks {
        StoredGrows(s.disk, d, x);
      } else if x == l {
        StoredAncestors(s.disk, s.current, l);
        StoredGrows(s.disk, d, l);
      } else {
        assert b.parent.DescendsFrom(l);
        StoredGrows(s.disk, d, b.parent);
        StoredChild(d, b);
      }
    }
    IndexedRecoverable(d, s.current, l);
    if b.parent == s.current {
      var e := SetHead(d, b);
      ExtendIndex(s.current, b);
      StoredChild(d, b);
      assert Indexed(e, b);
      assert b.DescendsFrom(s.current);
      DescendsTrans(b, s.current, l);
      forall x | x in e.blocks && x.DescendsFrom(l)
        ensures AllStored(e, x)
      {
        assert AllStored(d, x);
      }
      IndexedRecoverable(e, b, l);
    }
  }

  lemma StoredGrows(d: Disk, e: Disk, b: Block)
    requires d.blocks <= e.blocks && AllStored(d, b)
    ensures AllStored(e, b)
  {
  }

  lemma StoredChild(d: Disk, b: Block)
    requires b.Child? && b in d.blocks && AllStored(d, b.parent)
    ensures AllStored(d, b)
  {
  }

  /** Accepting a child of the last accepted block always succeeds. */
  lemma AcceptStep(s: State, b: Block)
    requires Inv(s) && Legal(s, Accept(b)) && Accepts(s, b)
    ensures Inv(Step(s, Accept(b)))
    ensures Step(s, Accept(b)).lastAccepted == b
    ensures forall i :: 0 <= i < |Disks(s, Accept(b))| ==> Recoverable(Disks(s, Accept(b))[i], s.lastAccepted)
  {
    var l := s.lastAccepted;
    assert b.DescendsFrom(l);
    PreferStep(s, b);
    var t := Step(s, Accept(b));
    var p := if b.Number() in s.disk.canon && s.disk.canon[b.Number()] == b then s else Preferred(s, b);
    assert Inv(p) && t.disk == p.disk && t.current == p.current;
    assert p.current.DescendsFrom(b);
    forall x | x in t.disk.blocks && x.DescendsFrom(b)
      ensures AllStored(t.disk, x)
    {
      DescendsTrans(x, b, l);
      assert AllStored(p.disk, x);
    }
    if t.disk.acceptorTip.Some? && !TipAhead(s.disk, l) {
      DescendsTrans(b, l, t.disk.acceptorTip.value);
    }
    IndexedRecoverable(t.disk, t.current, b);
    LinkedExtends(s.acceptorTip, s.queue, l, b);
  }

  /** After a crash that lost an acceptance, accepting a child keeps the
      invariant exactly when it is the child the stored tip names. */
  lemma AcceptNeedsTip(s: State, b: Block)
    requires Inv(s) && b in s.disk.blocks && Accepts(s, b) && TipAhead(s.disk, s.lastAccepted)
    ensures Inv(Step(s, Accept(b))) <==> s.disk.acceptorTip == Some(b)
  {
    var t := s.disk.acceptorTip.value;
    if t == b {
      AcceptStep(s, b);
    } else {
      assert t.Number() == b.Number();
      assert Step(s, Accept(b)).disk.acceptorTip == Some(t);
    }
  }

  lemma {:induction false} LinkedExtends(tip: Block, queue: seq<Block>, l: Block, b: Block)
    requires Linked(tip, queue, l) && b.Child? && b.parent == l
    ensures Linked(tip, queue + [b], b)
    decreases |queue|
  {
    if queue == [] {
      assert (queue + [b])[1..] == [];
    } else {
      LinkedExtends(queue[0], queue[1..], l, b);
      assert (queue + [b])[1..] == queue[1..] + [b];
    }
  }

  /** A rejected block conflicts with the accepted chain, so it is not in the
      canonical index, and no canonical block is deleted. */
  lemma RejectStep(s: State, b: Block)
    requires Inv(s) && b.ConflictsWith(s.lastAccepted)
    ensures forall n :: n in s.disk.canon ==> s.disk.canon[n] != b
    ensures Inv(Step(s, Reject(b)))
  {
    var l := s.lastAccepted;
    if s.disk.acceptorTip.Some? {
      var t := s.disk.acceptorTip.value;
      assert t.DescendsFrom(t.parent);
    }
    var d := Step(s, Reject(b)).disk;
    forall x | AllStored(s.disk, x) && x.DescendsFrom(l)
      ensures AllStored(d, x)
    {
      forall n: nat | n <= x.Number()
        ensures x.At(n) in d.blocks
      {
        if x.At(n) == b {
          if n <= l.Number() { AncestorsComparable(x, b, l); } else { AncestorsComparable(x, l, b); }
        }
      }
    }
    IndexedRecoverable(d, s.current, l);
    forall n | n in s.disk.canon
      ensures s.disk.canon[n] != b
    {
      assert s.current.At(n) in d.blocks;
    }
  }

  lemma {:induction false} LinkedDescends(tip: Block, queue: seq<Block>, l: Block)
    requires Linked(tip, queue, l)
    ensures l.DescendsFrom(tip)
    decreases |queue|
  {
    if queue != [] {
      LinkedDescends(queue[0], queue[1..], l);
      assert queue[0].DescendsFrom(tip);
      DescendsTrans(l, queue[0], tip);
    }
  }

  lemma ProcessStep(s: State)
    requires Inv(s)
    ensures Inv(Step(s, Process))
  {
    if s.queue != [] {
      var next := s.queue[0];
      var t := Step(s, Process);
      LinkedDescends(next, s.queue[1..], s.lastAccepted);
      assert next.DescendsFrom(s.acceptorTip);
      DescendsTrans(s.current, s.lastAccepted, next);
      assert s.current.At(next.Number()) in s.disk.blocks;
      forall x | x in t.disk.blocks && x.DescendsFrom(s.lastAccepted)
        ensures AllStored(t.disk, x)
      {
        assert AllStored(s.disk, x);
      }
      IndexedRecoverable(t.disk, s.current, s.lastAccepted);
      forall n: nat | n in t.accepted.m
        ensures t.accepted.m[n].Number() == n && next.DescendsFrom(t.accepted.m[n])
      {
        if t.accepted.m[n] != next {
          DescendsTrans(next, s.acceptorTip, t.accepted.m[n]);
        }
      }
    }
  }

  /** Every legal step keeps the invariant, and a crash between any two of its
      batch writes leaves a disk that a restart can repair. */
  lemma StepKeepsInv(s: State, op: Op)
    requires Inv(s) && Legal(s, op)
    ensures Inv(Step(s, op))
    ensures forall i :: 0 <= i < |Disks(s, op)| ==> Recoverable(Disks(s, op)[i], s.lastAccepted)
    ensures Step(s, op).disk == if Disks(s, op) == [] then s.disk else Disks(s, op)[|Disks(s, op)| - 1]
  {
    match op
    case Insert(b, verified) =>
      if Inserts(s, b, verified) { InsertStep(s, b); }
    case Prefer(b) => PreferStep(s, b);
    case Accept(b) =>
      if Accepts(s, b) {
        AcceptStep(s, b);
        PreferStep(s, b);
      }
    case Reject(b) => RejectStep(s, b);
    case Process => ProcessStep(s);
  }
}
