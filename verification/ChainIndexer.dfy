/** The section indexer: stored section heads, rollbacks, and a section that is
    processed while the lock is released. */
module ChainIndexer {
  import opened BlockTree
  import opened Arithmetic

  /** Where the update loop stands.  While Working, the lock is not held. */
  datatype Phase =
    | Idle
    | Working(section: nat, oldHead: Option<Block>, number: nat, last: Option<Block>)
    | Failed
    | Done(section: nat, oldHead: Option<Block>, newHead: Block)

  datatype State = State(stored: nat,
                         heads: map<nat, Block>,
                         known: nat,
                         cascaded: int,
                         checkpoint: nat,
                         checkpointHead: Option<Block>,
                         phase: Phase)

  datatype Config = Config(size: nat, confirms: nat)

  const TWO_64: nat := 0x1_0000_0000_0000_0000

  /** The events that can interleave: head notifications, the update loop's
      locked parts, the reads of one header, queries that verify the last head,
      and added checkpoints.  Each read
      of the canonical index sees the index of that moment. */
  datatype Event =
    | Rollback(common: nat)
    | Grow(number: nat, canon: map<nat, Block>)
    | Begin(canon: map<nat, Block>)
    | Read(canon: map<nat, Block>, backendOk: bool)
    | Finish(canon: map<nat, Block>)
    | Verify(canon: map<nat, Block>)
    | Checkpoint(section: nat, head: Block)

  function Lookup(m: map<nat, Block>, n: int): Option<Block> {
    if n >= 0 && n in m then Some(m[n]) else None
  }

  function ParentHash(b: Block): Option<Block> {
    if b.Genesis? then None else Some(b.parent)
  }

  /** Number of the last block of section i. */
  function End(c: Config, i: int): int {
    (i + 1) * c.size - 1
  }

  // ---------- Steps ----------

  /** setValidSections: drop the heads of the sections no longer valid. */
  function SetValid(s: State, n: nat): State {
    s.(stored := n, heads := map i | i in s.heads && !(n <= i < s.stored) :: s.heads[i])
  }

  predicate LastHeadStale(s: State, c: Config, canon: map<nat, Block>) {
    && s.stored > 0 && s.stored > s.checkpoint
    && Lookup(s.heads, s.stored - 1) != Lookup(canon, End(c, s.stored - 1))
  }

  /** verifyLastHead: roll back while the last head is not canonical. */
  function Verified(s: State, c: Config, canon: map<nat, Block>): State
    decreases s.stored
  {
    if LastHeadStale(s, c, canon) then Verified(SetValid(s, s.stored - 1), c, canon) else s
  }

  function Rolled(s: State, c: Config, common: nat): State
    requires 0 < c.size
  {
    var sections := (common + 1) / c.size;
    var known := if sections < s.checkpoint then 0 else sections;
    var stored := if sections < s.checkpoint then s.checkpoint else sections;
    var t := if known < s.known then s.(known := known) else s;
    var u := if stored < t.stored then SetValid(t, stored) else t;
    if known * c.size < u.cascaded then u.(cascaded := known * c.size) else u
  }

  function Grown(s: State, c: Config, head: nat, canon: map<nat, Block>): State
    requires 0 < c.size
  {
    if head < c.confirms then s
    else
      var n := (head + 1 - c.confirms) / c.size;
      var sections := if n < s.checkpoint then 0 else n;
      if sections <= s.known then s
      else if s.known < s.checkpoint
              && Lookup(canon, End(c, s.checkpoint - 1)) != s.checkpointHead then s
      else s.(known := sections)
  }

  function Begun(s: State, c: Config, canon: map<nat, Block>): State {
    if !s.phase.Idle? || s.known <= s.stored then s
    else
      var v := Verified(s, c, canon);
      var before := Lookup(v.heads, v.stored - 1);
      v.(phase := Working(v.stored, before, v.stored * c.size, before))
  }

  /** Read and process the next header of the section. */
  function HeaderRead(s: State, c: Config, canon: map<nat, Block>, backendOk: bool): State {
    if !s.phase.Working? then s
    else
      var Working(section, oldHead, number, last) := s.phase;
      if number >= (section + 1) * c.size then
        (if backendOk && last.Some? then s.(phase := Done(section, oldHead, last.value)) else s.(phase := Failed))
      else match Lookup(canon, number)
        case None => s.(phase := Failed)
        case Some(h) =>
          if ParentHash(h) != last || !backendOk then s.(phase := Failed)
          else s.(phase := Working(section, oldHead, number + 1, Some(h)))
  }

  predicate Completes(s: State) {
    && s.phase.Done?
    && (s.phase.section == 0 || s.phase.oldHead == Lookup(s.heads, s.phase.section - 1))
  }

  function Finished(s: State, c: Config, canon: map<nat, Block>): State {
    if s.phase.Idle? || s.phase.Working? then s
    else if Completes(s) then
      var n := s.phase.section;
      var t := SetValid(s.(heads := s.heads[n := s.phase.newHead]), n + 1);
      t.(cascaded := t.stored * c.size - 1, phase := Idle)
    else
      var v := Verified(s, c, canon);
      v.(known := v.stored, phase := Idle)
  }

  function Checkpointed(s: State, section: nat, head: Block): State {
    if s.checkpoint >= section + 1 || section < s.stored then s
    else SetValid(s.(checkpoint := section + 1, checkpointHead := Some(head), heads := s.heads[section := head]),
                  section + 1)
  }

  function Step(s: State, c: Config, e: Event): State
    requires 0 < c.size
  {
    match e
    case Rollback(common) => Rolled(s, c, common)
    case Grow(head, canon) => Grown(s, c, head, canon)
    case Begin(canon) => Begun(s, c, canon)
    case Read(canon, ok) => HeaderRead(s, c, canon, ok)
    case Finish(canon) => Finished(s, c, canon)
    case Verify(canon) => Verified(s, c, canon)
    case Checkpoint(section, head) => Checkpointed(s, section, head)
  }

  /** Index entries are stored under their own number. */
  ghost predicate Labelled(canon: map<nat, Block>) {
    forall n: nat :: n in canon ==> canon[n].Number() == n
  }

  ghost predicate Legal(s: State, e: Event) {
    match e
    case Rollback(_) => true
    case Grow(_, canon) => Labelled(canon)
    case Begin(canon) => Labelled(canon)
    case Read(canon, _) => Labelled(canon)
    case Finish(canon) => Labelled(canon)
    case Verify(canon) => Labelled(canon)
    case Checkpoint(_, _) => s.phase.Idle?
  }

  // ---------- The stored heads form a chain ----------

  ghost predicate LinkedBack(heads: map<nat, Block>, i: nat)
    requires i in heads
  {
    1 <= i ==> i - 1 in heads && heads[i].DescendsFrom(heads[i - 1])
  }

  /** From the checkpoint on, stored heads close their sections and each
      descends from the one before. */
  ghost predicate ChainedHeads(heads: map<nat, Block>, checkpoint: nat, stored: nat, c: Config) {
    && checkpoint <= stored
    && (forall i: nat :: checkpoint <= i < stored ==> i in heads && heads[i].Number() == End(c, i))
    && (forall i: nat :: checkpoint <= i < stored ==> LinkedBack(heads, i))
    && (forall i: nat :: i in heads ==> i < stored)
    && (0 < checkpoint ==> checkpoint - 1 in heads)
  }

  ghost predicate Chained(s: State, c: Config) {
    ChainedHeads(s.heads, s.checkpoint, s.stored, c)
  }

  ghost predicate PhaseOk(s: State, c: Config) {
    match s.phase
    case Idle => true
    case Failed => true
    case Working(section, oldHead, number, last) =>
      && s.stored <= section && s.checkpoint <= section
      && section * c.size <= number <= (section + 1) * c.size
      && (oldHead.None? <==> section == 0)
      && (number == section * c.size ==> last == oldHead)
      && (number > section * c.size ==> last.Some? && last.value.Number() == number - 1)
      && (oldHead.Some? && last.Some? ==> last.value.DescendsFrom(oldHead.value))
    case Done(section, oldHead, newHead) =>
      && s.stored <= section && s.checkpoint <= section
      && newHead.Number() == End(c, section)
      && (oldHead.None? <==> section == 0)
      && (oldHead.Some? ==> newHead.DescendsFrom(oldHead.value))
  }

  ghost predicate Inv(s: State, c: Config) {
    0 < c.size && Chained(s, c) && PhaseOk(s, c)
  }

  lemma SetValidChained(s: State, c: Config, n: nat)
    requires Chained(s, c) && s.checkpoint <= n <= s.stored
    ensures Chained(SetValid(s, n), c)
  {
    var heads := SetValid(s, n).heads;
    forall i: nat | s.checkpoint <= i < n
      ensures LinkedBack(heads, i)
    {
      assert LinkedBack(s.heads, i);
    }
  }

  lemma AppendChained(heads: map<nat, Block>, checkpoint: nat, n: nat, b: Block, c: Config)
    requires ChainedHeads(heads, checkpoint, n, c) && b.Number() == End(c, n)
    requires 1 <= n ==> n - 1 in heads && b.DescendsFrom(heads[n - 1])
    ensures ChainedHeads(heads[n := b], checkpoint, n + 1, c)
  {
    var extended := heads[n := b];
    forall i: nat | checkpoint <= i < n + 1
      ensures LinkedBack(extended, i)
    {
      if i < n {
        assert LinkedBack(heads, i);
      }
    }
  }

  lemma {:induction false} VerifiedChained(s: State, c: Config, canon: map<nat, Block>)
    requires Chained(s, c)
    ensures var v := Verified(s, c, canon);
            && Chained(v, c) && v.stored <= s.stored && !LastHeadStale(v, c, canon)
            && v == s.(stored := v.stored, heads := v.heads)
            && (forall i: nat :: i in v.heads ==> i in s.heads && v.heads[i] == s.heads[i])
    decreases s.stored
  {
    if LastHeadStale(s, c, canon) {
      SetValidChained(s, c, s.stored - 1);
      VerifiedChained(SetValid(s, s.stored - 1), c, canon);
    }
  }

  lemma SectionSpan(c: Config, section: nat)
    requires 0 < c.size
    ensures section * c.size < (section + 1) * c.size
  {
  }

  lemma BeginKeepsInv(s: State, c: Config, canon: map<nat, Block>)
    requires Inv(s, c)
    ensures Inv(Begun(s, c, canon), c)
  {
    VerifiedChained(s, c, canon);
    SectionSpan(c, Verified(s, c, canon).stored);
  }

  lemma ReadKeepsInv(s: State, c: Config, canon: map<nat, Block>, ok: bool)
    requires Inv(s, c) && Labelled(canon)
    ensures Inv(HeaderRead(s, c, canon, ok), c)
  {
    if s.phase.Working? {
      var Working(section, oldHead, number, last) := s.phase;
      SectionSpan(c, section);
      if number < (section + 1) * c.size && number in canon {
        var h := canon[number];
        if ParentHash(h) == last && last.Some? && oldHead.Some? {
          assert h.DescendsFrom(h.parent);
          DescendsTrans(h, h.parent, oldHead.value);
        }
        if section == 0 {
          assert number == 0 * c.size ==> number == 0;
        }
      }
    }
  }

  lemma FinishKeepsInv(s: State, c: Config, canon: map<nat, Block>)
    requires Inv(s, c)
    ensures Inv(Finished(s, c, canon), c)
  {
    if s.phase.Idle? || s.phase.Working? {
    } else if Completes(s) {
      var n := s.phase.section;
      assert s.stored == n;
      AppendChained(s.heads, s.checkpoint, n, s.phase.newHead, c);
      assert Finished(s, c, canon).heads == s.heads[n := s.phase.newHead];
    } else {
      VerifiedChained(s, c, canon);
    }
  }

  /** t is s after an update: a processed section is stored behind the others
      if the head it was linked to is still stored; otherwise only sections up
      to a canonical head remain and no more are known. */
  ghost predicate Concluded(s: State, t: State, c: Config, canon: map<nat, Block>) {
    var p := s.phase;
    && t.phase.Idle?
    && if p.Done? && (p.section == 0 || p.oldHead == Lookup(s.heads, p.section - 1)) then
         && t.stored == s.stored + 1 == p.section + 1 && t.heads == s.heads[p.section := p.newHead]
         && t.cascaded == End(c, p.section) && t.known == s.known
       else
         && t.known == t.stored <= s.stored && t.cascaded == s.cascaded
         && (t.checkpoint < t.stored ==> Lookup(t.heads, t.stored - 1) == Lookup(canon, End(c, t.stored - 1)))
  }

  lemma FinishConcludes(s: State, c: Config, canon: map<nat, Block>)
    requires Inv(s, c) && (s.phase.Done? || s.phase.Failed?)
    ensures Concluded(s, Finished(s, c, canon), c, canon)
  {
    if Completes(s) {
      assert Finished(s, c, canon).heads == s.heads[s.phase.section := s.phase.newHead];
    } else {
      VerifiedChained(s, c, canon);
    }
  }

  lemma RollbackKeepsInv(s: State, c: Config, common: nat)
    requires Inv(s, c)
    ensures Inv(Rolled(s, c, common), c)
  {
    var sections := (common + 1) / c.size;
    var stored := if sections < s.checkpoint then s.checkpoint else sections;
    if stored < s.stored {
      SetValidChained(s, c, stored);
    }
  }

  /** t is s cut back to a common block: of the sections from the checkpoint on
      exactly those that end at or below the common block stay stored, with
      their heads, and neither the known sections nor the head told to the
      children reach past it. */
  ghost predicate CutBack(s: State, t: State, c: Config, common: nat) {
    && (forall i: nat :: s.checkpoint <= i ==> (i < t.stored <==> i < s.stored && End(c, i) <= common))
    && (forall i: nat :: i in t.heads <==> i in s.heads && i < t.stored)
    && (forall i: nat :: i in t.heads ==> t.heads[i] == s.heads[i])
    && t.known <= s.known && t.known * c.size <= common + 1
    && (t.known < s.known ==> common + 1 < (t.known + 1) * c.size || common + 1 < s.checkpoint * c.size)
    && t.cascaded <= s.cascaded && t.cascaded <= common + 1
    && t.checkpoint == s.checkpoint && t.checkpointHead == s.checkpointHead && t.phase == s.phase
  }

  lemma RollbackCutsBack(s: State, c: Config, common: nat)
    requires Inv(s, c)
    ensures CutBack(s, Rolled(s, c, common), c, common)
  {
    var t := Rolled(s, c, common);
    forall i: nat | s.checkpoint <= i
      ensures i < t.stored <==> i < s.stored && End(c, i) <= common
    {
      DivAtLeast(common + 1, c.size, i + 1);
    }
    var sections := (common + 1) / c.size;
    DivAtLeast(common + 1, c.size, t.known);
    DivAtLeast(common + 1, c.size, t.known + 1);
    DivAtLeast(common + 1, c.size, s.checkpoint);
    DivAtLeast(common + 1, c.size, if sections < s.checkpoint then 0 else sections);
  }

  /** t is s after a new head: more sections are known exactly when the next
      one has all its confirmations, the checkpoint is reached, and a first
      crossing of the checkpoint finds its head; then every section with its
      confirmations is known and no other. */
  ghost predicate GrewTo(s: State, t: State, c: Config, head: nat, canon: map<nat, Block>) {
    && t == s.(known := t.known) && s.known <= t.known
    && (s.known < t.known <==>
        && (s.known + 1) * c.size + c.confirms <= head + 1
        && s.checkpoint * c.size + c.confirms <= head + 1
        && (s.known < s.checkpoint ==> Lookup(canon, s.checkpoint * c.size - 1) == s.checkpointHead))
    && (s.known < t.known ==>
          t.known * c.size + c.confirms <= head + 1 < (t.known + 1) * c.size + c.confirms)
  }

  lemma GrowthIsConfirmed(s: State, c: Config, head: nat, canon: map<nat, Block>)
    requires 0 < c.size
    ensures GrewTo(s, Grown(s, c, head, canon), c, head, canon)
  {
    var t := Grown(s, c, head, canon);
    var x := head + 1 - c.confirms;
    DivAtLeast(x, c.size, s.known + 1);
    DivAtLeast(x, c.size, s.checkpoint);
    DivAtLeast(x, c.size, t.known);
    DivAtLeast(x, c.size, t.known + 1);
    MulStep(c.size, s.known, s.known + 1);
    MulMonotone(c.size, 0, s.known);
  }

  lemma CheckpointKeepsInv(s: State, c: Config, section: nat, head: Block)
    requires Inv(s, c) && s.phase.Idle?
    ensures Inv(Checkpointed(s, section, head), c)
  {
  }

  /** No interleaving of notifications, rollbacks and unlocked processing
      breaks the chain of stored heads. */
  lemma StepKeepsInv(s: State, c: Config, e: Event)
    requires Inv(s, c) && Legal(s, e)
    ensures Inv(Step(s, c, e), c)
  {
    match e
    case Rollback(common) => RollbackKeepsInv(s, c, common);
    case Grow(head, canon) =>
    case Begin(canon) => BeginKeepsInv(s, c, canon);
    case Read(canon, ok) => ReadKeepsInv(s, c, canon, ok);
    case Finish(canon) => FinishKeepsInv(s, c, canon);
    case Verify(canon) => VerifiedChained(s, c, canon);
    case Checkpoint(section, head) => CheckpointKeepsInv(s, c, section, head);
  }

  ghost predicate LegalRun(s: State, c: Config, es: seq<Event>)
    requires 0 < c.size
    decreases |es|
  {
    es == [] || (Legal(s, es[0]) && LegalRun(Step(s, c, es[0]), c, es[1..]))
  }

  ghost function Run(s: State, c: Config, es: seq<Event>): State
    requires 0 < c.size
    decreases |es|
  {
    if es == [] then s else Run(Step(s, c, es[0]), c, es[1..])
  }

  lemma {:induction false} RunKeepsInv(s: State, c: Config, es: seq<Event>)
    requires Inv(s, c) && LegalRun(s, c, es)
    ensures Inv(Run(s, c, es), c)
    decreases |es|
  {
    if es != [] {
      StepKeepsInv(s, c, es[0]);
      RunKeepsInv(Step(s, c, es[0]), c, es[1..]);
    }
  }

  // ---------- What one comparison proves ----------

  lemma {:induction false} HeadsDescend(s: State, c: Config, i: nat, j: nat)
    requires Chained(s, c) && s.checkpoint <= i <= j < s.stored
    ensures s.heads[j].DescendsFrom(s.heads[i])
    decreases j
  {
    if i < j {
      HeadsDescend(s, c, i, j - 1);
      assert LinkedBack(s.heads, j);
      DescendsTrans(s.heads[j], s.heads[j - 1], s.heads[i]);
    }
  }

  lemma StaleIff(s: State, c: Config, h: Block)
    requires Chained(s, c) && s.checkpoint < s.stored
    ensures LastHeadStale(s, c, Canonical(h)) <==> !h.DescendsFrom(s.heads[s.stored - 1])
  {
  }

  lemma FreshKeepsAll(s: State, c: Config, h: Block, i: nat)
    requires Chained(s, c) && s.checkpoint <= i < s.stored && h.DescendsFrom(s.heads[s.stored - 1])
    ensures h.DescendsFrom(s.heads[i])
  {
    HeadsDescend(s, c, i, s.stored - 1);
    DescendsTrans(h, s.heads[s.stored - 1], s.heads[i]);
  }

  /** A canonical section is never rolled back. */
  lemma {:induction false} CanonicalSurvives(s: State, c: Config, h: Block, canon: map<nat, Block>, i: nat)
    requires Chained(s, c) && s.checkpoint <= i < s.stored
    requires h.DescendsFrom(s.heads[i]) && canon == Canonical(h)
    ensures i < Verified(s, c, canon).stored
    decreases s.stored
  {
    if LastHeadStale(s, c, canon) {
      StaleIff(s, c, h);
      SetValidChained(s, c, s.stored - 1);
      CanonicalSurvives(SetValid(s, s.stored - 1), c, h, canon, i);
    }
  }

  /** Comparing only the last head keeps exactly the canonical sections: after
      verifyLastHead a section at or above the checkpoint is stored if and
      only if it was stored before and its head is canonical. */
  lemma VerifyKeepsCanonical(s: State, c: Config, h: Block, i: nat)
    requires Chained(s, c) && s.checkpoint <= i < s.stored
    ensures i < Verified(s, c, Canonical(h)).stored <==> h.DescendsFrom(s.heads[i])
  {
    var v := Verified(s, c, Canonical(h));
    VerifiedChained(s, c, Canonical(h));
    if i < v.stored {
      StaleIff(v, c, h);
      FreshKeepsAll(v, c, h, i);
    }
    if h.DescendsFrom(s.heads[i]) {
      CanonicalSurvives(s, c, h, Canonical(h), i);
    }
  }

  /** In every run, whenever the last head compares equal to the canonical
      hash, all stored heads from the checkpoint on are canonical: each is the
      ancestor of the chain head at the end of its section. */
  lemma SectionsSound(s0: State, c: Config, es: seq<Event>, h: Block, i: nat)
    requires Inv(s0, c) && LegalRun(s0, c, es)
    requires Run(s0, c, es).checkpoint <= i < Run(s0, c, es).stored
    requires !LastHeadStale(Run(s0, c, es), c, Canonical(h))
    ensures var s := Run(s0, c, es);
            i in s.heads && s.heads[i].Number() == End(c, i) && h.DescendsFrom(s.heads[i])
  {
    RunKeepsInv(s0, c, es);
    var s := Run(s0, c, es);
    VerifyKeepsCanonical(s, c, h, i);
  }

  // ---------- A quiet section completes ----------

  /** n headers read from one index, with a backend that accepts them. */
  ghost function Reads(canon: map<nat, Block>, n: nat): seq<Event> {
    seq(n, _ => Read(canon, true))
  }

  /** The block before a number on the chain of h. */
  function BlockBefore(h: Block, number: int): Option<Block> {
    if 1 <= number <= h.Number() + 1 then Some(h.At(number - 1)) else None
  }

  /** While the index stays that of h, each read takes the section one block
      further along h's chain. */
  lemma {:induction false} ReadsAdvance(s: State, c: Config, h: Block, n: nat)
    requires 0 < c.size && s.phase.Working? && s.phase.last == BlockBefore(h, s.phase.number)
    requires s.phase.number + n <= (s.phase.section + 1) * c.size <= h.Number() + 1
    ensures var p := s.phase;
            Run(s, c, Reads(Canonical(h), n)) ==
            s.(phase := Working(p.section, p.oldHead, p.number + n, BlockBefore(h, p.number + n)))
    decreases n
  {
    if n > 0 {
      var p := s.phase;
      var t := Step(s, c, Read(Canonical(h), true));
      ParentAt(h, p.number);
      assert t.phase == Working(p.section, p.oldHead, p.number + 1, BlockBefore(h, p.number + 1));
      ReadsAdvance(t, c, h, n - 1);
      assert Reads(Canonical(h), n)[1..] == Reads(Canonical(h), n - 1);
    }
  }

  lemma ParentAt(h: Block, n: nat)
    requires n <= h.Number()
    ensures ParentHash(h.At(n)) == BlockBefore(h, n)
  {
    if n > 0 {
      AtAt(h, n, n - 1);
    }
  }

  /** The next section can be processed: it is known, the chain of h covers it,
      and its last block is end; the stored part ends on the chain of h. */
  ghost predicate QuietSection(s: State, c: Config, h: Block, end: nat) {
    && Inv(s, c) && s.phase.Idle? && s.stored < s.known
    && end == End(c, s.stored) && end <= h.Number()
    && Lookup(s.heads, s.stored - 1) == BlockBefore(h, s.stored * c.size)
  }

  lemma QuietBegin(s: State, c: Config, h: Block, end: nat)
    requires QuietSection(s, c, h, end)
    ensures var first := s.stored * c.size;
            && first + c.size == end + 1
            && Begun(s, c, Canonical(h)) == s.(phase := Working(s.stored, BlockBefore(h, first), first, BlockBefore(h, first)))
  {
    MulMonotone(c.size, 0, s.stored);
    assert !LastHeadStale(s, c, Canonical(h)) by {
      if s.stored > 0 {
        MulStep(c.size, 0, s.stored);
      }
    }
  }

  /** When the canonical chain of h covers the next section and stays put while
      it is processed, the section is stored with its canonical last block and
      everything stored before it is kept. */
  lemma QuietSectionCompletes(s: State, c: Config, h: Block, end: nat)
    requires QuietSection(s, c, h, end)
    ensures var canon := Canonical(h);
            Step(Run(Step(s, c, Begin(canon)), c, Reads(canon, c.size + 1)), c, Finish(canon)) ==
            s.(stored := s.stored + 1, heads := s.heads[s.stored := h.At(end)], cascaded := end)
  {
    var canon := Canonical(h);
    var b := Step(s, c, Begin(canon));
    QuietBegin(s, c, h, end);
    ReadsAdvance(b, c, h, c.size);
    RunSnoc(b, c, Reads(canon, c.size), Read(canon, true));
    assert Reads(canon, c.size + 1) == Reads(canon, c.size) + [Read(canon, true)];
    var done := s.(phase := Done(s.stored, BlockBefore(h, s.stored * c.size), h.At(end)));
    assert Run(b, c, Reads(canon, c.size + 1)) == done;
    QuietFinish(s, c, h, end);
  }

  lemma QuietFinish(s: State, c: Config, h: Block, end: nat)
    requires QuietSection(s, c, h, end)
    ensures Finished(s.(phase := Done(s.stored, BlockBefore(h, s.stored * c.size), h.At(end))), c, Canonical(h)) ==
            s.(stored := s.stored + 1, heads := s.heads[s.stored := h.At(end)], cascaded := end)
  {
    var f := Finished(s.(phase := Done(s.stored, BlockBefore(h, s.stored * c.size), h.At(end))), c, Canonical(h));
    assert f.heads == s.heads[s.stored := h.At(end)];
  }

  lemma {:induction false} RunSnoc(s: State, c: Config, es: seq<Event>, e: Event)
    requires 0 < c.size
    ensures Run(s, c, es + [e]) == Step(Run(s, c, es), c, e)
    decreases |es|
  {
    if es == [] {
      assert [] + [e] == [e];
    } else {
      assert (es + [e])[1..] == es[1..] + [e];
      RunSnoc(Step(s, c, es[0]), c, es[1..], e);
    }
  }

  // ---------- The indexer object ----------

  class ChainIndexer {
    const config: Config
    var stored: nat
    var heads: map<nat, Block>
    var known: nat
    var cascaded: int
    var checkpoint: nat
    var checkpointHead: Option<Block>
    var phase: Phase

    ghost function St(): State
      reads this
    {
      State(stored, heads, known, cascaded, checkpoint, checkpointHead, phase)
    }

    ghost predicate Valid()
      reads this
    {
      Inv(St(), config)
    }

    /** Start from the section count and the heads of the index database. */
    constructor (c: Config, sections: nat, sectionHeads: map<nat, Block>)
      requires 0 < c.size && ChainedHeads(sectionHeads, 0, sections, c)
      ensures Valid() && config == c && St() == State(sections, sectionHeads, 0, 0, 0, None, Idle)
    {
      config := c;
      stored, heads, known, cascaded := sections, sectionHeads, 0, 0;
      checkpoint, checkpointHead, phase := 0, None, Idle;
    }

    method SetValidSections(sections: nat)
      modifies this
      ensures St() == SetValid(old(St()), sections)
    {
      while stored > sections
        invariant sections <= stored || stored == old(stored)
        invariant stored <= old(stored)
        invariant St() == old(St()).(stored := stored, heads := heads)
        invariant forall i: nat :: i in heads <==> i in old(heads) && !(stored <= i < old(stored))
        invariant forall i: nat :: i in heads ==> heads[i] == old(heads)[i]
      {
        stored := stored - 1;
        heads := heads - {stored};
      }
      stored := sections;
      assert heads == SetValid(old(St()), sections).heads;
    }

    method VerifyLastHead(canon: map<nat, Block>)
      modifies this
      ensures St() == Verified(old(St()), config, canon)
    {
      while stored > 0 && stored > checkpoint
        invariant Verified(St(), config, canon) == Verified(old(St()), config, canon)
        decreases stored
      {
        if Lookup(heads, stored - 1) == Lookup(canon, stored * config.size - 1) {
          return;
        }
        SetValidSections(stored - 1);
      }
    }

    /** Report the last section, after dropping those no longer canonical; without
        a section the last block number wraps around. */
    method Sections(canon: map<nat, Block>) returns (count: nat, last: nat, head: Option<Block>)
      requires Valid() && Labelled(canon)
      modifies this
      ensures Valid()
      ensures St() == Step(old(St()), config, Verify(canon))
      ensures count == stored && last == (stored * config.size - 1) % TWO_64
      ensures head == Lookup(heads, stored - 1)
      ensures checkpoint < stored ==> head.Some? && head == Lookup(canon, End(config, stored - 1))
    {
      StepKeepsInv(St(), config, Verify(canon));
      VerifiedChained(St(), config, canon);
      VerifyLastHead(canon);
      return stored, (stored * config.size - 1) % TWO_64, Lookup(heads, stored - 1);
    }

    /** A new head, or the common block of a reorg. */
    method NewHead(number: nat, reorg: bool, canon: map<nat, Block>)
      requires Valid() && Labelled(canon)
      modifies this
      ensures Valid()
      ensures St() == Step(old(St()), config, if reorg then Rollback(number) else Grow(number, canon))
      ensures reorg ==> CutBack(old(St()), St(), config, number)
      ensures !reorg ==> GrewTo(old(St()), St(), config, number, canon)
    {
      StepKeepsInv(St(), config, if reorg then Rollback(number) else Grow(number, canon));
      RollbackCutsBack(St(), config, number);
      GrowthIsConfirmed(St(), config, number, canon);
      hide Inv, CutBack, GrewTo;
      if reorg {
        RollBack(number);
        return;
      }
      if number >= config.confirms {
        var sections := (number + 1 - config.confirms) / config.size;
        if sections < checkpoint {
          sections := 0;
        }
        if sections > known {
          if known < checkpoint {
            if Lookup(canon, checkpoint * config.size - 1) != checkpointHead {
              return;
            }
          }
          known := sections;
        }
      }
    }

    /** Revert the known, stored and cascaded sections to the common block. */
    method RollBack(number: nat)
      requires 0 < config.size
      modifies this
      ensures St() == Rolled(old(St()), config, number)
    {
      var newKnown := (number + 1) / config.size;
      var newStored := newKnown;
      if newKnown < checkpoint {
        newKnown := 0;
      }
      if newStored < checkpoint {
        newStored := checkpoint;
      }
      if newKnown < known {
        known := newKnown;
      }
      if newStored < stored {
        SetValidSections(newStored);
      }
      var head := newKnown * config.size;
      if head < cascaded {
        cascaded := head;
      }
    }

    /** The locked part of the update loop before a section is processed. */
    method BeginUpdate(canon: map<nat, Block>)
      requires Valid() && Labelled(canon)
      modifies this
      ensures Valid()
      ensures St() == Step(old(St()), config, Begin(canon))
      ensures !(old(phase).Idle? && old(stored) < old(known)) ==> St() == old(St())
      ensures old(phase).Idle? && old(stored) < old(known) ==>
                var before := Lookup(heads, stored - 1);
                && phase == Working(stored, before, stored * config.size, before)
                && stored <= old(stored) && known == old(known)
                && (checkpoint < stored ==> before == Lookup(canon, stored * config.size - 1))
    {
      StepKeepsInv(St(), config, Begin(canon));
      VerifiedChained(St(), config, canon);
      if phase.Idle? && known > stored {
        VerifyLastHead(canon);
        var section := stored;
        var oldHead := None;
        if section > 0 {
          oldHead := Lookup(heads, section - 1);
        }
        phase := Working(section, oldHead, section * config.size, oldHead);
      }
    }

    /** Process the next header of the section without holding the lock. */
    method ProcessHeader(canon: map<nat, Block>, backendOk: bool)
      requires Valid() && Labelled(canon) && phase.Working?
      modifies this`phase
      ensures Valid()
      ensures St() == Step(old(St()), config, Read(canon, backendOk))
      ensures var Working(section, oldHead, number, last) := old(phase);
              phase == if number == (section + 1) * config.size then
                         if backendOk && last.Some? then Done(section, oldHead, last.value) else Failed
                       else if number in canon && ParentHash(canon[number]) == last && backendOk
                       then Working(section, oldHead, number + 1, Some(canon[number])) else Failed
    {
      StepKeepsInv(St(), config, Read(canon, backendOk));
      var Working(section, oldHead, number, last) := phase;
      if number < (section + 1) * config.size {
        var hash := Lookup(canon, number);
        if hash.None? {
          phase := Failed;
        } else if ParentHash(hash.value) != last {
          phase := Failed;
        } else if !backendOk {
          phase := Failed;
        } else {
          phase := Working(section, oldHead, number + 1, hash);
        }
      } else if backendOk && last.Some? {
        phase := Done(section, oldHead, last.value);
      } else {
        phase := Failed;
      }
    }

    /** The locked part of the update loop after a section was processed. */
    method FinishUpdate(canon: map<nat, Block>)
      requires Valid() && Labelled(canon) && (phase.Failed? || phase.Done?)
      modifies this
      ensures Valid()
      ensures St() == Step(old(St()), config, Finish(canon))
      ensures Concluded(old(St()), St(), config, canon)
    {
      StepKeepsInv(St(), config, Finish(canon));
      FinishConcludes(St(), config, canon);
      hide Concluded;
      hide Inv;
      if phase.Done? && (phase.section == 0 || phase.oldHead == Lookup(heads, phase.section - 1)) {
        StoreSection();
      } else {
        VerifyLastHead(canon);
        known := stored;
        phase := Idle;
      }
    }

    /** The processed section is still wanted: it becomes the last valid one. */
    method StoreSection()
      requires phase.Done?
      modifies this
      ensures var n := old(phase.section);
              var t := SetValid(old(St()).(heads := old(heads)[n := old(phase.newHead)]), n + 1);
              St() == t.(cascaded := t.stored * config.size - 1, phase := Idle)
    {
      var section := phase.section;
      heads := heads[section := phase.newHead];
      SetValidSections(section + 1);
      cascaded := stored * config.size - 1;
      phase := Idle;
    }

    method AddCheckpoint(section: nat, head: Block)
      requires Valid() && phase.Idle?
      modifies this
      ensures Valid()
      ensures St() == Step(old(St()), config, Checkpoint(section, head))
      ensures section < old(checkpoint) || section < old(stored) ==> St() == old(St())
      ensures old(checkpoint) <= section && old(stored) <= section ==>
                && checkpoint == stored == section + 1 && checkpointHead == Some(head)
                && heads == old(heads)[section := head] && known == old(known) && cascaded == old(cascaded)
    {
      StepKeepsInv(St(), config, Checkpoint(section, head));
      if checkpoint >= section + 1 || section < stored {
        return;
      }
      checkpoint := section + 1;
      checkpointHead := Some(head);
      heads := heads[section := head];
      SetValidSections(section + 1);
    }
  }
}
