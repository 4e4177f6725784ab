/** The parallel block reader: a ring of slots filled by worker threads in any
    order and emptied in height order. */
module BlockIterator {
  import opened BlockTree
  import opened Arithmetic

  /** A worker waits for a height, reads a block, or offers its result. */
  datatype Worker =
    | Idle
    | Reading(height: nat)
    | Offering(height: nat, result: Option<Block>)

  /** What the consumer is doing.  Filling hands out heights below [limit] and
      then continues in [waits]. */
  datatype Phase =
    | Outside
    | Filling(last: nat, limit: nat, waits: bool)
    | Waiting(last: nat)

  datatype State = State(slots: seq<Option<Block>>,
                         workers: seq<Worker>,
                         nextRead: nat,
                         nextToRead: nat,
                         phase: Phase,
                         closed: bool,
                         yielded: seq<Block>)

  /** Call enters Next with the last accepted height; Give sends a height to a
      worker; Fetch is a worker's read; Receive takes a worker's result; Take
      returns the next block; Leave gives up waiting, because the context is
      done or the iterator closed; Stop closes it at any time, after which
      workers may Exit with what they hold. */
  datatype Event =
    | Call(last: nat)
    | Give(w: nat)
    | Filled
    | Fetch(w: nat, result: Option<Block>)
    | Receive(w: nat)
    | Take
    | Leave
    | Stop
    | Exit(w: nat)

  predicate Wants(s: State) {
    s.phase.Filling? && s.nextToRead <= s.phase.last && s.nextToRead < s.phase.limit
  }

  function SlotOf(s: State, h: nat): nat
    requires 0 < |s.slots|
  {
    h % |s.slots|
  }

  ghost predicate Enabled(s: State, e: Event)
    requires 0 < |s.slots|
  {
    match e
    case Call(last) => s.phase.Outside? && s.nextRead <= last
    case Give(w) => Wants(s) && w < |s.workers| && s.workers[w].Idle?
    case Filled => s.phase.Filling? && (s.closed || !Wants(s))
    case Fetch(w, result) =>
      && w < |s.workers| && s.workers[w].Reading?
      && (result.Some? ==> result.value.Number() == s.workers[w].height)
    case Receive(w) =>
      && s.phase.Waiting? && s.slots[SlotOf(s, s.nextRead)].None?
      && w < |s.workers| && s.workers[w].Offering?
    case Take => s.phase.Waiting? && s.slots[SlotOf(s, s.nextRead)].Some?
    case Leave => s.phase.Waiting? && s.slots[SlotOf(s, s.nextRead)].None?
    case Stop => true
    case Exit(w) => s.closed && w < |s.workers|
  }

  function Step(s: State, e: Event): State
    requires 0 < |s.slots| && Enabled(s, e)
  {
    match e
    case Call(last) => s.(phase := Filling(last, s.nextRead + |s.slots|, true))
    case Give(w) =>
      s.(workers := s.workers[w := Reading(s.nextToRead)], nextToRead := s.nextToRead + 1)
    case Filled => s.(phase := if s.phase.waits then Waiting(s.phase.last) else Outside)
    case Fetch(w, result) => s.(workers := s.workers[w := Offering(s.workers[w].height, result)])
    case Receive(w) =>
      var idle := s.(workers := s.workers[w := Idle]);
      (match s.workers[w].result
       case None => idle.(phase := Outside, closed := true)
       case Some(b) => idle.(slots := s.slots[SlotOf(s, b.Number()) := Some(b)]))
    case Take =>
      var i := SlotOf(s, s.nextRead);
      s.(slots := s.slots[i := None],
      yielded := s.yielded + [s.slots[i].value],
      nextRead := s.nextRead + 1,
      phase := Filling(s.phase.last, s.nextRead + 1 + |s.slots|, false))
    case Leave => s.(phase := Outside)
    case Stop => s.(closed := true)
    case Exit(w) => s.(workers := s.workers[w := Idle])
  }

  // ---------- Counting ----------

  function BusyCount(ws: seq<Worker>): (n: nat)
    ensures n <= |ws|
  {
    if ws == [] then 0 else BusyCount(ws[..|ws| - 1]) + if ws[|ws| - 1].Idle? then 0 else 1
  }

  function FullCount(slots: seq<Option<Block>>): (n: nat)
    ensures n <= |slots|
  {
    if slots == [] then 0 else FullCount(slots[..|slots| - 1]) + if slots[|slots| - 1].None? then 0 else 1
  }

  lemma {:induction false} BusyUpdate(ws: seq<Worker>, w: nat, x: Worker)
    requires w < |ws|
    ensures BusyCount(ws[w := x]) ==
            BusyCount(ws) - (if ws[w].Idle? then 0 else 1) + if x.Idle? then 0 else 1
  {
    if w < |ws| - 1 {
      BusyUpdate(ws[..|ws| - 1], w, x);
      assert ws[w := x][..|ws| - 1] == ws[..|ws| - 1][w := x];
    } else {
      assert ws[w := x][..|ws| - 1] == ws[..|ws| - 1];
    }
  }

  lemma {:induction false} FullUpdate(slots: seq<Option<Block>>, i: nat, x: Option<Block>)
    requires i < |slots|
    ensures FullCount(slots[i := x]) ==
            FullCount(slots) - (if slots[i].None? then 0 else 1) + if x.None? then 0 else 1
  {
    if i < |slots| - 1 {
      FullUpdate(slots[..|slots| - 1], i, x);
      assert slots[i := x][..|slots| - 1] == slots[..|slots| - 1][i := x];
    } else {
      assert slots[i := x][..|slots| - 1] == slots[..|slots| - 1];
    }
  }

  lemma {:induction false} IdleExists(ws: seq<Worker>) returns (w: nat)
    requires BusyCount(ws) < |ws|
    ensures w < |ws| && ws[w].Idle?
  {
    if ws[|ws| - 1].Idle? {
      w := |ws| - 1;
    } else {
      w := IdleExists(ws[..|ws| - 1]);
    }
  }

  /** Heights less than n apart never share a slot. */
  lemma SlotsDiffer(n: nat, a: nat, b: nat)
    requires 0 < n && a < b < a + n
    ensures a % n != b % n
  {
    DivFacts(a, n);
    DivFacts(b, n);
    if a % n == b % n {
      if a / n < b / n {
        MulStep(n, a / n, b / n);
      } else {
        MulMonotone(n, b / n, a / n);
      }
    }
  }

  // ---------- Invariant ----------

  predicate Outstanding(s: State, h: nat) {
    s.nextRead <= h < s.nextToRead
  }

  ghost predicate WorkerOk(s: State, w: nat)
    requires w < |s.workers|
  {
    var x := s.workers[w];
    && (!x.Idle? ==> Outstanding(s, x.height))
    && (x.Offering? && x.result.Some? ==> x.result.value.Number() == x.height)
  }

  ghost predicate SlotOk(s: State, i: nat)
    requires i < |s.slots|
  {
    s.slots[i].Some? ==> Outstanding(s, s.slots[i].value.Number()) && SlotOf(s, s.slots[i].value.Number()) == i
  }

  ghost predicate InSlot(s: State, h: nat)
    requires 0 < |s.slots|
  {
    s.slots[SlotOf(s, h)].Some? && s.slots[SlotOf(s, h)].value.Number() == h
  }

  ghost predicate AtWorker(s: State, h: nat) {
    exists w :: 0 <= w < |s.workers| && !s.workers[w].Idle? && s.workers[w].height == h
  }

  /** Every outstanding height is in its slot or with a worker. */
  ghost predicate Covered(s: State)
    requires 0 < |s.slots|
  {
    forall h: nat :: Outstanding(s, h) ==> InSlot(s, h) || AtWorker(s, h)
  }

  /** No height is in two places. */
  ghost predicate Apart(s: State)
    requires 0 < |s.slots|
  {
    && (forall w :: 0 <= w < |s.workers| && !s.workers[w].Idle? ==> !InSlot(s, s.workers[w].height))
    && (forall v, w :: 0 <= v < w < |s.workers| && !s.workers[v].Idle? && !s.workers[w].Idle? ==>
          s.workers[v].height != s.workers[w].height)
  }

  ghost predicate Inv(s: State, start: nat) {
    && 0 < |s.slots| == |s.workers|
    && s.nextRead <= s.nextToRead <= s.nextRead + |s.slots|
    && s.nextRead == start + |s.yielded|
    && (forall i :: 0 <= i < |s.yielded| ==> s.yielded[i].Number() == start + i)
    && (forall w :: 0 <= w < |s.workers| ==> WorkerOk(s, w))
    && (forall i :: 0 <= i < |s.slots| ==> SlotOk(s, i))
    && Apart(s)
    && (!s.closed ==>
          && Covered(s)
          && BusyCount(s.workers) + FullCount(s.slots) == s.nextToRead - s.nextRead)
    && (s.phase.Filling? ==> s.phase.limit == s.nextRead + |s.slots| && (s.phase.waits ==> s.nextRead <= s.phase.last))
    && (s.phase.Waiting? && !s.closed ==> s.nextRead < s.nextToRead)
  }

  /** A result always finds its slot empty. */
  lemma ReceiveFindsRoom(s: State, start: nat, w: nat)
    requires Inv(s, start) && Enabled(s, Receive(w)) && s.workers[w].result.Some?
    ensures s.slots[SlotOf(s, s.workers[w].result.value.Number())].None?
  {
    assert WorkerOk(s, w);
    var h := s.workers[w].height;
    var i := SlotOf(s, h);
    assert SlotOk(s, i);
    if s.slots[i].Some? {
      var k := s.slots[i].value.Number();
      assert !InSlot(s, h);
      if k < h {
        SlotsDiffer(|s.slots|, k, h);
      } else {
        SlotsDiffer(|s.slots|, h, k);
      }
    }
  }

  // ---------- Steps keep the invariant ----------

  lemma GiveKeepsInv(s: State, start: nat, w: nat)
    requires Inv(s, start) && Enabled(s, Give(w))
    ensures Inv(Step(s, Give(w)), start)
  {
    var t := Step(s, Give(w));
    var h := s.nextToRead;
    BusyUpdate(s.workers, w, Reading(h));
    forall v | 0 <= v < |t.workers|
      ensures WorkerOk(t, v)
    {
      assert WorkerOk(s, v);
    }
    forall i | 0 <= i < |t.slots|
      ensures SlotOk(t, i)
    {
      assert SlotOk(s, i);
    }
    assert !InSlot(t, h) by { assert SlotOk(s, SlotOf(s, h)); }
    if !s.closed {
      forall k: nat | Outstanding(t, k)
        ensures InSlot(t, k) || AtWorker(t, k)
      {
        if k == h {
          assert t.workers[w].height == h;
        } else {
          assert InSlot(s, k) || AtWorker(s, k);
          if AtWorker(s, k) {
            var v :| 0 <= v < |s.workers| && !s.workers[v].Idle? && s.workers[v].height == k;
            assert t.workers[v] == s.workers[v];
          }
        }
      }
    }
    forall v | 0 <= v < |t.workers| && !t.workers[v].Idle?
      ensures !InSlot(t, t.workers[v].height) && (v != w ==> t.workers[v].height != h)
    {
      if v != w {
        assert WorkerOk(s, v) && !InSlot(s, s.workers[v].height);
      }
    }
  }

  lemma FetchKeepsInv(s: State, start: nat, w: nat, result: Option<Block>)
    requires Inv(s, start) && Enabled(s, Fetch(w, result))
    ensures Inv(Step(s, Fetch(w, result)), start)
  {
    var t := Step(s, Fetch(w, result));
    BusyUpdate(s.workers, w, t.workers[w]);
    forall v | 0 <= v < |t.workers|
      ensures WorkerOk(t, v)
    {
      assert WorkerOk(s, v);
    }
    forall i | 0 <= i < |t.slots|
      ensures SlotOk(t, i)
    {
      assert SlotOk(s, i);
    }
    if !s.closed {
      forall k: nat | Outstanding(t, k)
        ensures InSlot(t, k) || AtWorker(t, k)
      {
        assert InSlot(s, k) || AtWorker(s, k);
        if AtWorker(s, k) {
          var v :| 0 <= v < |s.workers| && !s.workers[v].Idle? && s.workers[v].height == k;
          assert !t.workers[v].Idle? && t.workers[v].height == k;
        }
      }
    }
    forall v | 0 <= v < |t.workers| && !t.workers[v].Idle?
      ensures !InSlot(t, t.workers[v].height)
    {
      assert !InSlot(s, s.workers[v].height);
    }
  }

  lemma ReceiveKeepsInv(s: State, start: nat, w: nat)
    requires Inv(s, start) && Enabled(s, Receive(w))
    ensures Inv(Step(s, Receive(w)), start)
  {
    var t := Step(s, Receive(w));
    assert WorkerOk(s, w);
    forall v | 0 <= v < |t.workers|
      ensures WorkerOk(t, v)
    {
      assert WorkerOk(s, v);
    }
    if s.workers[w].result.None? {
      forall i | 0 <= i < |t.slots|
        ensures SlotOk(t, i)
      {
        assert SlotOk(s, i);
      }
      forall v | 0 <= v < |t.workers| && !t.workers[v].Idle?
        ensures !InSlot(t, t.workers[v].height)
      {
        assert !InSlot(s, s.workers[v].height);
      }
    } else {
      ReceiveFindsRoom(s, start, w);
      ReceivePlaces(s, start, w);
    }
  }

  lemma ReceivePlaces(s: State, start: nat, w: nat)
    requires Inv(s, start) && Enabled(s, Receive(w)) && s.workers[w].result.Some?
    requires s.slots[SlotOf(s, s.workers[w].result.value.Number())].None?
    ensures var t := Step(s, Receive(w));
            && (forall i :: 0 <= i < |t.slots| ==> SlotOk(t, i))
            && Apart(t)
            && (!s.closed ==>
                  Covered(t) && BusyCount(t.workers) + FullCount(t.slots) == t.nextToRead - t.nextRead)
  {
    var t := Step(s, Receive(w));
    assert WorkerOk(s, w);
    var h := s.workers[w].height;
    var j := SlotOf(s, h);
    BusyUpdate(s.workers, w, Idle);
    FullUpdate(s.slots, j, s.workers[w].result);
    forall i | 0 <= i < |t.slots|
      ensures SlotOk(t, i)
    {
      assert SlotOk(s, i);
    }
    if !s.closed {
      ReceiveCovers(s, w);
    }
    forall v | 0 <= v < |t.workers| && !t.workers[v].Idle?
      ensures !InSlot(t, t.workers[v].height)
    {
      assert !InSlot(s, s.workers[v].height);
      assert s.workers[v].height != h;
    }
  }

  lemma ReceiveCovers(s: State, w: nat)
    requires 0 < |s.slots| && Enabled(s, Receive(w)) && WorkerOk(s, w) && s.workers[w].result.Some? && Covered(s)
    requires s.slots[SlotOf(s, s.workers[w].height)].None?
    ensures Covered(Step(s, Receive(w)))
  {
    var t := Step(s, Receive(w));
    var h := s.workers[w].height;
    forall k: nat | Outstanding(t, k)
      ensures InSlot(t, k) || AtWorker(t, k)
    {
      assert InSlot(s, k) || AtWorker(s, k);
      if k != h && AtWorker(s, k) {
        var v :| 0 <= v < |s.workers| && !s.workers[v].Idle? && s.workers[v].height == k;
        assert !t.workers[v].Idle? && t.workers[v].height == k;
      }
    }
  }

  lemma TakeKeepsInv(s: State, start: nat)
    requires Inv(s, start) && Enabled(s, Take)
    ensures Inv(Step(s, Take), start)
    ensures Step(s, Take).yielded == s.yielded + [s.slots[SlotOf(s, s.nextRead)].value]
    ensures s.slots[SlotOf(s, s.nextRead)].value.Number() == s.nextRead
  {
    var t := Step(s, Take);
    var j := SlotOf(s, s.nextRead);
    assert SlotOk(s, j);
    var k := s.slots[j].value.Number();
    if s.nextRead < k {
      SlotsDiffer(|s.slots|, s.nextRead, k);
    }
    FullUpdate(s.slots, j, None);
    forall v | 0 <= v < |t.workers|
      ensures WorkerOk(t, v)
    {
      assert WorkerOk(s, v);
      assert !s.workers[v].Idle? ==> !InSlot(s, s.workers[v].height);
    }
    forall i | 0 <= i < |t.slots|
      ensures SlotOk(t, i)
    {
      assert SlotOk(s, i);
    }
    if !s.closed {
      forall h: nat | Outstanding(t, h)
        ensures InSlot(t, h) || AtWorker(t, h)
      {
        assert InSlot(s, h) || AtWorker(s, h);
      }
    }
    forall v | 0 <= v < |t.workers| && !t.workers[v].Idle?
      ensures !InSlot(t, t.workers[v].height)
    {
      assert !InSlot(s, s.workers[v].height);
    }
  }

  lemma ExitKeepsInv(s: State, start: nat, w: nat)
    requires Inv(s, start) && Enabled(s, Exit(w))
    ensures Inv(Step(s, Exit(w)), start)
  {
    var t := Step(s, Exit(w));
    forall v | 0 <= v < |t.workers|
      ensures WorkerOk(t, v)
    {
      assert WorkerOk(s, v);
    }
    forall i | 0 <= i < |t.slots|
      ensures SlotOk(t, i)
    {
      assert SlotOk(s, i);
    }
    forall v | 0 <= v < |t.workers| && !t.workers[v].Idle?
      ensures !InSlot(t, t.workers[v].height)
    {
      assert !InSlot(s, s.workers[v].height);
    }
  }

  lemma PhaseKeepsInv(s: State, t: State, start: nat)
    requires Inv(s, start) && t == s.(phase := t.phase, closed := t.closed) && (s.closed ==> t.closed)
    requires t.phase.Filling? ==>
               t.phase.limit == s.nextRead + |s.slots| && (t.phase.waits ==> s.nextRead <= t.phase.last)
    requires t.phase.Waiting? && !t.closed ==> s.nextRead < s.nextToRead
    ensures Inv(t, start)
  {
    forall v | 0 <= v < |t.workers|
      ensures WorkerOk(t, v)
    {
      assert WorkerOk(s, v);
    }
    forall i | 0 <= i < |t.slots|
      ensures SlotOk(t, i)
    {
      assert SlotOk(s, i);
    }
    if !t.closed {
      forall h: nat | Outstanding(t, h)
        ensures InSlot(t, h) || AtWorker(t, h)
      {
        assert InSlot(s, h) || AtWorker(s, h);
      }
    }
    forall v | 0 <= v < |t.workers| && !t.workers[v].Idle?
      ensures !InSlot(t, t.workers[v].height)
    {
      assert !InSlot(s, s.workers[v].height);
    }
  }

  lemma StepKeepsInv(s: State, start: nat, e: Event)
    requires Inv(s, start) && Enabled(s, e)
    ensures Inv(Step(s, e), start)
    ensures s.yielded <= Step(s, e).yielded
  {
    match e
    case Call(last) => PhaseKeepsInv(s, Step(s, e), start);
    case Give(w) => GiveKeepsInv(s, start, w);
    case Filled => PhaseKeepsInv(s, Step(s, e), start);
    case Fetch(w, result) => FetchKeepsInv(s, start, w, result);
    case Receive(w) => ReceiveKeepsInv(s, start, w);
    case Take => TakeKeepsInv(s, start);
    case Leave => PhaseKeepsInv(s, Step(s, e), start);
    case Stop => PhaseKeepsInv(s, Step(s, e), start);
    case Exit(w) => ExitKeepsInv(s, start, w);
  }

  // ---------- Whole runs ----------

  ghost predicate LegalRun(s: State, es: seq<Event>)
    decreases |es|
  {
    es == [] || (0 < |s.slots| && Enabled(s, es[0]) && LegalRun(Step(s, es[0]), es[1..]))
  }

  ghost function Run(s: State, es: seq<Event>): State
    requires LegalRun(s, es)
    decreases |es|
  {
    if es == [] then s else Run(Step(s, es[0]), es[1..])
  }

  lemma {:induction false} RunKeepsInv(s: State, start: nat, es: seq<Event>)
    requires Inv(s, start) && LegalRun(s, es)
    ensures Inv(Run(s, es), start)
    decreases |es|
  {
    if es != [] {
      StepKeepsInv(s, start, es[0]);
      RunKeepsInv(Step(s, es[0]), start, es[1..]);
    }
  }

  /** The reader as constructed, about to hand out its first heights. */
  function Fresh(parallelism: nat, start: nat, last: nat): State {
    State(seq(parallelism, _ => None), seq(parallelism, _ => Idle), start, start,
          Filling(last, start + parallelism, false), false, [])
  }

  lemma {:induction false} NothingBusy(ws: seq<Worker>)
    requires forall w :: 0 <= w < |ws| ==> ws[w].Idle?
    ensures BusyCount(ws) == 0
  {
    if ws != [] {
      NothingBusy(ws[..|ws| - 1]);
    }
  }

  lemma {:induction false} NothingFull(slots: seq<Option<Block>>)
    requires forall i :: 0 <= i < |slots| ==> slots[i].None?
    ensures FullCount(slots) == 0
  {
    if slots != [] {
      NothingFull(slots[..|slots| - 1]);
    }
  }

  lemma FreshInv(parallelism: nat, start: nat, last: nat)
    requires 0 < parallelism
    ensures Inv(Fresh(parallelism, start, last), start)
  {
    var s := Fresh(parallelism, start, last);
    NothingBusy(s.workers);
    NothingFull(s.slots);
  }

  /** For every interleaving, with cancelled waits and a stop at any time: the
      blocks returned have heights start, start+1, and so on, without gap or
      repeat, and a delivered block finds its slot empty; until the iterator is
      closed, whenever the reader wants to hand out a height some worker is
      idle, and while the consumer waits, its next block is in the ring or with
      a worker. */
  lemma ReaderIsSound(parallelism: nat, start: nat, last: nat, es: seq<Event>)
    requires 0 < parallelism && LegalRun(Fresh(parallelism, start, last), es)
    ensures var s := Run(Fresh(parallelism, start, last), es);
            && 0 < |s.slots|
            && s.nextRead == start + |s.yielded|
            && (forall i :: 0 <= i < |s.yielded| ==> s.yielded[i].Number() == start + i)
            && (forall w: nat :: Enabled(s, Receive(w)) && s.workers[w].result.Some? ==>
                  s.slots[SlotOf(s, s.workers[w].result.value.Number())].None?)
            && (Wants(s) && !s.closed ==> exists w: nat :: Enabled(s, Give(w)))
            && (s.phase.Waiting? && !s.closed ==> InSlot(s, s.nextRead) || AtWorker(s, s.nextRead))
  {
    FreshInv(parallelism, start, last);
    RunKeepsInv(Fresh(parallelism, start, last), start, es);
    var s := Run(Fresh(parallelism, start, last), es);
    forall w: nat | Enabled(s, Receive(w)) && s.workers[w].result.Some?
      ensures s.slots[SlotOf(s, s.workers[w].result.value.Number())].None?
    {
      ReceiveFindsRoom(s, start, w);
    }
    if Wants(s) && !s.closed {
      IdleAvailable(s, start);
      var w: nat :| w < |s.workers| && s.workers[w].Idle?;
      assert Enabled(s, Give(w));
    }
    if s.phase.Waiting? && !s.closed {
      assert Outstanding(s, s.nextRead);
    }
  }

  lemma IdleAvailable(s: State, start: nat)
    requires Inv(s, start) && Wants(s) && !s.closed
    ensures exists w :: 0 <= w < |s.workers| && s.workers[w].Idle?
  {
    var w := IdleExists(s.workers);
  }

  lemma BusyAvailable(s: State, start: nat)
    requires Inv(s, start) && s.phase.Waiting? && !s.closed && s.slots[SlotOf(s, s.nextRead)].None?
    ensures exists w :: 0 <= w < |s.workers| && !s.workers[w].Idle?
    ensures 0 < BusyCount(s.workers)
  {
    assert Outstanding(s, s.nextRead);
    var w :| 0 <= w < |s.workers| && !s.workers[w].Idle?;
    BusyUpdate(s.workers, w, Idle);
  }

  // ---------- The iterator object ----------

  datatype Error =
    | NoMoreBlocks
    | MissingBlock
    | ContextDone
    | IteratorClosed

  class BlockChainIterator {
    const blocks: array<Option<Block>>
    var workers: seq<Worker>
    var nextRead: nat
    var nextToRead: nat
    var closed: bool
    ghost const start: nat
    ghost var phase: Phase
    ghost var yielded: seq<Block>

    ghost function St(): State
      reads this, blocks
    {
      State(blocks[..], workers, nextRead, nextToRead, phase, closed, yielded)
    }

    ghost predicate Valid()
      reads this, blocks
    {
      Inv(St(), start) && phase == Outside
    }

    constructor (first: nat, parallelism: nat, last: nat)
      requires 0 < parallelism
      ensures Valid() && fresh(blocks) && start == first && nextRead == first && yielded == [] && !closed
    {
      blocks := new Option<Block>[parallelism](_ => None);
      workers := seq(parallelism, _ => Idle);
      nextRead, nextToRead := first, first;
      closed := false;
      start := first;
      phase := Filling(last, first + parallelism, false);
      yielded := [];
      new;
      assert St() == Fresh(parallelism, first, last);
      FreshInv(parallelism, first, last);
      PopulateReaders(last);
      StepKeepsInv(St(), start, Filled);
      phase := Outside;
    }

    /** Hand out heights while the window and the accepted chain allow and the
        iterator is open; the worker that takes each height is arbitrary. */
    method PopulateReaders(last: nat)
      requires Inv(St(), start) && phase.Filling? && phase.last == last
      modifies this`workers, this`nextToRead
      ensures Inv(St(), start) && Enabled(St(), Filled)
      ensures closed ==> workers == old(workers) && nextToRead == old(nextToRead)
      ensures !closed ==>
                var end := if last + 1 < nextRead + blocks.Length then last + 1 else nextRead + blocks.Length;
                nextToRead == if old(nextToRead) < end then end else old(nextToRead)
    {
      var maxHeightToRead := nextRead + blocks.Length;
      while nextToRead <= last && nextToRead < maxHeightToRead
        invariant Inv(St(), start) && maxHeightToRead == phase.limit
        invariant nextToRead == old(nextToRead) ||
                  (old(nextToRead) < nextToRead <= last + 1 && nextToRead <= maxHeightToRead)
        invariant closed ==> workers == old(workers) && nextToRead == old(nextToRead)
        decreases maxHeightToRead - nextToRead
      {
        if closed {
          return;
        }
        IdleAvailable(St(), start);
        var w :| 0 <= w < |workers| && workers[w].Idle?;
        GiveTo(w);
      }
    }

    method GiveTo(w: nat)
      requires Inv(St(), start) && Enabled(St(), Give(w))
      modifies this`workers, this`nextToRead
      ensures Inv(St(), start) && nextToRead == old(nextToRead) + 1
    {
      GiveKeepsInv(St(), start, w);
      workers := workers[w := Reading(nextToRead)];
      nextToRead := nextToRead + 1;
    }

    /** Return the next block in height order, whichever worker delivers
        first and whatever the reads find; [patience] is how many deliveries
        the context lasts. */
    method Next(last: nat, patience: nat) returns (err: Option<Error>, block: Option<Block>)
      requires Valid()
      modifies this, blocks
      ensures Valid()
      ensures err == Some(NoMoreBlocks) <==> last < old(nextRead)
      ensures err == Some(IteratorClosed) ==> old(closed)
      ensures err == Some(MissingBlock) ==> closed
      ensures old(nextRead) <= last && old(blocks[nextRead % blocks.Length]).Some? ==> err.None?
      ensures |old(workers)| <= patience ==> err != Some(ContextDone)
      ensures err.None? <==> block.Some?
      ensures err.None? ==>
                && block.value.Number() == old(nextRead) && nextRead == old(nextRead) + 1
                && yielded == old(yielded) + [block.value]
      ensures err.Some? ==> yielded == old(yielded) && nextRead == old(nextRead)
    {
      SlotInBounds(St(), start);
      hide Inv;
      if nextRead > last {
        return Some(NoMoreBlocks), None;
      }
      EnterNext(last);
      err := AwaitNext(last, patience);
      if err.Some? {
        return err, None;
      }
      var b := TakeNext(last);
      LeaveNext(last);
      return None, Some(b);
    }

    method EnterNext(last: nat)
      requires Inv(St(), start) && phase == Outside && nextRead <= last
      modifies this`workers, this`nextToRead, this`phase
      ensures Inv(St(), start) && phase == Waiting(last)
    {
      BeginFilling(last);
      PopulateReaders(last);
      StepKeepsInv(St(), start, Filled);
      ghost var filled := Step(St(), Filled);
      phase := Waiting(last);
      assert St() == filled;
    }

    method BeginFilling(last: nat)
      requires Inv(St(), start) && phase == Outside && nextRead <= last
      modifies this`phase
      ensures Inv(St(), start) && phase == Filling(last, nextRead + blocks.Length, true)
    {
      StepKeepsInv(St(), start, Call(last));
      ghost var entered := Step(St(), Call(last));
      phase := Filling(last, nextRead + blocks.Length, true);
      assert St() == entered;
    }

    method LeaveNext(last: nat)
      requires Inv(St(), start) && phase.Filling? && phase.last == last && !phase.waits
      modifies this`workers, this`nextToRead, this`phase
      ensures Inv(St(), start) && phase == Outside
    {
      PopulateReaders(last);
      StepKeepsInv(St(), start, Filled);
      phase := Outside;
    }

    /** Receive results until the next block is in its slot, the context is done
        or the iterator is closed. */
    method AwaitNext(last: nat, patience: nat) returns (err: Option<Error>)
      requires Inv(St(), start) && phase == Waiting(last)
      modifies this`workers, this`phase, this`closed, blocks
      ensures Inv(St(), start)
      ensures err != Some(NoMoreBlocks)
      ensures if err.None? then phase == Waiting(last) && Enabled(St(), Take) else phase == Outside
      ensures err == Some(IteratorClosed) ==> old(closed)
      ensures err == Some(MissingBlock) ==> closed
      ensures old(blocks[nextRead % blocks.Length]).Some? ==> err.None?
      ensures |old(workers)| <= patience ==> err != Some(ContextDone)
    {
      SlotInBounds(St(), start);
      hide BusyCount, Inv;
      var nextIndex, left := nextRead % blocks.Length, patience;
      while blocks[nextIndex].None?
        invariant Inv(St(), start) && phase == Waiting(last) && closed == old(closed)
        invariant old(blocks[nextIndex]).Some? ==> blocks[nextIndex] == old(blocks[nextIndex])
        invariant |old(workers)| <= patience ==> BusyCount(workers) <= left
        decreases BusyCount(workers)
      {
        if !closed {
          BusyAvailable(St(), start);
        }
        if closed || left == 0 {
          StepKeepsInv(St(), start, Leave);
          phase := Outside;
          return Some(if closed then IteratorClosed else ContextDone);
        }
        var w :| 0 <= w < |workers| && !workers[w].Idle?;
        ReadBlock(w);
        var ok := ReceiveFrom(w);
        if !ok {
          return Some(MissingBlock);
        }
        left := left - 1;
      }
      err := None;
    }

    /** Close the iterator and wait until every worker has exited. */
    method StopReaders()
      requires Inv(St(), start)
      modifies this`workers, this`closed
      ensures Inv(St(), start) && closed
      ensures |workers| == |old(workers)| && forall w :: 0 <= w < |workers| ==> workers[w].Idle?
    {
      StepKeepsInv(St(), start, Event.Stop);
      closed := true;
      hide Inv;
      var w := 0;
      while w < |workers|
        invariant Inv(St(), start) && 0 <= w <= |workers| == |old(workers)| && closed
        invariant forall v :: 0 <= v < w ==> workers[v].Idle?
      {
        ExitWorker(w);
        w := w + 1;
      }
    }

    method ExitWorker(w: nat)
      requires Inv(St(), start) && closed && w < |workers|
      modifies this`workers
      ensures Inv(St(), start) && workers == old(workers)[w := Idle]
    {
      ExitKeepsInv(St(), start, w);
      workers := workers[w := Idle];
    }

    method TakeNext(last: nat) returns (b: Block)
      requires Inv(St(), start) && phase == Waiting(last) && Enabled(St(), Take)
      modifies this`nextRead, this`phase, this`yielded, blocks
      ensures Inv(St(), start) && phase == Filling(last, nextRead + blocks.Length, false)
      ensures b.Number() == old(nextRead) && nextRead == old(nextRead) + 1 && yielded == old(yielded) + [b]
    {
      TakeKeepsInv(St(), start);
      ghost var taken := Step(St(), Take);
      var nextIndex := nextRead % blocks.Length;
      b := blocks[nextIndex].value;
      blocks[nextIndex] := None;
      yielded := yielded + [b];
      nextRead := nextRead + 1;
      phase := Filling(last, nextRead + blocks.Length, false);
      assert St() == taken;
    }

    /** A worker reads the block of its height; it may be missing. */
    method ReadBlock(w: nat)
      requires Inv(St(), start) && w < |workers| && !workers[w].Idle?
      modifies this`workers
      ensures Inv(St(), start) && w < |workers| && workers[w].Offering?
      ensures BusyCount(workers) == BusyCount(old(workers))
    {
      if workers[w].Reading? {
        var h := workers[w].height;
        var found: Block := *;
        var result := if found.Number() == h then Some(found) else None;
        FetchKeepsInv(St(), start, w, result);
        BusyUpdate(workers, w, Offering(h, result));
        workers := workers[w := Offering(h, result)];
      }
    }

    /** Take a worker's result into its slot; a missing block closes. */
    method ReceiveFrom(w: nat) returns (ok: bool)
      requires Inv(St(), start) && Enabled(St(), Receive(w)) && !closed
      modifies this`workers, this`phase, this`closed, blocks
      ensures Inv(St(), start) && ok == !closed
      ensures phase == if ok then old(phase) else Outside
      ensures ok ==> BusyCount(workers) < BusyCount(old(workers))
    {
      ReceiveKeepsInv(St(), start, w);
      BusyUpdate(workers, w, Idle);
      ghost var next := Step(St(), Receive(w));
      var result := workers[w].result;
      workers := workers[w := Idle];
      if result.None? {
        closed := true;
        phase := Outside;
        assert St() == next;
        StopReaders();
        ok := false;
      } else {
        var index := result.value.Number() % blocks.Length;
        blocks[index] := result;
        ok := true;
        assert St() == next;
      }
    }
  }

  lemma SlotInBounds(s: State, start: nat)
    requires Inv(s, start)
    ensures 0 < |s.slots|
  {
  }
}
