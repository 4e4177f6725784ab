/** Outbound requests: the handler table, the semaphore of active requests, and
    the notification of handlers. */
module Requests {
  import opened BlockTree

  type Uint32 = n: nat | n < 0x1_0000_0000

  /** Registered requests are numbered in order.  The table maps an id to the
      request waiting under it.  A caller is sending between acquiring a slot
      and registering or giving up.  A responder that took a request first owes
      the release of its slot and then the notification of its handler, of a
      response or of a failure.  IdOf records the id each request was sent
      under, told what its handler was notified of, taken what it was taken
      for, and dropped counts the requests a shutdown cleared. */
  datatype State = State(idGen: Uint32,
                         outstanding: map<nat, nat>,
                         held: nat,
                         capacity: nat,
                         closed: bool,
                         registered: nat,
                         sending: nat,
                         toRelease: map<nat, bool>,
                         toNotify: map<nat, bool>,
                         idOf: map<nat, nat>,
                         told: map<nat, seq<bool>>,
                         taken: map<nat, bool>,
                         dropped: nat)

  /** How a send ends under the lock. */
  datatype Attempt =
    | Sent
    | SendFailed
    | Cancelled
    | NoPeer

  datatype Event =
    | Acquire
    | Send(attempt: Attempt)
    | Fulfil(id: nat, ok: bool)
    | Release(request: nat)
    | Notify(request: nat)
    | Shutdown

  /** The request is in the table. */
  ghost predicate Waits(m: map<nat, nat>, idOf: map<nat, nat>, r: nat) {
    r in idOf && idOf[r] in m && m[idOf[r]] == r
  }

  // ---------- Steps ----------

  /** The 32-bit counter moves on by two and wraps around. */
  function NextId(idGen: Uint32): (id: Uint32)
    ensures Even(idGen) ==> Even(id)
    ensures id == (idGen + 2) % 0x1_0000_0000
  {
    if idGen < 0xFFFF_FFFE then idGen + 2 else idGen - 0xFFFF_FFFE
  }

  predicate Even(id: nat) {
    id % 2 == 0
  }

  /** What the locks, the semaphore and the callers allow; an id handed out is
      not still outstanding from 2^31 requests before. */
  ghost predicate Enabled(s: State, e: Event) {
    match e
    case Acquire => s.held < s.capacity
    case Send(attempt) =>
      s.sending > 0 && (!s.closed && (attempt.Sent? || attempt.SendFailed?) ==> s.idGen !in s.outstanding)
    case Fulfil(_, _) => true
    case Release(r) => r in s.toRelease
    case Notify(r) => r in s.toNotify
    case Shutdown => true
  }

  ghost predicate CanStep(s: State, e: Event) {
    match e
    case Send(_) => 0 < s.held && 0 < s.sending
    case Release(r) => 0 < s.held && r in s.toRelease
    case Notify(r) => r in s.toNotify && r in s.told
    case _ => true
  }

  function Register(s: State): State
    requires 0 < s.sending
  {
    s.(sending := s.sending - 1,
    idGen := NextId(s.idGen),
    outstanding := s.outstanding[s.idGen := s.registered],
    registered := s.registered + 1,
    idOf := s.idOf[s.registered := s.idGen],
    told := s.told[s.registered := []])
  }

  function Give(s: State): State
    requires 0 < s.held && 0 < s.sending
  {
    s.(sending := s.sending - 1, held := s.held - 1)
  }

  /** A failed send registers, then gives the slot and the entry back. */
  function Undo(s: State): State
    requires 0 < s.held && 0 < s.sending
  {
    Give(s).(idGen := NextId(s.idGen), outstanding := s.outstanding - {s.idGen})
  }

  function Take(s: State, id: nat, ok: bool): State {
    if id !in s.outstanding then s
    else
      var r := s.outstanding[id];
      s.(outstanding := s.outstanding - {id}, toRelease := s.toRelease[r := ok], taken := s.taken[r := ok])
  }

  ghost function Failed(told: map<nat, seq<bool>>, m: map<nat, nat>, idOf: map<nat, nat>): map<nat, seq<bool>> {
    map r | r in told :: if Waits(m, idOf, r) then told[r] + [false] else told[r]
  }

  ghost function Step(s: State, e: Event): State
    requires CanStep(s, e)
  {
    match e
    case Acquire => s.(held := s.held + 1, sending := s.sending + 1)
    case Send(attempt) =>
      if s.closed || attempt.Cancelled? || attempt.NoPeer? then Give(s)
      else if attempt.SendFailed? then Undo(s)
      else Register(s)
    case Fulfil(id, ok) => Take(s, id, ok)
    case Release(r) =>
      s.(held := s.held - 1, toRelease := s.toRelease - {r}, toNotify := s.toNotify[r := s.toRelease[r]])
    case Notify(r) =>
      s.(toNotify := s.toNotify - {r}, told := s.told[r := s.told[r] + [s.toNotify[r]]])
    case Shutdown =>
      s.(outstanding := map[],
      told := Failed(s.told, s.outstanding, s.idOf),
      dropped := s.dropped + |s.outstanding|,
      closed := true)
  }

  // ---------- Accounting ----------

  /** Each held slot belongs to a registered request, a caller in transit, or a
      request dropped by a shutdown. */
  ghost predicate SlotsBalance(s: State) {
    && s.held == |s.outstanding| + s.sending + |s.toRelease| + s.dropped
    && s.held <= s.capacity
    && (!s.closed ==> s.dropped == 0)
  }

  ghost predicate IdsOk(s: State) {
    && Even(s.idGen)
    && (forall id :: id in s.outstanding ==> Even(id))
    && (s.closed ==> s.outstanding == map[])
  }

  /** A request is in at most one place, and its handler has been told nothing
      while the request is pending, and afterwards exactly one thing: what the
      request was taken for, or the failure of a shutdown. */
  ghost predicate RequestOk(s: State, r: nat)
    requires r in s.told
  {
    if Waits(s.outstanding, s.idOf, r) then
      r !in s.taken && r !in s.toRelease && r !in s.toNotify && s.told[r] == []
    else if r !in s.taken then
      s.closed && r !in s.toRelease && r !in s.toNotify && s.told[r] == [false]
    else if r in s.toRelease then
      r !in s.toNotify && s.toRelease[r] == s.taken[r] && s.told[r] == []
    else if r in s.toNotify then
      s.toNotify[r] == s.taken[r] && s.told[r] == []
    else s.told[r] == [s.taken[r]]
  }

  /** The table holds a registered request under the id it was sent under. */
  ghost predicate Filed(s: State, id: nat)
    requires id in s.outstanding
  {
    var r := s.outstanding[id];
    r in s.told && r in s.idOf && s.idOf[r] == id
  }

  ghost predicate RequestsOk(s: State) {
    && (forall r: nat :: r in s.told <==> r < s.registered)
    && (forall r {:trigger RequestOk(s, r)} :: r in s.told ==> RequestOk(s, r))
    && (forall id {:trigger Filed(s, id)} :: id in s.outstanding ==> Filed(s, id))
    && s.idOf.Keys == s.told.Keys
    && s.toRelease.Keys <= s.told.Keys
    && s.toNotify.Keys <= s.told.Keys
    && s.taken.Keys <= s.told.Keys
  }

  ghost predicate Inv(s: State) {
    SlotsBalance(s) && IdsOk(s) && RequestsOk(s)
  }

  lemma RemoveSize<T>(m: map<nat, T>, k: nat)
    requires k in m
    ensures |m - {k}| == |m| - 1
  {
  }

  lemma AddSize<T>(m: map<nat, T>, k: nat, v: T)
    requires k !in m
    ensures |m[k := v]| == |m| + 1
  {
  }

  lemma RegisterStep(s: State)
    requires Inv(s) && 0 < s.sending && !s.closed && s.idGen !in s.outstanding
    ensures Inv(Register(s))
  {
    var t := Register(s);
    AddSize(s.outstanding, s.idGen, s.registered);
    RegisterKeepsRequests(s);
    assert t.held == s.held;
  }

  lemma RegisterKeepsRequests(s: State)
    requires RequestsOk(s) && 0 < s.sending && s.idGen !in s.outstanding
    ensures RequestsOk(Register(s))
  {
    var t := Register(s);
    assert s.registered !in s.told;
    forall r | r in t.told
      ensures RequestOk(t, r)
    {
      if r != s.registered {
        assert RequestOk(s, r);
      }
    }
    forall id | id in t.outstanding
      ensures Filed(t, id)
    {
      if id != s.idGen {
        assert Filed(s, id);
      }
    }
  }

  lemma TakeStep(s: State, id: nat, ok: bool)
    requires Inv(s) && id in s.outstanding
    ensures Inv(Take(s, id, ok))
  {
    var t := Take(s, id, ok);
    var q := s.outstanding[id];
    assert Filed(s, id) && RequestOk(s, q);
    RemoveSize(s.outstanding, id);
    AddSize(s.toRelease, q, ok);
    forall r | r in t.told
      ensures RequestOk(t, r)
    {
      assert RequestOk(s, r);
    }
    forall j | j in t.outstanding
      ensures Filed(t, j)
    {
      assert Filed(s, j);
    }
  }

  lemma ReleaseStep(s: State, r: nat)
    requires Inv(s) && r in s.toRelease
    ensures CanStep(s, Release(r)) && Inv(Step(s, Release(r)))
  {
    RemoveSize(s.toRelease, r);
    assert RequestOk(s, r);
    SameTable(s, Step(s, Release(r)));
  }

  lemma NotifyStep(s: State, r: nat)
    requires Inv(s) && r in s.toNotify
    ensures CanStep(s, Notify(r)) && Inv(Step(s, Notify(r)))
  {
    assert RequestOk(s, r);
    SameTable(s, Step(s, Notify(r)));
  }

  lemma ShutdownStep(s: State)
    requires Inv(s)
    ensures Inv(Step(s, Shutdown))
  {
    SameTable(s, Step(s, Shutdown));
  }

  lemma GiveStep(s: State, attempt: Attempt)
    requires Inv(s) && Enabled(s, Send(attempt)) && (s.closed || !attempt.Sent?)
    ensures CanStep(s, Send(attempt)) && Inv(Step(s, Send(attempt)))
  {
    if !s.closed && attempt.SendFailed? {
      UndoKeepsInv(s);
    } else {
      GiveKeepsInv(s);
    }
  }

  lemma UndoKeepsInv(s: State)
    requires Inv(s) && 0 < s.sending && s.idGen !in s.outstanding
    ensures 0 < s.held && Inv(Undo(s))
  {
    hide RequestsOk;
    assert s.outstanding - {s.idGen} == s.outstanding;
    hide IdsOk;
    UndoKeepsIds(s);
    SameRequests(s, Undo(s));
  }

  lemma UndoKeepsIds(s: State)
    requires IdsOk(s) && 0 < s.held && 0 < s.sending
    ensures IdsOk(Undo(s))
  {
  }

  lemma GiveKeepsInv(s: State)
    requires Inv(s) && 0 < s.sending
    ensures 0 < s.held && Inv(Give(s))
  {
    hide RequestsOk;
    SameRequests(s, Give(s));
  }

  /** The order of the requests does not depend on the slots or the counter. */
  lemma SameRequests(s: State, t: State)
    requires RequestsOk(s)
    requires t == s.(idGen := t.idGen, held := t.held, sending := t.sending)
    ensures RequestsOk(t)
  {
    SameTable(s, t);
  }

  /** A step that at most empties the table keeps the requests in order if it
      keeps each of them in order. */
  lemma SameTable(s: State, t: State)
    requires RequestsOk(s)
    requires t.outstanding == s.outstanding || t.outstanding == map[]
    requires t.idOf == s.idOf && t.taken == s.taken && t.registered == s.registered
    requires t.told.Keys == s.told.Keys
    requires t.toRelease.Keys <= s.told.Keys && t.toNotify.Keys <= s.told.Keys
    requires forall r {:trigger RequestOk(t, r)} :: r in s.told && RequestOk(s, r) ==> RequestOk(t, r)
    ensures RequestsOk(t)
  {
    forall r | r in t.told
      ensures RequestOk(t, r)
    {
      assert RequestOk(s, r);
    }
    forall id | id in t.outstanding
      ensures Filed(t, id)
    {
      assert Filed(s, id);
    }
  }

  lemma AcquireStep(s: State)
    requires Inv(s) && s.held < s.capacity
    ensures Inv(Step(s, Acquire))
  {
    hide RequestsOk;
    SameRequests(s, Step(s, Acquire));
  }

  /** Every enabled step can be taken and keeps the accounts; in particular no
      release exceeds the slots held. */
  lemma StepKeepsInv(s: State, e: Event)
    requires Inv(s) && Enabled(s, e)
    ensures CanStep(s, e) && Inv(Step(s, e))
  {
    hide RequestsOk;
    match e
    case Acquire => AcquireStep(s);
    case Send(attempt) =>
      if !s.closed && attempt.Sent? {
        RegisterStep(s);
      } else {
        GiveStep(s, attempt);
      }
    case Fulfil(id, ok) =>
      if id in s.outstanding {
        TakeStep(s, id, ok);
      }
    case Release(r) => ReleaseStep(s, r);
    case Notify(r) => NotifyStep(s, r);
    case Shutdown => ShutdownStep(s);
  }

  /** Reusing an id that is still outstanding loses the older request: the
      accounts survive a registration exactly when the id is free. */
  lemma RegistrationNeedsFreeId(s: State)
    requires Inv(s) && !s.closed && 0 < s.sending
    ensures Inv(Register(s)) <==> s.idGen !in s.outstanding
  {
    if s.idGen !in s.outstanding {
      RegisterStep(s);
    } else {
      assert Register(s).outstanding.Keys == s.outstanding.Keys;
      assert |Register(s).outstanding| == |s.outstanding|;
    }
  }

  // ---------- Runs ----------

  ghost function Next(s: State, e: Event): (t: State)
    requires Inv(s) && Enabled(s, e)
    ensures Inv(t)
  {
    StepKeepsInv(s, e);
    Step(s, e)
  }

  ghost predicate LegalRun(s: State, es: seq<Event>)
    requires Inv(s)
    decreases |es|
  {
    es != [] ==> Enabled(s, es[0]) && LegalRun(Next(s, es[0]), es[1..])
  }

  ghost function Run(s: State, es: seq<Event>): (t: State)
    requires Inv(s) && LegalRun(s, es)
    ensures Inv(t)
    decreases |es|
  {
    if es == [] then s else Run(Next(s, es[0]), es[1..])
  }

  ghost function Fresh(capacity: nat): (s: State)
    ensures Inv(s)
  {
    State(0, map[], 0, capacity, false, 0, 0, map[], map[], map[], map[], map[], 0)
  }

  /** Notifications are never taken back: what a handler was told stays told,
      in order, and what a request was taken for stays so. */
  lemma {:induction false} ToldGrows(s: State, es: seq<Event>, r: nat)
    requires Inv(s) && LegalRun(s, es) && r in s.told
    ensures r in Run(s, es).told && s.told[r] <= Run(s, es).told[r]
    ensures r in s.taken ==> r in Run(s, es).taken && Run(s, es).taken[r] == s.taken[r]
    decreases |es|
  {
    if es != [] {
      StepTells(s, es[0], r);
      ToldGrows(Next(s, es[0]), es[1..], r);
    }
  }

  lemma StepTells(s: State, e: Event, r: nat)
    requires Inv(s) && Enabled(s, e) && r in s.told
    ensures r in Next(s, e).told && s.told[r] <= Next(s, e).told[r]
    ensures r in s.taken ==> r in Next(s, e).taken && Next(s, e).taken[r] == s.taken[r]
  {
    if e.Fulfil? && e.id in s.outstanding {
      TakenAnew(s, e.id);
    }
    StepAppends(s, e, r);
  }

  lemma StepAppends(s: State, e: Event, r: nat)
    requires CanStep(s, e) && r in s.told && s.registered !in s.told
    requires e.Fulfil? && e.id in s.outstanding ==> s.outstanding[e.id] !in s.taken
    ensures r in Step(s, e).told && s.told[r] <= Step(s, e).told[r]
    ensures r in s.taken ==> r in Step(s, e).taken && Step(s, e).taken[r] == s.taken[r]
  {
    match e
    case Acquire =>
    case Send(_) =>
    case Fulfil(_, _) =>
    case Release(_) =>
    case Notify(_) =>
    case Shutdown =>
  }

  lemma TakenAnew(s: State, id: nat)
    requires RequestsOk(s) && id in s.outstanding
    ensures s.outstanding[id] !in s.taken
  {
    assert Filed(s, id) && RequestOk(s, s.outstanding[id]);
  }

  /** Once closed, a network stays closed and registers nothing more. */
  lemma {:induction false} ClosedForGood(s: State, es: seq<Event>)
    requires Inv(s) && LegalRun(s, es) && s.closed
    ensures Run(s, es).closed && Run(s, es).registered == s.registered
    decreases |es|
  {
    if es != [] {
      ClosedForGood(Next(s, es[0]), es[1..]);
    }
  }

  /** Over every interleaving from startup, the handler of each registered
      request has been notified at most once, and only of what its request was
      taken for or of a shutdown; after a shutdown it has been notified exactly
      once, unless the responder that took it has yet to do so. */
  lemma HandlersNotifiedOnce(capacity: nat, es: seq<Event>, r: nat)
    requires LegalRun(Fresh(capacity), es)
    requires r < Run(Fresh(capacity), es).registered
    ensures var s := Run(Fresh(capacity), es);
            && r in s.told
            && |s.told[r]| <= 1
            && (s.told[r] != [] ==> s.told[r] == [r in s.taken && s.taken[r]])
            && (s.closed && r !in s.toRelease && r !in s.toNotify ==> |s.told[r]| == 1)
            && (!s.closed ==> (|s.told[r]| == 0 <==>
                               Waits(s.outstanding, s.idOf, r) || r in s.toRelease || r in s.toNotify))
  {
    var s := Run(Fresh(capacity), es);
    assert r in s.told && RequestOk(s, r);
    assert s.closed ==> !Waits(s.outstanding, s.idOf, r);
  }

  /** Over every interleaving from startup, before shutdown the held slots are
      the registered requests plus the callers in transit, afterwards the slots
      of the dropped requests stay held, and all ids are even. */
  lemma {:induction false} SlotsAccounted(capacity: nat, es: seq<Event>)
    requires LegalRun(Fresh(capacity), es)
    ensures var s := Run(Fresh(capacity), es);
            && (!s.closed ==> s.held == |s.outstanding| + s.sending + |s.toRelease|)
            && (s.closed ==> s.held == s.sending + |s.toRelease| + s.dropped)
            && s.held <= s.capacity
            && (forall id :: id in s.outstanding ==> Even(id))
  {
  }

  /** A responder that took a request can release its slot and notify its
      handler, which has not been notified before. */
  lemma DeliverySteps(s: State, id: nat, ok: bool)
    requires Inv(s) && id in s.outstanding
    ensures var r, t := s.outstanding[id], Take(s, id, ok);
            && r in s.told && s.told[r] == []
            && CanStep(t, Release(r))
            && CanStep(Step(t, Release(r)), Notify(r))
  {
    TakeStep(s, id, ok);
    ReleaseStep(Take(s, id, ok), s.outstanding[id]);
    assert Filed(s, id) && RequestOk(s, s.outstanding[id]);
  }

  ghost predicate TableFiled(m: map<nat, nat>, idOf: map<nat, nat>, told: map<nat, seq<bool>>) {
    forall id :: id in m ==> m[id] in told && m[id] in idOf && idOf[m[id]] == id
  }

  /** Failing the request under one id leaves the rest of the table to fail. */
  lemma FailOneOf(told: map<nat, seq<bool>>, m: map<nat, nat>, idOf: map<nat, nat>, id: nat)
    requires TableFiled(m, idOf, told) && id in m
    ensures var next := told[m[id] := told[m[id]] + [false]];
            TableFiled(m - {id}, idOf, next) && Failed(next, m - {id}, idOf) == Failed(told, m, idOf)
  {
  }

  /** A shutdown fails exactly the waiting requests. */
  lemma ShutdownFails(s: State)
    requires Inv(s)
    ensures var t := Step(s, Shutdown);
            && t.told.Keys == s.told.Keys
            && (forall id :: id in s.outstanding ==>
                  s.outstanding[id] in t.told && t.told[s.outstanding[id]] == [false])
            && (forall r :: r in t.told && r !in s.outstanding.Values ==> t.told[r] == s.told[r])
  {
    forall id | id in s.outstanding
      ensures s.outstanding[id] in s.told && s.told[s.outstanding[id]] == [] && Waits(s.outstanding, s.idOf, s.outstanding[id])
    {
      assert Filed(s, id) && RequestOk(s, s.outstanding[id]);
    }
    assert forall r :: Waits(s.outstanding, s.idOf, r) ==> r in s.outstanding.Values;
  }

  // ---------- Ids ----------

  /** The id handed out after k others. */
  function IdAfter(id: Uint32, k: nat): Uint32 {
    if k == 0 then id else NextId(IdAfter(id, k - 1))
  }

  lemma {:induction false} IdAfterIs(id: Uint32, k: nat)
    ensures IdAfter(id, k) == (id + 2 * k) % 0x1_0000_0000
  {
    if k > 0 {
      IdAfterIs(id, k - 1);
    }
  }

  /** Ids repeat after 2^31 requests and not before. */
  lemma IdsRepeat(id: Uint32, j: nat, k: nat)
    requires j < k <= j + 0x8000_0000
    ensures IdAfter(id, j) == IdAfter(id, k) <==> k == j + 0x8000_0000
  {
    IdAfterIs(id, j);
    IdAfterIs(id, k);
  }

  /** At most n ids have been handed out, the even numbers from zero. */
  ghost predicate IdsBelow(s: State, n: nat) {
    s.idGen <= 2 * n && forall id :: id in s.outstanding ==> id < s.idGen
  }

  /** In a run of fewer than 2^31 events the next id is always free, so that
      requirement on a send only matters after that many. */
  lemma {:induction false} FirstIdsFree(s: State, es: seq<Event>, n: nat)
    requires Inv(s) && LegalRun(s, es) && IdsBelow(s, n) && n + |es| < 0x8000_0000
    ensures IdsBelow(Run(s, es), n + |es|) && Run(s, es).idGen !in Run(s, es).outstanding
    decreases |es|
  {
    if es != [] {
      StepKeepsInv(s, es[0]);
      StepIds(s, es[0], n);
      hide IdsBelow, Inv, Step;
      FirstIdsFree(Next(s, es[0]), es[1..], n + 1);
    }
  }

  lemma StepIds(s: State, e: Event, n: nat)
    requires CanStep(s, e) && IdsBelow(s, n) && n + 1 < 0x8000_0000
    ensures IdsBelow(Step(s, e), n + 1)
  {
    var t := Step(s, e);
    match e
    case Send(_) =>
      assert t.idGen == s.idGen + 2 || t == Give(s);
    case Fulfil(_, _) =>
      assert t.idGen == s.idGen;
    case _ =>
  }

  // ---------- The network object ----------

  class Network {
    var idGen: Uint32
    var outstanding: map<nat, nat>
    var held: nat
    const capacity: nat
    var closed: bool
    var registered: nat
    ghost var sending: nat
    ghost var toRelease: map<nat, bool>
    ghost var toNotify: map<nat, bool>
    ghost var idOf: map<nat, nat>
    ghost var told: map<nat, seq<bool>>
    ghost var taken: map<nat, bool>
    ghost var dropped: nat

    ghost function St(): State
      reads this
    {
      State(idGen, outstanding, held, capacity, closed, registered, sending, toRelease, toNotify,
            idOf, told, taken, dropped)
    }

    constructor (maxActive: nat)
      ensures St() == Fresh(maxActive)
    {
      idGen, outstanding, held, capacity, closed := 0, map[], 0, maxActive, false;
      registered, sending, dropped := 0, 0, 0;
      toRelease, toNotify, idOf, told, taken := map[], map[], map[], map[], map[];
    }

    /** Take a slot; the caller waits until one is free. */
    method AcquireSlot()
      requires held < capacity
      modifies this
      ensures St() == Step(old(St()), Acquire)
      ensures held == old(held) + 1 && outstanding == old(outstanding) && closed == old(closed) && told == old(told)
    {
      held := held + 1;
      sending := sending + 1;
    }

    /** The locked part of a send, entered with a slot; a cancelled context, a
        missing peer and a failing sender are given by the attempt. */
    method SendAppRequest(attempt: Attempt)
      requires CanStep(St(), Send(attempt))
      modifies this
      ensures St() == Step(old(St()), Send(attempt))
      ensures closed == old(closed)
      ensures old(closed) || attempt.NoPeer? || attempt.Cancelled? ==>
                && held == old(held) - 1 && outstanding == old(outstanding) && told == old(told)
                && idGen == old(idGen) && registered == old(registered)
      ensures !old(closed) && attempt.SendFailed? ==>
                && held == old(held) - 1 && outstanding == old(outstanding) - {old(idGen)} && told == old(told)
                && idGen == (old(idGen) + 2) % 0x1_0000_0000 && registered == old(registered)
      ensures !old(closed) && attempt.Sent? ==>
                && held == old(held) && outstanding == old(outstanding)[old(idGen) := old(registered)]
                && told == old(told)[old(registered) := []]
                && idGen == (old(idGen) + 2) % 0x1_0000_0000 && registered == old(registered) + 1
    {
      sending := sending - 1;
      if attempt.NoPeer? || closed || attempt.Cancelled? {
        held := held - 1;
        return;
      }
      var requestID := NextRequestID();
      outstanding := outstanding[requestID := registered];
      if attempt.SendFailed? {
        held := held - 1;
        outstanding := outstanding - {requestID};
        assert outstanding == old(outstanding) - {requestID};
        return;
      }
      idOf, told := idOf[registered := requestID], told[registered := []];
      registered := registered + 1;
    }

    method NextRequestID() returns (id: Uint32)
      modifies this`idGen
      ensures id == old(idGen) && idGen == NextId(old(idGen)) == (old(idGen) + 2) % 0x1_0000_0000
    {
      id := idGen;
      idGen := NextId(idGen);
    }

    /** Take the request under an id out of the table, if it is ours. */
    method MarkRequestFulfilled(id: nat, ghost ok: bool) returns (request: Option<nat>)
      modifies this
      ensures St() == Step(old(St()), Fulfil(id, ok))
      ensures request == if id in old(outstanding) then Some(old(outstanding)[id]) else None
      ensures outstanding == old(outstanding) - {id} && held == old(held) && told == old(told) && closed == old(closed)
    {
      if id !in outstanding {
        return None;
      }
      request := Some(outstanding[id]);
      outstanding := outstanding - {id};
      toRelease, taken := toRelease[request.value := ok], taken[request.value := ok];
    }

    /** A responder gives back the slot of the request it took. */
    method ReleaseSlot(request: nat)
      requires CanStep(St(), Release(request))
      modifies this
      ensures St() == Step(old(St()), Release(request))
      ensures held == old(held) - 1 && outstanding == old(outstanding) && told == old(told) && closed == old(closed)
    {
      held := held - 1;
      toRelease, toNotify := toRelease - {request}, toNotify[request := toRelease[request]];
    }

    /** A responder notifies the handler of the request it took, of the response
        or of the failure it brought. */
    method NotifyHandler(request: nat, ok: bool)
      requires CanStep(St(), Notify(request)) && toNotify[request] == ok
      modifies this
      ensures St() == Step(old(St()), Notify(request))
      ensures told == old(told)[request := old(told)[request] + [ok]]
      ensures held == old(held) && outstanding == old(outstanding) && closed == old(closed)
    {
      toNotify, told := toNotify - {request}, told[request := told[request] + [ok]];
    }

    /** A response or failure delivered without interference: a request of ours
        gives its slot back and has its handler notified; any other id is left
        to the other router, and nothing changes. */
    method Deliver(id: nat, ok: bool) returns (forwarded: bool)
      requires Inv(St())
      modifies this
      ensures forwarded == (id !in old(outstanding))
      ensures forwarded ==> St() == old(St())
      ensures !forwarded ==>
                && outstanding == old(outstanding) - {id}
                && held == old(held) - 1
                && old(outstanding)[id] in old(told)
                && told == old(told)[old(outstanding)[id] := [ok]]
    {
      if id in outstanding {
        DeliverySteps(St(), id, ok);
      }
      var request := MarkRequestFulfilled(id, ok);
      if request.None? {
        return true;
      }
      ReleaseSlot(request.value);
      NotifyHandler(request.value, ok);
      assert [] + [ok] == [ok];
      return false;
    }

    /** Fail every outstanding request once, and close. */
    method ShutdownNetwork()
      requires Inv(St())
      modifies this
      ensures St() == Step(old(St()), Shutdown)
      ensures closed && outstanding == map[] && held == old(held) && told.Keys == old(told).Keys
      ensures forall id :: id in old(outstanding) ==>
                             old(outstanding)[id] in told && told[old(outstanding)[id]] == [false]
      ensures forall r :: r in told && r !in old(outstanding).Values ==> told[r] == old(told)[r]
    {
      ShutdownFails(St());
      ghost var start := outstanding;
      FailAll();
      dropped := dropped + |start|;
      closed := true;
    }

    method FailAll()
      requires RequestsOk(St())
      modifies this`outstanding, this`told
      ensures outstanding == map[] && told == Failed(old(told), old(outstanding), idOf)
    {
      assert forall id :: id in outstanding ==> Filed(St(), id);
      while outstanding != map[]
        invariant TableFiled(outstanding, idOf, told)
        invariant Failed(told, outstanding, idOf) == Failed(old(told), old(outstanding), idOf)
        decreases |outstanding|
      {
        var id :| id in outstanding;
        RemoveSize(outstanding, id);
        FailOneOf(told, outstanding, idOf, id);
        told := told[outstanding[id] := told[outstanding[id]] + [false]];
        outstanding := outstanding - {id};
      }
      assert told == Failed(told, map[], idOf);
    }
  }

  // ---------- The waiting handler ----------

  /** A channel holding at most one response, and a failure flag. */
  datatype Waiting = Waiting(response: Option<seq<bv8>>, closed: bool, failed: bool)

  /** The notifications a waiting handler may get: a response or a failure. */
  type Notification = Option<seq<bv8>>

  /** None is the panic of sending on, or closing, a closed channel. */
  function Notified(w: Waiting, n: Notification): Option<Waiting> {
    if w.closed then None
    else match n
         case Some(r) => Some(Waiting(Some(r), true, w.failed))
         case None => Some(Waiting(w.response, true, true))
  }

  function NotifiedAll(w: Waiting, ns: seq<Notification>): Option<Waiting>
    decreases |ns|
  {
    if ns == [] then Some(w)
    else match Notified(w, ns[0])
         case None => None
         case Some(v) => NotifiedAll(v, ns[1..])
  }

  const NEW_WAITING := Waiting(None, false, false)

  /** A fresh waiting handler survives its notifications exactly when there is
      at most one, and then its waiter learns just that one. */
  lemma NotifiedAtMostOnce(ns: seq<Notification>)
    ensures NotifiedAll(NEW_WAITING, ns).Some? <==> |ns| <= 1
    ensures |ns| == 1 ==> NotifiedAll(NEW_WAITING, ns) == Some(Waiting(ns[0], true, ns[0].None?))
  {
  }

  /** What a wait returns. */
  datatype Outcome =
    | ContextDone
    | RequestFailed
    | Response(bytes: Option<seq<bv8>>)

  class WaitingResponseHandler {
    var response: Option<seq<bv8>>
    var closed: bool
    var failed: bool

    ghost function St(): Waiting
      reads this
    {
      Waiting(response, closed, failed)
    }

    constructor ()
      ensures St() == NEW_WAITING
    {
      response, closed, failed := None, false, false;
    }

    method OnResponse(r: seq<bv8>)
      requires !closed
      modifies this
      ensures Some(St()) == Notified(old(St()), Some(r))
      ensures closed && response == Some(r) && failed == old(failed)
    {
      response := Some(r);
      closed := true;
    }

    method OnFailure()
      requires !closed
      modifies this
      ensures Some(St()) == Notified(old(St()), None)
      ensures closed && failed && response == old(response)
    {
      failed := true;
      closed := true;
    }

    /** Waits until the context is done or the channel is ready. */
    method WaitForResult(contextDone: bool) returns (r: Outcome)
      requires contextDone || closed
      modifies this
      ensures r == if contextDone then ContextDone
                   else if failed then RequestFailed else Response(old(response))
      ensures St() == if contextDone then old(St()) else old(St()).(response := None)
    {
      if contextDone {
        return ContextDone;
      }
      var received := response;
      response := None;
      if failed {
        return RequestFailed;
      }
      return Response(received);
    }
  }
}
