/** Compatibility of a new chain configuration with the stored one. */
module ConfigCompat {
  import opened BlockTree
  import opened Upgrades

  datatype ChainConfig = ChainConfig(
    chainID: Option<nat>,
    homestead: Option<nat>,
    eip150: Option<nat>,
    eip155: Option<nat>,
    eip158: Option<nat>,
    byzantium: Option<nat>,
    constantinople: Option<nat>,
    petersburg: Option<nat>,
    istanbul: Option<nat>,
    muirGlacier: Option<nat>,
    berlin: Option<nat>,
    london: Option<nat>,
    shanghai: Option<nat>,
    cancun: Option<nat>,
    verkle: Option<nat>,
    subnetEVM: Option<nat>,
    durango: Option<nat>,
    etna: Option<nat>,
    precompiles: Upgrades.Config)

  datatype CompatError = CompatError(stored: Option<nat>, proposed: Option<nat>, rewindToBlock: nat, rewindToTime: nat)

  /** A fork cannot move once the head has passed either schedule. */
  predicate Incompatible(s1: Option<nat>, s2: Option<nat>, head: nat) {
    (Forked(s1, head) || Forked(s2, head)) && s1 != s2
  }

  function RewindPoint(stored: Option<nat>, proposed: Option<nat>): Option<nat> {
    if stored.None? then proposed
    else if proposed.None? || stored.value < proposed.value then stored
    else proposed
  }

  function Below(point: Option<nat>): nat {
    if point.Some? && point.value > 0 then point.value - 1 else 0
  }

  function BlockError(stored: Option<nat>, proposed: Option<nat>): CompatError {
    CompatError(stored, proposed, Below(RewindPoint(stored, proposed)), 0)
  }

  function TimeError(stored: Option<nat>, proposed: Option<nat>): CompatError {
    CompatError(stored, proposed, 0, Below(RewindPoint(stored, proposed)))
  }

  // ---------- Activated lists must match ----------

  /** The first difference of the activated upgrades, from index i. */
  function Conflict<T(==)>(stored: seq<T>, proposed: seq<T>, time: T -> Option<nat>, i: nat): Option<CompatError>
    requires i <= |stored|
    decreases |stored| - i
  {
    if i == |stored| then
      if |proposed| > |stored| then Some(TimeError(None, time(proposed[|stored|]))) else None
    else if |proposed| <= i then Some(TimeError(time(stored[i]), None))
    else if stored[i] != proposed[i] then Some(TimeError(time(stored[i]), time(proposed[i])))
    else Conflict(stored, proposed, time, i + 1)
  }

  lemma {:induction false} ConflictIff<T>(stored: seq<T>, proposed: seq<T>, time: T -> Option<nat>, i: nat)
    requires i <= |stored| && i <= |proposed| && stored[..i] == proposed[..i]
    ensures Conflict(stored, proposed, time, i).None? <==> stored == proposed
    decreases |stored| - i
  {
    if i < |stored| && i < |proposed| && stored[i] == proposed[i] {
      assert stored[..i + 1] == stored[..i] + [stored[i]];
      assert proposed[..i + 1] == proposed[..i] + [proposed[i]];
      ConflictIff(stored, proposed, time, i + 1);
    } else if i == |stored| && i == |proposed| {
      assert stored[..i] == stored && proposed[..i] == proposed;
    }
  }

  /** The conflict names the first position at which the lists differ. */
  lemma {:induction false} ConflictAt<T>(stored: seq<T>, proposed: seq<T>, time: T -> Option<nat>, i: nat, k: nat)
    requires i <= k <= |stored| && k <= |proposed| && stored[..k] == proposed[..k]
    requires k < |stored| || k < |proposed|
    requires k < |stored| && k < |proposed| ==> stored[k] != proposed[k]
    ensures Conflict(stored, proposed, time, i) ==
            Some(TimeError(if k < |stored| then time(stored[k]) else None,
                           if k < |proposed| then time(proposed[k]) else None))
    decreases k - i
  {
    if i < k {
      assert stored[..k][i] == proposed[..k][i];
      ConflictAt(stored, proposed, time, i + 1, k);
    }
  }

  /** When everything listed is active at the head, so is the rewind point. */
  lemma {:induction false} ConflictBelow<T>(stored: seq<T>, proposed: seq<T>, time: T -> Option<nat>, i: nat, head: nat)
    requires i <= |stored|
    requires forall j :: 0 <= j < |stored| ==> Forked(time(stored[j]), head)
    requires forall j :: 0 <= j < |proposed| ==> Forked(time(proposed[j]), head)
    ensures var e := Conflict(stored, proposed, time, i);
            e.Some? ==> IsTimeError(e.value, head)
    decreases |stored| - i
  {
    if i < |stored| && i < |proposed| && stored[i] == proposed[i] {
      ConflictBelow(stored, proposed, time, i + 1, head);
    }
  }

  function PrecompileTime(p: Precompile): Option<nat> { p.timestamp }

  function StateTime(u: StateUpgrade): Option<nat> { u.timestamp }

  /** The first module whose activated upgrades differ.  Both lists start from
      the stored genesis precompiles. */
  function PrecompileConflict(c: Upgrades.Config, proposed: seq<Precompile>, time: nat, m: nat): Option<CompatError>
    requires m <= |c.modules|
    decreases |c.modules| - m
  {
    if m == |c.modules| then None
    else
      var key := c.modules[m];
      var e := Conflict(ActivatingConfigs(c, key, None, time, c.upgrades),
                        ActivatingConfigs(c, key, None, time, proposed), PrecompileTime, 0);
      if e.Some? then e else PrecompileConflict(c, proposed, time, m + 1)
  }

  function StateConflict(c: Upgrades.Config, proposed: seq<StateUpgrade>, time: nat): Option<CompatError> {
    Conflict(ActivatingState(c.stateUpgrades, None, time), ActivatingState(proposed, None, time), StateTime, 0)
  }

  // ---------- The checks in order ----------

  function Else(a: Option<CompatError>, b: Option<CompatError>): Option<CompatError> {
    if a.Some? then a else b
  }

  /** A block rewind, strictly below the head. */
  predicate IsBlockError(e: CompatError, head: nat) {
    e.rewindToTime == 0 && (e.rewindToBlock > 0 ==> e.rewindToBlock < head)
  }

  /** A time rewind, strictly below the head. */
  predicate IsTimeError(e: CompatError, time: nat) {
    e.rewindToBlock == 0 && (e.rewindToTime > 0 ==> e.rewindToTime < time)
  }

  function BlockCheck(s1: Option<nat>, s2: Option<nat>, head: nat): (e: Option<CompatError>)
    ensures e.None? <==> !Incompatible(s1, s2, head)
    ensures e.Some? ==> IsBlockError(e.value, head)
  {
    if Incompatible(s1, s2, head) then Some(BlockError(s1, s2)) else None
  }

  function TimeCheck(s1: Option<nat>, s2: Option<nat>, time: nat): (e: Option<CompatError>)
    ensures e.None? <==> !Incompatible(s1, s2, time)
    ensures e.Some? ==> IsTimeError(e.value, time)
  {
    if Incompatible(s1, s2, time) then Some(TimeError(s1, s2)) else None
  }

  /** A rewind goes exactly below the conflict: at the rewind point there is
      none and one step above there is one, unless even the start conflicts. */
  lemma RewindIsHighest(s1: Option<nat>, s2: Option<nat>, head: nat)
    requires Incompatible(s1, s2, head)
    ensures var b, t := BlockCheck(s1, s2, head).value, TimeCheck(s1, s2, head).value;
            && b.stored == t.stored == s1 && b.proposed == t.proposed == s2
            && b.rewindToBlock == t.rewindToTime && b.rewindToTime == t.rewindToBlock == 0
            && (Incompatible(s1, s2, 0) ==> b.rewindToBlock == 0)
            && (!Incompatible(s1, s2, 0) ==>
                  !Incompatible(s1, s2, b.rewindToBlock) && Incompatible(s1, s2, b.rewindToBlock + 1))
  {
  }

  /** Petersburg may also move onto the stored Constantinople block. */
  function PetersburgCheck(c: ChainConfig, n: ChainConfig, head: nat): (e: Option<CompatError>)
    ensures e.Some? ==> IsBlockError(e.value, head)
  {
    if Incompatible(c.constantinople, n.petersburg, head) then BlockCheck(c.petersburg, n.petersburg, head) else None
  }

  function ChainIDCheck(c: ChainConfig, n: ChainConfig, head: nat): (e: Option<CompatError>)
    ensures e.Some? ==> IsBlockError(e.value, head)
  {
    if Forked(c.eip158, head) && c.chainID != n.chainID then Some(BlockError(c.eip158, n.eip158)) else None
  }

  function EarlyForks(c: ChainConfig, n: ChainConfig, head: nat): (e: Option<CompatError>)
    ensures e.Some? ==> IsBlockError(e.value, head)
  {
    Else(BlockCheck(c.homestead, n.homestead, head),
         Else(BlockCheck(c.eip150, n.eip150, head),
              Else(BlockCheck(c.eip155, n.eip155, head),
                   Else(BlockCheck(c.eip158, n.eip158, head),
                        ChainIDCheck(c, n, head)))))
  }

  function LateForks(c: ChainConfig, n: ChainConfig, head: nat): (e: Option<CompatError>)
    ensures e.Some? ==> IsBlockError(e.value, head)
  {
    Else(BlockCheck(c.byzantium, n.byzantium, head),
         Else(BlockCheck(c.constantinople, n.constantinople, head),
              Else(PetersburgCheck(c, n, head),
                   Else(BlockCheck(c.istanbul, n.istanbul, head),
                        Else(BlockCheck(c.muirGlacier, n.muirGlacier, head),
                             Else(BlockCheck(c.berlin, n.berlin, head),
                                  BlockCheck(c.london, n.london, head)))))))
  }

  function TimestampForks(c: ChainConfig, n: ChainConfig, time: nat): (e: Option<CompatError>)
    ensures e.Some? ==> IsTimeError(e.value, time)
  {
    Else(TimeCheck(c.shanghai, n.shanghai, time),
         Else(TimeCheck(c.cancun, n.cancun, time),
              Else(TimeCheck(c.verkle, n.verkle, time),
                   Else(TimeCheck(c.subnetEVM, n.subnetEVM, time),
                        Else(TimeCheck(c.durango, n.durango, time),
                             TimeCheck(c.etna, n.etna, time))))))
  }

  function FirstTimeError(c: ChainConfig, n: ChainConfig, time: nat): Option<CompatError> {
    Else(TimestampForks(c, n, time),
         Else(PrecompileConflict(c.precompiles, n.precompiles.upgrades, time, 0),
              StateConflict(c.precompiles, n.precompiles.stateUpgrades, time)))
  }

  function FirstError(c: ChainConfig, n: ChainConfig, head: nat, time: nat): Option<CompatError> {
    Else(EarlyForks(c, n, head), Else(LateForks(c, n, head), FirstTimeError(c, n, time)))
  }

  // ---------- Rewind points lie below the head ----------

  lemma {:induction false} ActivatedForked(list: seq<Precompile>, time: nat)
    ensures forall i :: 0 <= i < |Activating(list, None, time)| ==>
              Forked(PrecompileTime(Activating(list, None, time)[i]), time)
  {
    if list != [] {
      ActivatedForked(list[..|list| - 1], time);
    }
  }

  lemma {:induction false} ActivatedStateForked(list: seq<StateUpgrade>, time: nat)
    ensures forall i :: 0 <= i < |ActivatingState(list, None, time)| ==>
              Forked(StateTime(ActivatingState(list, None, time)[i]), time)
  {
    if list != [] {
      ActivatedStateForked(list[..|list| - 1], time);
    }
  }

  lemma {:induction false} PrecompileConflictBelow(c: Upgrades.Config, proposed: seq<Precompile>, time: nat, m: nat)
    requires m <= |c.modules|
    ensures var e := PrecompileConflict(c, proposed, time, m);
            e.Some? ==> IsTimeError(e.value, time)
    decreases |c.modules| - m
  {
    if m < |c.modules| {
      var key := c.modules[m];
      ActivatedForked(KeyList(c, key, c.upgrades), time);
      ActivatedForked(KeyList(c, key, proposed), time);
      ConflictBelow(ActivatingConfigs(c, key, None, time, c.upgrades),
                    ActivatingConfigs(c, key, None, time, proposed), PrecompileTime, 0, time);
      PrecompileConflictBelow(c, proposed, time, m + 1);
    }
  }

  lemma TimeErrorBelow(c: ChainConfig, n: ChainConfig, time: nat)
    ensures var e := FirstTimeError(c, n, time);
            e.Some? ==> IsTimeError(e.value, time)
  {
    PrecompileConflictBelow(c.precompiles, n.precompiles.upgrades, time, 0);
    ActivatedStateForked(c.precompiles.stateUpgrades, time);
    ActivatedStateForked(n.precompiles.stateUpgrades, time);
    ConflictBelow(ActivatingState(c.precompiles.stateUpgrades, None, time),
                  ActivatingState(n.precompiles.stateUpgrades, None, time), StateTime, 0, time);
  }

  lemma ErrorBelow(c: ChainConfig, n: ChainConfig, head: nat, time: nat)
    requires FirstError(c, n, head, time).Some?
    ensures IsBlockError(FirstError(c, n, head, time).value, head)
            || IsTimeError(FirstError(c, n, head, time).value, time)
  {
    TimeErrorBelow(c, n, time);
  }

  // ---------- The rewind loop ----------

  const NO_REWIND := CompatError(None, None, 0, 0)

  predicate SameRewind(a: CompatError, b: CompatError) {
    a.rewindToBlock == b.rewindToBlock && a.rewindToTime == b.rewindToTime
  }

  /** Compare at a head and rewind until nothing conflicts or the conflict
      cannot be rewound; the answer is the last conflict found. */
  function LowestConflict(c: ChainConfig, n: ChainConfig, bhead: nat, btime: nat,
                          last: Option<CompatError>): Option<CompatError>
    decreases btime, bhead, if last.Some? && SameRewind(last.value, NO_REWIND) then 0 else 1
  {
    var e := FirstError(c, n, bhead, btime);
    if e.None? || (last.Some? && SameRewind(e.value, last.value)) then last
    else
      ErrorBelow(c, n, bhead, btime);
      if e.value.rewindToTime > 0 then LowestConflict(c, n, bhead, e.value.rewindToTime, e)
      else LowestConflict(c, n, e.value.rewindToBlock, btime, e)
  }

  predicate BlocksCompatible(c: ChainConfig, n: ChainConfig, head: nat) {
    EarlyForks(c, n, head).None? && LateForks(c, n, head).None?
  }

  /** What the last conflict found promises the caller: a block rewind makes
      the configurations compatible at that block and the original time, a
      time rewind makes the timed rules compatible at that time. */
  ghost predicate Rewinds(c: ChainConfig, n: ChainConfig, time: nat, e: CompatError) {
    && (e.rewindToBlock > 0 ==> FirstError(c, n, e.rewindToBlock, time).None?)
    && (e.rewindToTime > 0 ==> e.rewindToTime < time && FirstTimeError(c, n, e.rewindToTime).None?)
  }

  /** Where the loop stands after rewinding to last: no block conflicts once
      the time has been rewound. */
  ghost predicate Rewinding(c: ChainConfig, n: ChainConfig, bhead: nat, btime: nat, time: nat,
                            last: Option<CompatError>) {
    && btime <= time
    && (btime < time ==> BlocksCompatible(c, n, bhead))
    && (last.Some? && last.value.rewindToBlock > 0 ==>
          bhead == last.value.rewindToBlock && last.value.rewindToTime == 0 && btime == time)
    && (last.Some? && last.value.rewindToTime > 0 ==> btime == last.value.rewindToTime < time)
  }

  lemma {:induction false} LowestConflictRewinds(c: ChainConfig, n: ChainConfig, bhead: nat, btime: nat, time: nat,
                                                 last: Option<CompatError>)
    requires Rewinding(c, n, bhead, btime, time, last)
    ensures var r := LowestConflict(c, n, bhead, btime, last);
            && (last.Some? ==> r.Some?)
            && (last.None? ==> (r.None? <==> FirstError(c, n, bhead, btime).None?))
            && (r.Some? ==> Rewinds(c, n, time, r.value))
    decreases btime, bhead, if last.Some? && SameRewind(last.value, NO_REWIND) then 0 else 1
  {
    var e := FirstError(c, n, bhead, btime);
    if e.Some? {
      ErrorBelow(c, n, bhead, btime);
      if last.None? || !SameRewind(e.value, last.value) {
        if e.value.rewindToTime > 0 {
          LowestConflictRewinds(c, n, bhead, e.value.rewindToTime, time, e);
        } else {
          TimeErrorBelow(c, n, btime);
          if btime < time {
            BlocksBelow(c, n, 0, bhead);
          }
          LowestConflictRewinds(c, n, e.value.rewindToBlock, btime, time, e);
        }
      }
    }
  }

  lemma BlocksBelow(c: ChainConfig, n: ChainConfig, low: nat, head: nat)
    requires low <= head && BlocksCompatible(c, n, head)
    ensures BlocksCompatible(c, n, low)
  {
  }

  /** The loop ends for all inputs.  It reports no error exactly when nothing
      conflicts at the head, and a positive rewind point keeps its promise.
      A time rewind promises nothing about blocks: at the original height the
      configurations are compatible after it exactly when no block fork
      conflicts there. */
  method CheckCompatible(c: ChainConfig, n: ChainConfig, height: nat, time: nat) returns (err: Option<CompatError>)
    ensures err == LowestConflict(c, n, height, time, None)
    ensures err.None? <==> FirstError(c, n, height, time).None?
    ensures err.Some? && err.value.rewindToBlock > 0 ==> FirstError(c, n, err.value.rewindToBlock, time).None?
    ensures err.Some? && err.value.rewindToTime > 0 ==>
              && FirstTimeError(c, n, err.value.rewindToTime).None?
              && (forall h: nat :: FirstError(c, n, h, err.value.rewindToTime).None? <==> BlocksCompatible(c, n, h))
  {
    LowestConflictRewinds(c, n, height, time, time, None);
    var bhead: nat, btime: nat := height, time;
    err := None;
    while true
      invariant LowestConflict(c, n, bhead, btime, err) == LowestConflict(c, n, height, time, None)
      decreases btime, bhead, if err.Some? && SameRewind(err.value, NO_REWIND) then 0 else 1
    {
      var e := FirstError(c, n, bhead, btime);
      if e.Some? {
        ErrorBelow(c, n, bhead, btime);
      }
      if e.None? || (err.Some? && SameRewind(e.value, err.value)) {
        break;
      }
      err := e;
      if e.value.rewindToTime > 0 {
        btime := e.value.rewindToTime;
      } else {
        bhead := e.value.rewindToBlock;
      }
    }
  }

  /** A time rewind can hide a block conflict: here the block error at the head
      is dropped for a later time error, and the configurations stay
      incompatible at the original height and at every conflicting block. */
  lemma TimeRewindHidesBlocks(c: ChainConfig)
    requires c.byzantium == Some(5) && c.shanghai == Some(50)
    ensures var n := c.(byzantium := Some(7), shanghai := Some(60));
            var e := LowestConflict(c, n, 10, 100, None);
            && e.Some? && e.value.rewindToTime == 49 && e.value.rewindToBlock == 0
            && FirstError(c, n, 10, 49).Some? && FirstError(c, n, 5, 49).Some?
  {
    var n := c.(byzantium := Some(7), shanghai := Some(60));
    var e0 := FirstError(c, n, 10, 100);
    assert EarlyForks(c, n, 10).None? && e0 == BlockCheck(c.byzantium, n.byzantium, 10);
    var e1 := FirstError(c, n, 4, 100);
    assert EarlyForks(c, n, 4).None? && LateForks(c, n, 4).None?;
    assert e1 == TimeCheck(c.shanghai, n.shanghai, 100);
    CompatibleMeansSameRules(c, n, 49);
    assert FirstError(c, n, 4, 49).None?;
    assert LowestConflict(c, n, 4, 49, e1) == e1;
    assert LowestConflict(c, n, 4, 100, e0) == e1;
  }

  // ---------- What compatibility means ----------

  /** Schedules are compatible at a head exactly when they give the same flag
      at every point up to it. */
  lemma SameFlags(s1: Option<nat>, s2: Option<nat>, head: nat)
    ensures !Incompatible(s1, s2, head) <==> forall t: nat :: t <= head ==> Forked(s1, t) == Forked(s2, t)
  {
    if Incompatible(s1, s2, head) {
      var p := RewindPoint(s1, s2).value;
      assert p <= head && Forked(s1, p) != Forked(s2, p);
    }
  }

  /** Earlier activations are determined by later ones. */
  lemma {:induction false} ActivatedEarlier(list: seq<Precompile>, t: nat, time: nat)
    requires t <= time
    ensures Activating(Activating(list, None, time), None, t) == Activating(list, None, t)
  {
    if list != [] {
      var init, last := list[..|list| - 1], list[|list| - 1];
      ActivatedEarlier(init, t, time);
      if Forked(last.timestamp, time) {
        var a := Activating(init, None, time);
        assert (a + [last])[..|a|] == a;
      } else {
        assert Activating(list, None, time) == Activating(init, None, time);
        assert Activating(list, None, t) == Activating(init, None, t);
      }
    }
  }

  lemma {:induction false} ActivatedStateEarlier(list: seq<StateUpgrade>, t: nat, time: nat)
    requires t <= time
    ensures ActivatingState(ActivatingState(list, None, time), None, t) == ActivatingState(list, None, t)
  {
    if list != [] {
      var init, last := list[..|list| - 1], list[|list| - 1];
      ActivatedStateEarlier(init, t, time);
      if Forked(last.timestamp, time) {
        var a := ActivatingState(init, None, time);
        assert (a + [last])[..|a|] == a;
      } else {
        assert ActivatingState(list, None, time) == ActivatingState(init, None, time);
        assert ActivatingState(list, None, t) == ActivatingState(init, None, t);
      }
    }
  }

  ghost predicate SameTimestampFlags(c: ChainConfig, n: ChainConfig, t: nat) {
    && Forked(c.shanghai, t) == Forked(n.shanghai, t)
    && Forked(c.cancun, t) == Forked(n.cancun, t)
    && Forked(c.verkle, t) == Forked(n.verkle, t)
    && Forked(c.subnetEVM, t) == Forked(n.subnetEVM, t)
    && Forked(c.durango, t) == Forked(n.durango, t)
    && Forked(c.etna, t) == Forked(n.etna, t)
  }

  /** The same configurations of every module have activated by time t, both
      counted from the stored genesis precompiles. */
  ghost predicate SamePrecompiles(c: ChainConfig, n: ChainConfig, t: nat) {
    forall key: nat :: ActivatingConfigs(c.precompiles, key, None, t, c.precompiles.upgrades)
                    == ActivatingConfigs(c.precompiles, key, None, t, n.precompiles.upgrades)
  }

  ghost predicate SameStateUpgrades(c: ChainConfig, n: ChainConfig, t: nat) {
    ActivatingState(c.precompiles.stateUpgrades, None, t) == ActivatingState(n.precompiles.stateUpgrades, None, t)
  }

  lemma {:induction false} NoPrecompileConflict(c: ChainConfig, n: ChainConfig, time: nat, m: nat)
    requires m <= |c.precompiles.modules|
    ensures PrecompileConflict(c.precompiles, n.precompiles.upgrades, time, m).None? <==>
            forall i :: m <= i < |c.precompiles.modules| ==>
              ActivatingConfigs(c.precompiles, c.precompiles.modules[i], None, time, c.precompiles.upgrades)
              == ActivatingConfigs(c.precompiles, c.precompiles.modules[i], None, time, n.precompiles.upgrades)
    decreases |c.precompiles.modules| - m
  {
    if m < |c.precompiles.modules| {
      var key := c.precompiles.modules[m];
      ConflictIff(ActivatingConfigs(c.precompiles, key, None, time, c.precompiles.upgrades),
                  ActivatingConfigs(c.precompiles, key, None, time, n.precompiles.upgrades), PrecompileTime, 0);
      NoPrecompileConflict(c, n, time, m + 1);
    }
  }

  lemma PrecompilesIff(c: ChainConfig, n: ChainConfig, time: nat)
    ensures PrecompileConflict(c.precompiles, n.precompiles.upgrades, time, 0).None? <==> SamePrecompiles(c, n, time)
  {
    NoPrecompileConflict(c, n, time, 0);
  }

  lemma PrecompilesEarlier(c: ChainConfig, n: ChainConfig, t: nat, time: nat)
    requires SamePrecompiles(c, n, time) && t <= time
    ensures SamePrecompiles(c, n, t)
  {
    forall key: nat
      ensures ActivatingConfigs(c.precompiles, key, None, t, c.precompiles.upgrades)
           == ActivatingConfigs(c.precompiles, key, None, t, n.precompiles.upgrades)
    {
      ActivatedEarlier(KeyList(c.precompiles, key, c.precompiles.upgrades), t, time);
      ActivatedEarlier(KeyList(c.precompiles, key, n.precompiles.upgrades), t, time);
      assert ActivatingConfigs(c.precompiles, key, None, time, c.precompiles.upgrades)
          == ActivatingConfigs(c.precompiles, key, None, time, n.precompiles.upgrades);
    }
  }

  lemma TimestampFlagsIff(c: ChainConfig, n: ChainConfig, time: nat)
    ensures TimestampForks(c, n, time).None? <==> forall t: nat :: t <= time ==> SameTimestampFlags(c, n, t)
  {
    SameFlags(c.shanghai, n.shanghai, time);
    SameFlags(c.cancun, n.cancun, time);
    SameFlags(c.verkle, n.verkle, time);
    SameFlags(c.subnetEVM, n.subnetEVM, time);
    SameFlags(c.durango, n.durango, time);
    SameFlags(c.etna, n.etna, time);
    if forall t: nat :: t <= time ==> SameTimestampFlags(c, n, t) {
      forall t: nat | t <= time
        ensures Forked(c.shanghai, t) == Forked(n.shanghai, t) && Forked(c.cancun, t) == Forked(n.cancun, t)
        ensures Forked(c.verkle, t) == Forked(n.verkle, t) && Forked(c.subnetEVM, t) == Forked(n.subnetEVM, t)
        ensures Forked(c.durango, t) == Forked(n.durango, t) && Forked(c.etna, t) == Forked(n.etna, t)
      {
        assert SameTimestampFlags(c, n, t);
      }
    }
  }

  ghost predicate SameTimedRules(c: ChainConfig, n: ChainConfig, t: nat) {
    SameTimestampFlags(c, n, t) && SamePrecompiles(c, n, t) && SameStateUpgrades(c, n, t)
  }

  /** No timestamp error means, and is meant by: at every time up to the head
      both configurations give the same fork flags, the same activated
      precompile configurations and the same state upgrades. */
  lemma CompatibleMeansSameRules(c: ChainConfig, n: ChainConfig, time: nat)
    ensures FirstTimeError(c, n, time).None? <==> forall t: nat :: t <= time ==> SameTimedRules(c, n, t)
  {
    TimestampFlagsIff(c, n, time);
    PrecompilesIff(c, n, time);
    ConflictIff(ActivatingState(c.precompiles.stateUpgrades, None, time),
                ActivatingState(n.precompiles.stateUpgrades, None, time), StateTime, 0);
    if FirstTimeError(c, n, time).None? {
      forall t: nat | t <= time
        ensures SameTimedRules(c, n, t)
      {
        PrecompilesEarlier(c, n, t, time);
        ActivatedStateEarlier(c.precompiles.stateUpgrades, t, time);
        ActivatedStateEarlier(n.precompiles.stateUpgrades, t, time);
      }
    } else if forall t: nat :: t <= time ==> SameTimedRules(c, n, t) {
      assert SameTimedRules(c, n, time);
      forall t: nat | t <= time
        ensures SameTimestampFlags(c, n, t)
      {
        assert SameTimedRules(c, n, t);
      }
    }
  }

  ghost predicate SameBlockFlags(c: ChainConfig, n: ChainConfig, b: nat) {
    && Forked(c.homestead, b) == Forked(n.homestead, b)
    && Forked(c.eip150, b) == Forked(n.eip150, b)
    && Forked(c.eip155, b) == Forked(n.eip155, b)
    && Forked(c.eip158, b) == Forked(n.eip158, b)
    && Forked(c.byzantium, b) == Forked(n.byzantium, b)
    && Forked(c.constantinople, b) == Forked(n.constantinople, b)
    && Forked(c.istanbul, b) == Forked(n.istanbul, b)
    && Forked(c.muirGlacier, b) == Forked(n.muirGlacier, b)
    && Forked(c.berlin, b) == Forked(n.berlin, b)
    && Forked(c.london, b) == Forked(n.london, b)
  }

  ghost predicate SameSchedule(s1: Option<nat>, s2: Option<nat>, head: nat) {
    forall b: nat :: b <= head ==> Forked(s1, b) == Forked(s2, b)
  }

  /** No block fork conflicts at a head exactly when the fork flags agree at
      every height up to it, the chain ID is the same once EIP-158 has been
      reached, and the new Petersburg block agrees with the stored Petersburg
      or Constantinople block. */
  lemma BlocksCompatibleIff(c: ChainConfig, n: ChainConfig, head: nat)
    ensures BlocksCompatible(c, n, head) <==>
            && (forall b: nat :: b <= head ==> SameBlockFlags(c, n, b))
            && (c.eip158.Some? && c.eip158.value <= head ==> c.chainID == n.chainID)
            && (SameSchedule(c.constantinople, n.petersburg, head) || SameSchedule(c.petersburg, n.petersburg, head))
  {
    SameFlags(c.constantinople, n.petersburg, head);
    SameFlags(c.petersburg, n.petersburg, head);
    BlockFlagsIff(c, n, head);
  }

  lemma BlockFlagsIff(c: ChainConfig, n: ChainConfig, head: nat)
    ensures (forall b: nat :: b <= head ==> SameBlockFlags(c, n, b)) <==>
            && !Incompatible(c.homestead, n.homestead, head)
            && !Incompatible(c.eip150, n.eip150, head)
            && !Incompatible(c.eip155, n.eip155, head)
            && !Incompatible(c.eip158, n.eip158, head)
            && !Incompatible(c.byzantium, n.byzantium, head)
            && !Incompatible(c.constantinople, n.constantinople, head)
            && !Incompatible(c.istanbul, n.istanbul, head)
            && !Incompatible(c.muirGlacier, n.muirGlacier, head)
            && !Incompatible(c.berlin, n.berlin, head)
            && !Incompatible(c.london, n.london, head)
  {
    if forall b: nat :: b <= head ==> SameBlockFlags(c, n, b) {
      forall b: nat | b <= head
        ensures Forked(c.homestead, b) == Forked(n.homestead, b) && Forked(c.eip150, b) == Forked(n.eip150, b)
        ensures Forked(c.eip155, b) == Forked(n.eip155, b) && Forked(c.eip158, b) == Forked(n.eip158, b)
        ensures Forked(c.byzantium, b) == Forked(n.byzantium, b)
        ensures Forked(c.constantinople, b) == Forked(n.constantinople, b)
        ensures Forked(c.istanbul, b) == Forked(n.istanbul, b) && Forked(c.muirGlacier, b) == Forked(n.muirGlacier, b)
        ensures Forked(c.berlin, b) == Forked(n.berlin, b) && Forked(c.london, b) == Forked(n.london, b)
      {
        assert SameBlockFlags(c, n, b);
      }
      SameFlags(c.homestead, n.homestead, head);
      SameFlags(c.eip150, n.eip150, head);
      SameFlags(c.eip155, n.eip155, head);
      SameFlags(c.eip158, n.eip158, head);
      SameFlags(c.byzantium, n.byzantium, head);
      SameFlags(c.constantinople, n.constantinople, head);
      SameFlags(c.istanbul, n.istanbul, head);
      SameFlags(c.muirGlacier, n.muirGlacier, head);
      SameFlags(c.berlin, n.berlin, head);
      SameFlags(c.london, n.london, head);
    }
  }

  /** No error at a head means, and is meant by: the same block flags and chain
      ID at every height up to it, Petersburg on one of its two stored blocks,
      and the same timed rules at every time up to it. */
  lemma CompatibleIff(c: ChainConfig, n: ChainConfig, head: nat, time: nat)
    ensures FirstError(c, n, head, time).None? <==>
            && (forall b: nat :: b <= head ==> SameBlockFlags(c, n, b))
            && (c.eip158.Some? && c.eip158.value <= head ==> c.chainID == n.chainID)
            && (SameSchedule(c.constantinople, n.petersburg, head) || SameSchedule(c.petersburg, n.petersburg, head))
            && (forall t: nat :: t <= time ==> SameTimedRules(c, n, t))
  {
    CompatibleMeansSameRules(c, n, time);
    BlocksCompatibleIff(c, n, head);
    hide SameBlockFlags, SameTimedRules, SameSchedule, EarlyForks, LateForks, FirstTimeError;
  }

  /** Compatibility at a head carries over to every earlier head. */
  lemma CompatibleBelow(c: ChainConfig, n: ChainConfig, head: nat, time: nat, head': nat, time': nat)
    requires FirstError(c, n, head, time).None? && head' <= head && time' <= time
    ensures FirstError(c, n, head', time').None?
  {
    CompatibleMeansSameRules(c, n, time);
    CompatibleMeansSameRules(c, n, time');
  }

  // ---------- Petersburg ----------

  /** An unset Petersburg block means the Constantinople block. */
  predicate IsPetersburg(c: ChainConfig, b: nat) {
    Forked(c.petersburg, b) || (c.petersburg.None? && Forked(c.constantinople, b))
  }

  function EffectivePetersburg(c: ChainConfig): Option<nat> {
    if c.petersburg.None? then c.constantinople else c.petersburg
  }

  /** The Petersburg flag agrees up to the head exactly when the effective
      Petersburg blocks are compatible there. */
  lemma PetersburgFlags(c: ChainConfig, n: ChainConfig, head: nat)
    ensures (forall b: nat :: b <= head ==> IsPetersburg(c, b) == IsPetersburg(n, b)) <==>
            !Incompatible(EffectivePetersburg(c), EffectivePetersburg(n), head)
  {
    SameFlags(EffectivePetersburg(c), EffectivePetersburg(n), head);
    assert forall b: nat :: IsPetersburg(c, b) == Forked(EffectivePetersburg(c), b);
    assert forall b: nat :: IsPetersburg(n, b) == Forked(EffectivePetersburg(n), b);
  }

  /** The compatibility check does not see this: moving an unset Petersburg
      block above the head is reported compatible, yet it switches the rules
      of blocks already on the chain off. */
  lemma PetersburgGap(c: ChainConfig, head: nat, time: nat)
    requires c.petersburg.None? && Forked(c.constantinople, head)
    ensures var n := c.(petersburg := Some(head + 1));
            && FirstError(c, n, head, time).None?
            && IsPetersburg(c, head) && !IsPetersburg(n, head)
  {
    var n := c.(petersburg := Some(head + 1));
    CompatibleMeansSameRules(c, n, time);
  }

  // ---------- Fork order ----------

  /** A fork is scheduled by block or by timestamp, or not at all. */
  datatype Fork = Fork(block: Option<nat>, timestamp: Option<nat>, optional: bool) {
    predicate IsSet() { block.Some? || timestamp.Some? }
  }

  predicate PairOk(last: Fork, cur: Fork) {
    && (cur.IsSet() ==> last.IsSet())
    && (last.block.Some? && cur.block.Some? ==> last.block.value <= cur.block.value)
    && (last.timestamp.Some? && cur.timestamp.Some? ==> last.timestamp.value <= cur.timestamp.value)
  }

  /** The last fork before i that is mandatory or scheduled. */
  function LastRelevant(forks: seq<Fork>, i: nat): Option<Fork>
    requires i <= |forks|
  {
    if i == 0 then None
    else if !forks[i - 1].optional || forks[i - 1].IsSet() then Some(forks[i - 1])
    else LastRelevant(forks, i - 1)
  }

  predicate InOrderAt(forks: seq<Fork>, blockFork: bool, i: nat)
    requires i < |forks|
  {
    && (blockFork && forks[i].block.Some? ==> forks[i].block.value == 0)
    && (LastRelevant(forks, i).Some? ==> PairOk(LastRelevant(forks, i).value, forks[i]))
  }

  /** How the check of one fork against the last relevant one ends.  Comparing
      by block or by timestamp reads a value that may be missing, which
      panics. */
  datatype Verdict =
    | Accepted
    | Refused
    | Panics

  function PairVerdict(last: Fork, cur: Fork): Verdict {
    if !last.IsSet() && cur.IsSet() then Refused
    else if !((last.block.Some? && cur.block.Some?) || (last.timestamp.Some? && cur.timestamp.Some?)) then Accepted
    else if last.block.Some? && cur.block.None? then Panics
    else if last.block.Some? && last.block.value > cur.block.value then Refused
    else if last.timestamp.Some? && cur.timestamp.None? then Panics
    else if last.timestamp.Some? && last.timestamp.value > cur.timestamp.value then Refused
    else if last.timestamp.Some? && cur.block.Some? then Refused
    else Accepted
  }

  function ForkVerdict(forks: seq<Fork>, blockFork: bool, i: nat): Verdict
    requires i < |forks|
  {
    if blockFork && forks[i].block.Some? && forks[i].block.value != 0 then Refused
    else match LastRelevant(forks, i)
         case None => Accepted
         case Some(last) => PairVerdict(last, forks[i])
  }

  /** The order check ends at the first fork that is not accepted. */
  method CheckForks(forks: seq<Fork>, blockFork: bool) returns (r: Verdict, ghost at: nat)
    ensures r.Accepted? <==> forall i: nat :: i < |forks| ==> ForkVerdict(forks, blockFork, i).Accepted?
    ensures !r.Accepted? ==>
              && at < |forks| && r == ForkVerdict(forks, blockFork, at)
              && forall i: nat :: i < at ==> ForkVerdict(forks, blockFork, i).Accepted?
  {
    var lastFork: Option<Fork> := None;
    at := 0;
    var i := 0;
    while i < |forks|
      invariant 0 <= i <= |forks|
      invariant lastFork == LastRelevant(forks, i)
      invariant forall j: nat :: j < i ==> ForkVerdict(forks, blockFork, j).Accepted?
    {
      var cur := forks[i];
      if blockFork && cur.block.Some? && cur.block.value != 0 {
        assert ForkVerdict(forks, blockFork, i) == Refused;
        return Refused, i;
      }
      if lastFork.Some? {
        r := CheckPair(lastFork.value, cur);
        if !r.Accepted? {
          assert ForkVerdict(forks, blockFork, i) == r;
          return r, i;
        }
      }
      if !cur.optional || cur.block.Some? || cur.timestamp.Some? {
        lastFork := Some(cur);
      }
      i := i + 1;
    }
    r := Accepted;
  }

  /** The switch on two forks, branch by branch. */
  method CheckPair(last: Fork, cur: Fork) returns (r: Verdict)
    ensures r == PairVerdict(last, cur)
  {
    if last.block.None? && last.timestamp.None? && (cur.block.Some? || cur.timestamp.Some?) {
      return Refused;
    }
    if (last.block.Some? && cur.block.Some?) || (last.timestamp.Some? && cur.timestamp.Some?) {
      if last.block.Some? {
        if cur.block.None? {
          return Panics;
        }
        if last.block.value > cur.block.value {
          return Refused;
        }
      }
      if last.timestamp.Some? {
        if cur.timestamp.None? {
          return Panics;
        }
        if last.timestamp.value > cur.timestamp.value {
          return Refused;
        }
        if cur.block.Some? {
          return Refused;
        }
      }
    }
    return Accepted;
  }

  /** For forks scheduled by block or by timestamp, never by both, the check
      never panics and accepts exactly the lists that are in order. */
  lemma VerdictInOrder(forks: seq<Fork>, blockFork: bool, i: nat)
    requires i < |forks|
    requires forall j :: 0 <= j < |forks| ==> !(forks[j].block.Some? && forks[j].timestamp.Some?)
    ensures ForkVerdict(forks, blockFork, i) == if InOrderAt(forks, blockFork, i) then Accepted else Refused
  {
    LastRelevantIs(forks, i);
  }

  /** An optional fork that is not scheduled. */
  predicate Skipped(f: Fork) {
    f.optional && f.block.None? && f.timestamp.None?
  }

  /** The last relevant fork is the last one that is not an unscheduled
      optional fork. */
  lemma {:induction false} LastRelevantIs(forks: seq<Fork>, i: nat)
    requires i <= |forks|
    ensures LastRelevant(forks, i).None? <==> forall j :: 0 <= j < i ==> Skipped(forks[j])
    ensures LastRelevant(forks, i).Some? ==>
              exists k :: 0 <= k < i && LastRelevant(forks, i).value == forks[k] && !Skipped(forks[k])
                          && forall j :: k < j < i ==> Skipped(forks[j])
  {
    if i > 0 {
      LastRelevantIs(forks, i - 1);
      if LastRelevant(forks, i).Some? && Skipped(forks[i - 1]) {
        var k :| 0 <= k < i - 1 && LastRelevant(forks, i - 1).value == forks[k] && !Skipped(forks[k])
                 && forall j :: k < j < i - 1 ==> Skipped(forks[j]);
        assert forall j :: k < j < i ==> Skipped(forks[j]);
      }
    }
  }

  /** A list of mandatory timestamp forks. */
  ghost predicate TimestampList(forks: seq<Fork>) {
    forall i :: 0 <= i < |forks| ==> forks[i].block.None? && !forks[i].optional
  }

  lemma {:induction false} OrderedPairs(forks: seq<Fork>, i: nat, j: nat)
    requires TimestampList(forks) && i <= j < |forks|
    requires forall k: nat :: k < |forks| ==> InOrderAt(forks, false, k)
    ensures forks[j].timestamp.Some? ==>
              forks[i].timestamp.Some? && forks[i].timestamp.value <= forks[j].timestamp.value
    decreases j
  {
    if i < j {
      assert InOrderAt(forks, false, j);
      OrderedPairs(forks, i, j - 1);
    }
  }

  /** For mandatory timestamp forks, as the Avalanche upgrades are, the order
      check accepts exactly the schedules whose flags nest at every time: a
      later fork is never active without the earlier ones. */
  lemma OrderedIffNested(forks: seq<Fork>)
    requires TimestampList(forks)
    ensures (forall i: nat :: i < |forks| ==> InOrderAt(forks, false, i)) <==>
            (forall i, j, t: nat :: 0 <= i <= j < |forks| && Forked(forks[j].timestamp, t) ==>
               Forked(forks[i].timestamp, t))
  {
    if forall i: nat :: i < |forks| ==> InOrderAt(forks, false, i) {
      forall i, j, t: nat | 0 <= i <= j < |forks| && Forked(forks[j].timestamp, t)
        ensures Forked(forks[i].timestamp, t)
      {
        OrderedPairs(forks, i, j);
      }
    }
    if forall i, j, t: nat :: 0 <= i <= j < |forks| && Forked(forks[j].timestamp, t) ==>
         Forked(forks[i].timestamp, t) {
      forall k: nat | k < |forks|
        ensures InOrderAt(forks, false, k)
      {
        if 0 < k && forks[k].timestamp.Some? {
          assert Forked(forks[k].timestamp, forks[k].timestamp.value);
          assert Forked(forks[k - 1].timestamp, forks[k].timestamp.value);
        }
      }
    }
  }

  /** The order check never rejects a block-scheduled fork for following a
      timestamp-scheduled one: the test against it is only reached for two
      forks of the same kind.  Only a nonzero block can make such a fork fail. */
  lemma BlockAfterTimestamp(forks: seq<Fork>, blockFork: bool, i: nat)
    requires i < |forks| && forks[i].block.Some? && forks[i].timestamp.None?
    requires LastRelevant(forks, i).Some?
    requires LastRelevant(forks, i).value.timestamp.Some? && LastRelevant(forks, i).value.block.None?
    ensures InOrderAt(forks, blockFork, i) <==> (blockFork ==> forks[i].block.value == 0)
  {
  }

  lemma BlockAfterTimestampAccepted(t: nat)
    ensures forall i: nat :: i < 2 ==>
              InOrderAt([Fork(None, Some(t), false), Fork(Some(0), None, false)], true, i)
  {
  }
}
