/** Scheduling of precompile and state upgrades by block timestamp. */
module Upgrades {
  import opened BlockTree

  /** A precompile configuration; content stands for its remaining fields. */
  datatype Precompile = Precompile(key: nat, timestamp: Option<nat>, disabled: bool, content: nat)

  datatype StateUpgrade = StateUpgrade(timestamp: Option<nat>, content: nat)

  /** The registered modules are identified by their configuration key. */
  datatype Config = Config(modules: seq<nat>,
                           genesis: map<nat, Precompile>,
                           upgrades: seq<Precompile>,
                           stateUpgrades: seq<StateUpgrade>)

  predicate Forked(fork: Option<nat>, time: nat) {
    fork.Some? && fork.value <= time
  }

  /** Does the fork activate between the parent and the current timestamp? */
  predicate IsForkTransition(fork: Option<nat>, parent: Option<nat>, current: nat) {
    !(parent.Some? && Forked(fork, parent.value)) && Forked(fork, current)
  }

  // ---------- Activations ----------

  /** The configurations of one key, the one embedded in genesis first. */
  function KeyList(c: Config, key: nat, upgrades: seq<Precompile>): seq<Precompile> {
    (if key in c.genesis then [c.genesis[key]] else []) + OfKey(upgrades, key)
  }

  function OfKey(upgrades: seq<Precompile>, key: nat): seq<Precompile> {
    if upgrades == [] then []
    else
      var last := upgrades[|upgrades| - 1];
      OfKey(upgrades[..|upgrades| - 1], key) + if last.key == key then [last] else []
  }

  /** The configurations of a list that activate in a transition, in order. */
  function Activating(list: seq<Precompile>, parent: Option<nat>, current: nat): seq<Precompile> {
    if list == [] then []
    else
      var last := list[|list| - 1];
      Activating(list[..|list| - 1], parent, current)
      + if IsForkTransition(last.timestamp, parent, current) then [last] else []
  }

  function ActivatingConfigs(c: Config, key: nat, parent: Option<nat>, current: nat,
                             upgrades: seq<Precompile>): seq<Precompile> {
    if key in c.modules then Activating(KeyList(c, key, upgrades), parent, current) else []
  }

  lemma ActivatingSnoc(list: seq<Precompile>, u: Precompile, parent: Option<nat>, current: nat)
    ensures Activating(list + [u], parent, current) ==
            Activating(list, parent, current) + if IsForkTransition(u.timestamp, parent, current) then [u] else []
  {
  }

  /** One more upgrade extends a key's list exactly when it is of that key. */
  lemma OfKeySnoc(embedded: seq<Precompile>, upgrades: seq<Precompile>, i: nat, key: nat)
    requires i < |upgrades|
    ensures upgrades[i].key == key ==>
              embedded + OfKey(upgrades[..i + 1], key) == (embedded + OfKey(upgrades[..i], key)) + [upgrades[i]]
    ensures upgrades[i].key != key ==> OfKey(upgrades[..i + 1], key) == OfKey(upgrades[..i], key)
  {
    assert upgrades[..i + 1][..i] == upgrades[..i];
  }

  lemma {:induction false} ActivatingIff(list: seq<Precompile>, parent: Option<nat>, current: nat, u: Precompile)
    ensures u in Activating(list, parent, current) <==>
            && u in list && u.timestamp.Some? && u.timestamp.value <= current
            && (parent.None? || parent.value < u.timestamp.value)
  {
    if list != [] {
      ActivatingIff(list[..|list| - 1], parent, current, u);
      assert list == list[..|list| - 1] + [list[|list| - 1]];
    }
  }

  lemma {:induction false} OfKeyIff(upgrades: seq<Precompile>, key: nat, u: Precompile)
    ensures u in OfKey(upgrades, key) <==> u in upgrades && u.key == key
  {
    if upgrades != [] {
      OfKeyIff(upgrades[..|upgrades| - 1], key, u);
      assert upgrades == upgrades[..|upgrades| - 1] + [upgrades[|upgrades| - 1]];
    }
  }

  /** u is the genesis configuration of the key, or one of its upgrades. */
  ghost predicate Names(c: Config, key: nat, upgrades: seq<Precompile>, u: Precompile) {
    (key in c.genesis && u == c.genesis[key]) || (u in upgrades && u.key == key)
  }

  lemma KeyListIff(c: Config, key: nat, upgrades: seq<Precompile>, u: Precompile)
    ensures u in KeyList(c, key, upgrades) <==> Names(c, key, upgrades, u)
  {
    OfKeyIff(upgrades, key, u);
  }

  /** A configuration activates exactly when its module is registered, it is
      the key's genesis configuration or one of its upgrades, and its time is
      after the parent block and not after the current one. */
  lemma ActivatingConfigsIff(c: Config, key: nat, parent: Option<nat>, current: nat,
                             upgrades: seq<Precompile>, u: Precompile)
    ensures u in ActivatingConfigs(c, key, parent, current, upgrades) <==>
            && key in c.modules
            && ((key in c.genesis && u == c.genesis[key]) || (u in upgrades && u.key == key))
            && u.timestamp.Some? && u.timestamp.value <= current
            && (parent.None? || parent.value < u.timestamp.value)
  {
    ActivatingIff(KeyList(c, key, upgrades), parent, current, u);
    KeyListIff(c, key, upgrades, u);
  }

  method GetActivatingPrecompileConfigs(c: Config, key: nat, parent: Option<nat>, current: nat,
                                        upgrades: seq<Precompile>) returns (configs: seq<Precompile>)
    ensures configs == ActivatingConfigs(c, key, parent, current, upgrades)
    ensures forall u :: u in configs <==>
                        && key in c.modules
                        && ((key in c.genesis && u == c.genesis[key]) || (u in upgrades && u.key == key))
                        && u.timestamp.Some? && u.timestamp.value <= current
                        && (parent.None? || parent.value < u.timestamp.value)
  {
    forall u
      ensures u in ActivatingConfigs(c, key, parent, current, upgrades) <==>
              && key in c.modules
              && ((key in c.genesis && u == c.genesis[key]) || (u in upgrades && u.key == key))
              && u.timestamp.Some? && u.timestamp.value <= current
              && (parent.None? || parent.value < u.timestamp.value)
    {
      ActivatingConfigsIff(c, key, parent, current, upgrades, u);
    }
    configs := [];
    if key !in c.modules {
      return;
    }
    ghost var embedded: seq<Precompile> := [];
    if key in c.genesis {
      embedded := [c.genesis[key]];
      ActivatingSnoc([], c.genesis[key], parent, current);
      assert [] + embedded == embedded;
      if IsForkTransition(c.genesis[key].timestamp, parent, current) {
        configs := configs + [c.genesis[key]];
      }
    }
    var i := 0;
    while i < |upgrades|
      invariant 0 <= i <= |upgrades|
      invariant configs == Activating(embedded + OfKey(upgrades[..i], key), parent, current)
    {
      OfKeySnoc(embedded, upgrades, i, key);
      if upgrades[i].key == key {
        ActivatingSnoc(embedded + OfKey(upgrades[..i], key), upgrades[i], parent, current);
        if IsForkTransition(upgrades[i].timestamp, parent, current) {
          configs := configs + [upgrades[i]];
        }
      }
      i := i + 1;
    }
    assert upgrades[..|upgrades|] == upgrades;
  }

  // ---------- Verification of an upgrade list ----------

  /** The latest configuration of a key before upgrade i.  A timed genesis
      configuration counts as enabled. */
  function LastBefore(c: Config, key: nat, i: nat): Option<(nat, bool)>
    requires i <= |c.upgrades|
  {
    if i == 0 then
      if key in c.genesis && c.genesis[key].timestamp.Some?
      then Some((c.genesis[key].timestamp.value, false)) else None
    else
      var u := c.upgrades[i - 1];
      if u.key == key && u.timestamp.Some? then Some((u.timestamp.value, u.disabled))
      else LastBefore(c, key, i - 1)
  }

  predicate UpgradeOk(c: Config, valid: Precompile -> bool, i: nat)
    requires i < |c.upgrades|
  {
    var u := c.upgrades[i];
    var last := LastBefore(c, u.key, i);
    && u.timestamp.Some?
    && (i > 0 && c.upgrades[i - 1].timestamp.Some? ==> c.upgrades[i - 1].timestamp.value <= u.timestamp.value)
    && u.disabled != (last.None? || last.value.1)
    && (last.Some? ==> last.value.0 < u.timestamp.value)
    && valid(u)
  }

  ghost predicate WellFormed(c: Config, valid: Precompile -> bool) {
    && (forall k :: k in c.genesis ==> valid(c.genesis[k]))
    && (forall i: nat :: i < |c.upgrades| ==> UpgradeOk(c, valid, i))
  }

  /** The checks over the upgrade list accept exactly the well-formed lists. */
  method VerifyPrecompileUpgrades(c: Config, valid: Precompile -> bool) returns (ok: bool)
    ensures ok <==>
            && Alternating(c)
            && (forall k :: k in c.genesis ==> valid(c.genesis[k]))
            && (forall i :: 0 <= i < |c.upgrades| ==> valid(c.upgrades[i]))
    ensures ok <==> WellFormed(c, valid)
  {
    WellFormedIff(c, valid);
    var last;
    ok, last := VerifyGenesisPrecompiles(c, valid);
    if ok {
      ok := VerifyUpgradeList(c, valid, last);
    }
  }

  // ---------- What a well-formed list looks like ----------

  /** Upgrade i is the last one of a key before position j. */
  ghost predicate LastOf(upgrades: seq<Precompile>, key: nat, i: int, j: int)
    requires j <= |upgrades|
  {
    0 <= i < j && upgrades[i].key == key && key !in Keys(upgrades[i + 1..j])
  }

  ghost function Keys(upgrades: seq<Precompile>): set<nat> {
    set u | u in upgrades :: u.key
  }

  /** The genesis configuration of a key has a time. */
  predicate TimedAtGenesis(c: Config, key: nat) {
    key in c.genesis && c.genesis[key].timestamp.Some?
  }

  /** Upgrade j comes after the last upgrade of its key and undoes it.  The
      first upgrade of a key disables a genesis configuration that has a time,
      at a later time, and otherwise enables. */
  ghost predicate AlternatesAt(c: Config, j: nat)
    requires j < |c.upgrades| && forall i :: 0 <= i <= j ==> c.upgrades[i].timestamp.Some?
  {
    var us := c.upgrades;
    && (forall i :: LastOf(us, us[j].key, i, j) ==>
          us[i].timestamp.value < us[j].timestamp.value && us[i].disabled != us[j].disabled)
    && (us[j].key !in Keys(us[..j]) ==>
          && us[j].disabled == TimedAtGenesis(c, us[j].key)
          && (TimedAtGenesis(c, us[j].key) ==> c.genesis[us[j].key].timestamp.value < us[j].timestamp.value))
  }

  /** Every upgrade has a time, times never decrease along the list, and the
      upgrades of one key strictly increase and alternate between disabling and
      enabling. */
  ghost predicate Alternating(c: Config) {
    var us := c.upgrades;
    && (forall i :: 0 <= i < |us| ==> us[i].timestamp.Some?)
    && (forall i, j :: 0 <= i < j < |us| ==> us[i].timestamp.value <= us[j].timestamp.value)
    && (forall j: nat :: j < |us| ==> AlternatesAt(c, j))
  }

  lemma KeysNext(us: seq<Precompile>, i: nat, j: nat)
    requires i <= j < |us|
    ensures Keys(us[i..j + 1]) == Keys(us[i..j]) + {us[j].key}
  {
    assert us[i..j + 1] == us[i..j] + [us[j]];
  }

  /** What is remembered of a key is its last upgrade, or else its timed
      genesis configuration. */
  lemma {:induction false} LastBeforeIs(c: Config, key: nat, n: nat)
    requires n <= |c.upgrades| && forall i :: 0 <= i < n ==> c.upgrades[i].timestamp.Some?
    ensures key !in Keys(c.upgrades[..n]) ==>
              LastBefore(c, key, n) ==
              if TimedAtGenesis(c, key) then Some((c.genesis[key].timestamp.value, false)) else None
    ensures forall i :: LastOf(c.upgrades, key, i, n) ==>
                          LastBefore(c, key, n) == Some((c.upgrades[i].timestamp.value, c.upgrades[i].disabled))
    ensures key in Keys(c.upgrades[..n]) ==> exists i :: LastOf(c.upgrades, key, i, n)
  {
    var us := c.upgrades;
    if n == 0 {
      assert us[..0] == [];
    } else {
      LastBeforeIs(c, key, n - 1);
      KeysNext(us, 0, n - 1);
      assert us[0..n - 1] == us[..n - 1] && us[0..n] == us[..n];
      if us[n - 1].key == key {
        assert us[n..n] == [];
        assert LastOf(us, key, n - 1, n);
      }
      forall i | 0 <= i < n - 1
        ensures LastOf(us, key, i, n) <==> us[n - 1].key != key && LastOf(us, key, i, n - 1)
      {
        KeysNext(us, i + 1, n - 1);
      }
    }
  }

  /** The checks of one upgrade compare it with its neighbour and with the last
      configuration of its key. */
  lemma UpgradeOkIff(c: Config, valid: Precompile -> bool, j: nat)
    requires j < |c.upgrades| && forall i :: 0 <= i <= j ==> c.upgrades[i].timestamp.Some?
    ensures UpgradeOk(c, valid, j) <==>
            && valid(c.upgrades[j])
            && (j > 0 ==> c.upgrades[j - 1].timestamp.value <= c.upgrades[j].timestamp.value)
            && AlternatesAt(c, j)
  {
    LastBeforeIs(c, c.upgrades[j].key, j);
  }

  /** Neighbours that never decrease make the whole list never decrease. */
  lemma {:induction false} TimesMonotone(us: seq<Precompile>, i: nat, j: nat)
    requires i <= j < |us| && forall k :: 0 <= k < |us| ==> us[k].timestamp.Some?
    requires forall k :: 0 < k < |us| ==> us[k - 1].timestamp.value <= us[k].timestamp.value
    ensures us[i].timestamp.value <= us[j].timestamp.value
    decreases j
  {
    if i < j {
      TimesMonotone(us, i, j - 1);
    }
  }

  lemma WellFormedIff(c: Config, valid: Precompile -> bool)
    ensures WellFormed(c, valid) <==>
            && Alternating(c)
            && (forall k :: k in c.genesis ==> valid(c.genesis[k]))
            && (forall i :: 0 <= i < |c.upgrades| ==> valid(c.upgrades[i]))
  {
    hide AlternatesAt;
    if WellFormed(c, valid) {
      WellFormedAlternates(c, valid);
    }
    if Alternating(c) && forall i :: 0 <= i < |c.upgrades| ==> valid(c.upgrades[i]) {
      forall j: nat | j < |c.upgrades|
        ensures UpgradeOk(c, valid, j)
      {
        UpgradeOkIff(c, valid, j);
      }
    }
  }

  lemma WellFormedAlternates(c: Config, valid: Precompile -> bool)
    requires WellFormed(c, valid)
    ensures Alternating(c) && forall i :: 0 <= i < |c.upgrades| ==> valid(c.upgrades[i])
  {
    hide AlternatesAt;
    var us := c.upgrades;
    assert forall i: nat :: i < |us| ==> UpgradeOk(c, valid, i) && us[i].timestamp.Some?;
    forall j: nat | j < |us|
      ensures AlternatesAt(c, j)
    {
      UpgradeOkIff(c, valid, j);
    }
    forall i, j | 0 <= i < j < |us|
      ensures us[i].timestamp.value <= us[j].timestamp.value
    {
      TimesMonotone(us, i, j);
    }
  }

  // ---------- The checks as the loops run them ----------

  ghost predicate TracksLast(c: Config, last: map<nat, (nat, bool)>, i: nat)
    requires i <= |c.upgrades|
  {
    forall k: nat :: LastBefore(c, k, i) == if k in last then Some(last[k]) else None
  }

  method VerifyGenesisPrecompiles(c: Config, valid: Precompile -> bool)
    returns (ok: bool, last: map<nat, (nat, bool)>)
    ensures ok <==> forall k :: k in c.genesis ==> valid(c.genesis[k])
    ensures ok ==> TracksLast(c, last, 0)
  {
    last := map[];
    var keys := c.genesis.Keys;
    while keys != {}
      invariant keys <= c.genesis.Keys
      invariant forall k :: k in c.genesis && k !in keys ==> valid(c.genesis[k])
      invariant forall k: nat :: k in last <==> k in c.genesis && k !in keys && c.genesis[k].timestamp.Some?
      invariant forall k: nat :: k in last ==> last[k] == (c.genesis[k].timestamp.value, false)
      decreases |keys|
    {
      var k :| k in keys;
      keys := keys - {k};
      if !valid(c.genesis[k]) {
        return false, last;
      }
      if c.genesis[k].timestamp.Some? {
        last := last[k := (c.genesis[k].timestamp.value, false)];
      }
    }
    ok := true;
  }

  method VerifyUpgradeList(c: Config, valid: Precompile -> bool, genesisLast: map<nat, (nat, bool)>) returns (ok: bool)
    requires TracksLast(c, genesisLast, 0)
    ensures ok <==> forall i: nat :: i < |c.upgrades| ==> UpgradeOk(c, valid, i)
  {
    var last: map<nat, (nat, bool)> := genesisLast;
    var previous: Option<nat> := None;
    var i := 0;
    while i < |c.upgrades|
      invariant 0 <= i <= |c.upgrades|
      invariant forall j: nat :: j < i ==> UpgradeOk(c, valid, j)
      invariant previous == if i == 0 then None else c.upgrades[i - 1].timestamp
      invariant TracksLast(c, last, i)
    {
      var u := c.upgrades[i];
      var disabled := true;
      var lastTimestamp: Option<nat> := None;
      if u.key in last {
        disabled := last[u.key].1;
        lastTimestamp := Some(last[u.key].0);
      }
      assert LastBefore(c, u.key, i) == if u.key in last then Some(last[u.key]) else None;
      if u.timestamp.None?
         || (previous.Some? && u.timestamp.value < previous.value)
         || disabled == u.disabled
         || (lastTimestamp.Some? && u.timestamp.value <= lastTimestamp.value)
         || !valid(u)
      {
        assert !UpgradeOk(c, valid, i);
        return false;
      }
      last := last[u.key := (u.timestamp.value, u.disabled)];
      previous := u.timestamp;
      i := i + 1;
    }
    ok := true;
  }

  // ---------- Verified lists are sorted per key ----------

  /** Timed configurations strictly increase; only the first may be untimed. */
  ghost predicate Sorted(list: seq<Precompile>) {
    && (forall i :: 0 < i < |list| ==> list[i].timestamp.Some?)
    && (forall i, j :: 0 <= i < j < |list| && list[i].timestamp.Some? && list[j].timestamp.Some? ==>
          list[i].timestamp.value < list[j].timestamp.value)
  }

  lemma SortedAppend(list: seq<Precompile>, u: Precompile)
    requires Sorted(list) && u.timestamp.Some?
    requires list == [] || (|list| == 1 && list[0].timestamp.None?)
             || (list[|list| - 1].timestamp.Some? && list[|list| - 1].timestamp.value < u.timestamp.value)
    ensures Sorted(list + [u])
  {
  }

  /** Extending the list by one upgrade extends the key's list or leaves it. */
  lemma KeyListNext(c: Config, key: nat, n: nat)
    requires n < |c.upgrades|
    ensures KeyList(c, key, c.upgrades[..n + 1]) ==
            KeyList(c, key, c.upgrades[..n]) + if c.upgrades[n].key == key then [c.upgrades[n]] else []
  {
    assert c.upgrades[..n + 1][..n] == c.upgrades[..n];
  }

  lemma {:induction false} PrefixSorted(c: Config, valid: Precompile -> bool, key: nat, n: nat)
    requires WellFormed(c, valid) && n <= |c.upgrades|
    ensures Sorted(KeyList(c, key, c.upgrades[..n]))
    ensures EndsWith(KeyList(c, key, c.upgrades[..n]), LastBefore(c, key, n))
  {
    if n == 0 {
      assert c.upgrades[..0] == [];
    } else {
      PrefixSorted(c, valid, key, n - 1);
      assert UpgradeOk(c, valid, n - 1);
      NextSorted(c, valid, key, n - 1);
    }
  }

  /** The last timed configuration of a key is the last of its list; without
      one the list holds at most an untimed genesis configuration. */
  ghost predicate EndsWith(list: seq<Precompile>, last: Option<(nat, bool)>) {
    match last
    case Some(l) => list != [] && list[|list| - 1].timestamp == Some(l.0)
    case None => list == [] || (|list| == 1 && list[0].timestamp.None?)
  }

  lemma NextSorted(c: Config, valid: Precompile -> bool, key: nat, n: nat)
    requires n < |c.upgrades| && UpgradeOk(c, valid, n)
    requires Sorted(KeyList(c, key, c.upgrades[..n])) && EndsWith(KeyList(c, key, c.upgrades[..n]), LastBefore(c, key, n))
    ensures Sorted(KeyList(c, key, c.upgrades[..n + 1]))
    ensures EndsWith(KeyList(c, key, c.upgrades[..n + 1]), LastBefore(c, key, n + 1))
  {
    KeyListNext(c, key, n);
    if c.upgrades[n].key == key {
      SortedAppend(KeyList(c, key, c.upgrades[..n]), c.upgrades[n]);
    }
  }

  lemma VerifiedSorted(c: Config, valid: Precompile -> bool, key: nat)
    requires WellFormed(c, valid)
    ensures Sorted(KeyList(c, key, c.upgrades))
  {
    PrefixSorted(c, valid, key, |c.upgrades|);
    assert c.upgrades[..|c.upgrades|] == c.upgrades;
  }

  // ---------- Exactly once ----------

  ghost predicate NonDecreasing(times: seq<nat>) {
    forall i, j :: 0 <= i < j < |times| ==> times[i] <= times[j]
  }

  /** The activations of a chain of blocks: the first timestamp is that of
      genesis, which has no parent. */
  function ChainActivations(list: seq<Precompile>, times: seq<nat>): seq<Precompile> {
    if times == [] then []
    else
      var n := |times| - 1;
      ChainActivations(list, times[..n]) + Activating(list, if n == 0 then None else Some(times[n - 1]), times[n])
  }

  lemma ActivatingNone(list: seq<Precompile>, parent: Option<nat>, current: nat)
    requires forall i :: 0 <= i < |list| ==> !IsForkTransition(list[i].timestamp, parent, current)
    ensures Activating(list, parent, current) == []
  {
  }

  /** Splitting a transition at any time in between loses, repeats and reorders
      nothing. */
  lemma {:induction false} ActivatingSplits(list: seq<Precompile>, mid: nat, current: nat)
    requires Sorted(list) && mid <= current
    ensures Activating(list, None, current) ==
            Activating(list, None, mid) + Activating(list, Some(mid), current)
  {
    if list != [] {
      var init, last := list[..|list| - 1], list[|list| - 1];
      ActivatingSplits(init, mid, current);
      var b := Activating(init, Some(mid), current);
      if Forked(last.timestamp, mid) {
        NothingAfter(list, mid, current);
        assert b == [];
      } else if IsForkTransition(last.timestamp, None, current) {
        var a := Activating(init, None, mid);
        assert (a + b) + [last] == a + (b + [last]);
      }
    }
  }

  /** Before a configuration that is active at mid, none activates after mid. */
  lemma NothingAfter(list: seq<Precompile>, mid: nat, current: nat)
    requires Sorted(list) && list != [] && Forked(list[|list| - 1].timestamp, mid)
    ensures Activating(list[..|list| - 1], Some(mid), current) == []
  {
    var init := list[..|list| - 1];
    forall i | 0 <= i < |init|
      ensures !IsForkTransition(init[i].timestamp, Some(mid), current)
    {
      assert init[i] == list[i];
    }
    ActivatingNone(init, Some(mid), current);
  }

  /** For every verified upgrade list and every chain of non-decreasing
      timestamps, the per-block activations concatenate to the activations
      from nothing to the head, in order. */
  lemma {:induction false} ExactlyOnce(list: seq<Precompile>, times: seq<nat>)
    requires Sorted(list) && NonDecreasing(times) && times != []
    ensures ChainActivations(list, times) == Activating(list, None, times[|times| - 1])
  {
    var n := |times| - 1;
    if n == 0 {
      assert times[..0] == [];
    } else {
      ExactlyOnce(list, times[..n]);
      ActivatingSplits(list, times[n - 1], times[n]);
    }
  }

  /** The same for a verified configuration and any registered module. */
  lemma UpgradesExactlyOnce(c: Config, valid: Precompile -> bool, key: nat, times: seq<nat>)
    requires WellFormed(c, valid) && key in c.modules && NonDecreasing(times) && times != []
    ensures ChainActivations(KeyList(c, key, c.upgrades), times) ==
            ActivatingConfigs(c, key, None, times[|times| - 1], c.upgrades)
  {
    VerifiedSorted(c, valid, key);
    ExactlyOnce(KeyList(c, key, c.upgrades), times);
  }

  // ---------- Configuring the accounts ----------

  /** The account of a module: absent, or configured. */
  function Configure(account: Option<Precompile>, list: seq<Precompile>): Option<Precompile> {
    if list == [] then account
    else
      var last := list[|list| - 1];
      if last.disabled then None else Some(last)
  }

  /** The most recent configuration at a time, if any. */
  function ActiveConfig(c: Config, key: nat, time: nat): Option<Precompile> {
    var list := ActivatingConfigs(c, key, None, time, c.upgrades);
    if list == [] then None else Some(list[|list| - 1])
  }

  predicate IsPrecompileEnabled(c: Config, key: nat, time: nat) {
    ActiveConfig(c, key, time).Some? && !ActiveConfig(c, key, time).value.disabled
  }

  /** Every configuration has a time, later than those before it. */
  ghost predicate Forward(list: seq<Precompile>) {
    && (forall i :: 0 <= i < |list| ==> list[i].timestamp.Some?)
    && (forall i, j :: 0 <= i < j < |list| ==> list[i].timestamp.value < list[j].timestamp.value)
  }

  lemma {:induction false} ActivatingSorted(list: seq<Precompile>, parent: Option<nat>, current: nat)
    requires Sorted(list)
    ensures Forward(Activating(list, parent, current))
  {
    if list != [] {
      var init, last := list[..|list| - 1], list[|list| - 1];
      ActivatingSorted(init, parent, current);
      var a := Activating(init, parent, current);
      forall i | 0 <= i < |a| && last.timestamp.Some?
        ensures a[i].timestamp.value < last.timestamp.value
      {
        ActivatingIff(init, parent, current, a[i]);
        var k :| 0 <= k < |init| && init[k] == a[i];
        assert list[k] == a[i];
      }
    }
  }

  /** The activations of a verified list run forward in time. */
  lemma VerifiedInOrder(c: Config, valid: Precompile -> bool, key: nat, parent: Option<nat>, current: nat)
    requires WellFormed(c, valid)
    ensures Forward(ActivatingConfigs(c, key, parent, current, c.upgrades))
  {
    VerifiedSorted(c, valid, key);
    ActivatingSorted(KeyList(c, key, c.upgrades), parent, current);
  }

  /** u is the latest configuration of the key whose time has come. */
  ghost predicate Latest(c: Config, key: nat, time: nat, u: Precompile) {
    && Names(c, key, c.upgrades, u) && u.timestamp.Some? && u.timestamp.value <= time
    && forall v :: Names(c, key, c.upgrades, v) && v.timestamp.Some? && v.timestamp.value <= time ==>
                     v.timestamp.value <= u.timestamp.value
  }

  /** The active configuration of a registered module is the latest one whose
      time has come. */
  lemma ActiveConfigIff(c: Config, valid: Precompile -> bool, key: nat, time: nat, u: Precompile)
    requires WellFormed(c, valid)
    ensures ActiveConfig(c, key, time) == Some(u) <==> key in c.modules && Latest(c, key, time, u)
  {
    hide WellFormed, Activating, KeyList;
    VerifiedInOrder(c, valid, key, None, time);
    var a := ActivatingConfigs(c, key, None, time, c.upgrades);
    forall v
      ensures v in a <==> key in c.modules && Names(c, key, c.upgrades, v)
                          && v.timestamp.Some? && v.timestamp.value <= time
    {
      ActivatingConfigsIff(c, key, None, time, c.upgrades, v);
    }
    if a != [] {
      assert a[|a| - 1] in a;
    }
  }

  /** A precompile is enabled exactly when its module is registered and the
      latest of its configurations whose time has come does not disable it. */
  lemma EnabledIff(c: Config, valid: Precompile -> bool, key: nat, time: nat)
    requires WellFormed(c, valid)
    ensures IsPrecompileEnabled(c, key, time) <==>
            key in c.modules && exists u :: Latest(c, key, time, u) && !u.disabled
  {
    hide WellFormed, Latest, ActivatingConfigs;
    forall u
      ensures ActiveConfig(c, key, time) == Some(u) <==> key in c.modules && Latest(c, key, time, u)
    {
      ActiveConfigIff(c, valid, key, time, u);
    }
    if IsPrecompileEnabled(c, key, time) {
      assert Latest(c, key, time, ActiveConfig(c, key, time).value);
    }
  }

  /** Apply the activations of one transition to every module's account:
      deconfigure when disabled, otherwise configure. */
  method ApplyPrecompileActivations(c: Config, parent: Option<nat>, time: nat, accounts: map<nat, Precompile>)
    returns (updated: map<nat, Precompile>)
    requires forall i, j :: 0 <= i < j < |c.modules| ==> c.modules[i] != c.modules[j]
    ensures forall key: nat ::
              Lookup(updated, key) ==
              Configure(Lookup(accounts, key), ActivatingConfigs(c, key, parent, time, c.upgrades))
  {
    updated := accounts;
    var m := 0;
    while m < |c.modules|
      invariant 0 <= m <= |c.modules|
      invariant forall key: nat :: key in c.modules[..m] ==>
                  Lookup(updated, key) ==
                  Configure(Lookup(accounts, key), ActivatingConfigs(c, key, parent, time, c.upgrades))
      invariant forall key: nat :: key !in c.modules[..m] ==> Lookup(updated, key) == Lookup(accounts, key)
    {
      var key := c.modules[m];
      var configs := GetActivatingPrecompileConfigs(c, key, parent, time, c.upgrades);
      updated := ConfigureModule(updated, key, configs);
      assert key !in c.modules[..m];
      assert c.modules[..m + 1] == c.modules[..m] + [key];
      m := m + 1;
    }
    assert c.modules[..|c.modules|] == c.modules;
  }

  /** Deconfigure or configure one module by each of its activations in turn. */
  method ConfigureModule(accounts: map<nat, Precompile>, key: nat, configs: seq<Precompile>)
    returns (updated: map<nat, Precompile>)
    ensures forall k: nat :: k != key ==> Lookup(updated, k) == Lookup(accounts, k)
    ensures Lookup(updated, key) == Configure(Lookup(accounts, key), configs)
  {
    updated := accounts;
    var i := 0;
    while i < |configs|
      invariant 0 <= i <= |configs|
      invariant forall k: nat :: k != key ==> Lookup(updated, k) == Lookup(accounts, k)
      invariant Lookup(updated, key) == Configure(Lookup(accounts, key), configs[..i])
    {
      if configs[i].disabled {
        updated := updated - {key};
      } else {
        updated := updated[key := configs[i]];
      }
      assert configs[..i + 1] == configs[..i] + [configs[i]];
      i := i + 1;
    }
    assert configs[..|configs|] == configs;
  }

  function Lookup(accounts: map<nat, Precompile>, key: nat): Option<Precompile> {
    if key in accounts then Some(accounts[key]) else None
  }

  /** The account of a module after every block of a chain. */
  function ChainAccount(list: seq<Precompile>, times: seq<nat>): Option<Precompile> {
    if times == [] then None
    else
      var n := |times| - 1;
      Configure(ChainAccount(list, times[..n]),
                Activating(list, if n == 0 then None else Some(times[n - 1]), times[n]))
  }

  lemma {:induction false} AccountFollowsActivations(list: seq<Precompile>, times: seq<nat>)
    ensures ChainAccount(list, times) == Configure(None, ChainActivations(list, times))
  {
    if times != [] {
      AccountFollowsActivations(list, times[..|times| - 1]);
    }
  }

  /** After folding the activations over any chain, a module's account is
      configured exactly when the rules at the head enable the precompile, and
      then with exactly the configuration the rules name. */
  lemma ConfiguredIffEnabled(c: Config, valid: Precompile -> bool, key: nat, times: seq<nat>)
    requires WellFormed(c, valid) && key in c.modules && NonDecreasing(times) && times != []
    ensures var account := ChainAccount(KeyList(c, key, c.upgrades), times);
            && (account.Some? <==> IsPrecompileEnabled(c, key, times[|times| - 1]))
            && (account.Some? ==> account == ActiveConfig(c, key, times[|times| - 1]))
  {
    hide WellFormed, KeyList, Activating, ChainAccount, Sorted, NonDecreasing;
    VerifiedSorted(c, valid, key);
    SortedAccount(KeyList(c, key, c.upgrades), times);
  }

  lemma SortedAccount(list: seq<Precompile>, times: seq<nat>)
    requires Sorted(list) && NonDecreasing(times) && times != []
    ensures ChainAccount(list, times) == Configure(None, Activating(list, None, times[|times| - 1]))
  {
    ExactlyOnce(list, times);
    AccountFollowsActivations(list, times);
  }

  // ---------- State upgrades ----------

  function ActivatingState(list: seq<StateUpgrade>, parent: Option<nat>, current: nat): seq<StateUpgrade> {
    if list == [] then []
    else
      var last := list[|list| - 1];
      ActivatingState(list[..|list| - 1], parent, current)
      + if IsForkTransition(last.timestamp, parent, current) then [last] else []
  }

  lemma {:induction false} ActivatingStateIff(list: seq<StateUpgrade>, parent: Option<nat>, current: nat, u: StateUpgrade)
    ensures u in ActivatingState(list, parent, current) <==>
            && u in list && u.timestamp.Some? && u.timestamp.value <= current
            && (parent.None? || parent.value < u.timestamp.value)
  {
    if list != [] {
      ActivatingStateIff(list[..|list| - 1], parent, current, u);
      assert list == list[..|list| - 1] + [list[|list| - 1]];
    }
  }

  method GetActivatingStateUpgrades(parent: Option<nat>, current: nat, list: seq<StateUpgrade>)
    returns (activating: seq<StateUpgrade>)
    ensures activating == ActivatingState(list, parent, current)
    ensures forall u :: u in activating <==>
                        && u in list && u.timestamp.Some? && u.timestamp.value <= current
                        && (parent.None? || parent.value < u.timestamp.value)
  {
    forall u
      ensures u in ActivatingState(list, parent, current) <==>
              && u in list && u.timestamp.Some? && u.timestamp.value <= current
              && (parent.None? || parent.value < u.timestamp.value)
    {
      ActivatingStateIff(list, parent, current, u);
    }
    activating := [];
    var i := 0;
    while i < |list|
      invariant 0 <= i <= |list|
      invariant activating == ActivatingState(list[..i], parent, current)
    {
      assert list[..i + 1][..i] == list[..i];
      if IsForkTransition(list[i].timestamp, parent, current) {
        activating := activating + [list[i]];
      }
      i := i + 1;
    }
    assert list[..|list|] == list;
  }

  /** Timed, after zero, strictly increasing. */
  ghost predicate StateWellFormed(list: seq<StateUpgrade>) {
    && (forall i :: 0 <= i < |list| ==> list[i].timestamp.Some? && 0 < list[i].timestamp.value)
    && (forall i, j :: 0 <= i < j < |list| && list[i].timestamp.Some? && list[j].timestamp.Some? ==>
          list[i].timestamp.value < list[j].timestamp.value)
  }

  /** Comparing neighbours decides strict order of the whole list. */
  method VerifyStateUpgrades(list: seq<StateUpgrade>) returns (ok: bool)
    ensures ok <==> StateWellFormed(list)
  {
    var previous: Option<nat> := None;
    var i := 0;
    while i < |list|
      invariant 0 <= i <= |list|
      invariant StateWellFormed(list[..i])
      invariant previous == if i == 0 then None else list[i - 1].timestamp
    {
      var t := list[i].timestamp;
      if t.None? || t.value == 0 || (previous.Some? && t.value <= previous.value) {
        assert i > 0 ==> list[..i][i - 1] == list[i - 1];
        return false;
      }
      assert forall j :: 0 <= j < i ==> list[..i][j] == list[j] && list[..i + 1][j] == list[j];
      assert forall j :: 0 <= j < i ==> list[..i][j].timestamp.value <= previous.value;
      previous := t;
      i := i + 1;
    }
    assert list[..|list|] == list;
    ok := true;
  }

  /** State upgrades applied by the blocks after genesis. */
  function ChainStateUpgrades(list: seq<StateUpgrade>, times: seq<nat>): seq<StateUpgrade> {
    if |times| <= 1 then []
    else
      var n := |times| - 1;
      ChainStateUpgrades(list, times[..n]) + ActivatingState(list, Some(times[n - 1]), times[n])
  }

  lemma StateActivatingNone(list: seq<StateUpgrade>, parent: Option<nat>, current: nat)
    requires forall i :: 0 <= i < |list| ==> !IsForkTransition(list[i].timestamp, parent, current)
    ensures ActivatingState(list, parent, current) == []
  {
  }

  /** Before an upgrade that is active at mid, none activates after mid. */
  lemma NoneAfter(list: seq<StateUpgrade>, mid: nat, current: nat)
    requires StateWellFormed(list) && list != [] && Forked(list[|list| - 1].timestamp, mid)
    ensures ActivatingState(list[..|list| - 1], Some(mid), current) == []
  {
    var init := list[..|list| - 1];
    forall i | 0 <= i < |init|
      ensures !IsForkTransition(init[i].timestamp, Some(mid), current)
    {
      assert init[i] == list[i];
    }
    StateActivatingNone(init, Some(mid), current);
  }

  lemma {:induction false} StateActivatingSplits(list: seq<StateUpgrade>, first: nat, mid: nat, current: nat)
    requires StateWellFormed(list) && first <= mid <= current
    ensures ActivatingState(list, Some(first), current) ==
            ActivatingState(list, Some(first), mid) + ActivatingState(list, Some(mid), current)
  {
    if list != [] {
      var init, last := list[..|list| - 1], list[|list| - 1];
      StateActivatingSplits(init, first, mid, current);
      var b := ActivatingState(init, Some(mid), current);
      if Forked(last.timestamp, mid) {
        NoneAfter(list, mid, current);
        assert b == [];
      } else if IsForkTransition(last.timestamp, Some(first), current) {
        var a := ActivatingState(init, Some(first), mid);
        assert (a + b) + [last] == a + (b + [last]);
      }
    }
  }

  /** Each verified state upgrade timed after genesis is applied exactly once,
      in order, by the chain that reaches its time; the others never. */
  lemma {:induction false} StateExactlyOnce(list: seq<StateUpgrade>, times: seq<nat>)
    requires StateWellFormed(list) && NonDecreasing(times) && times != []
    ensures ChainStateUpgrades(list, times) == ActivatingState(list, Some(times[0]), times[|times| - 1])
  {
    var n := |times| - 1;
    if n == 0 {
      StateActivatingNone(list, Some(times[0]), times[0]);
    } else {
      StateExactlyOnce(list, times[..n]);
      StateActivatingSplits(list, times[0], times[n - 1], times[n]);
    }
  }
}
