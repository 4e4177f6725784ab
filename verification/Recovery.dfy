/** Regenerating the state of the last accepted block after a restart. */
module Recovery {
  import opened Arithmetic
  import opened BlockTree
  import opened CanonicalChain
  import opened ChainRuns

  datatype Error =
    | GenesisStateMissing
    | MissingBlock
    | HistoricalStateUnavailable
    | TipMissing
    | ParentStateMissing

  /** The accepted blocks above height t on the chain of l, in order. */
  function Above(l: Block, t: nat): (bs: seq<Block>)
    requires t <= l.Number()
    ensures |bs| == l.Number() - t
    ensures forall i :: 0 <= i < |bs| ==> bs[i] == l.At(t + 1 + i)
  {
    if t == l.Number() then [] else Above(l.parent, t) + [l]
  }

  /** The blocks whose indices reprocessing writes, and the disks it passes
      through: those above a tip on the chain of l. */
  function Unindexed(d: Disk, l: Block): seq<Block> {
    if d.acceptorTip.None? || TipAhead(d, l) then [] else Above(l, d.acceptorTip.value.Number())
  }

  function UnindexedDisks(d: Disk, l: Block): seq<Disk> {
    if d.acceptorTip.None? then [] else TipDisks(d, l, d.acceptorTip.value.Number())
  }

  class StateRecovery {
    var disk: Disk
    var persisted: set<nat>   // roots whose trie is on disk
    var live: set<nat>        // roots held by the trie database in memory
    var indexed: seq<Block>   // accepted indices written, in order
    ghost var written: seq<Disk>

    constructor (d: Disk, tries: set<nat>)
      ensures disk == d && persisted == tries && live == {} && indexed == [] && written == []
    {
      disk := d;
      persisted := tries;
      live := {};
      indexed := [];
      written := [];
    }

    predicate Opens(root: nat)
      reads this
    {
      root in persisted || root in live
    }

    /** Step back from start until a state opens, at least once and at most
        reexec times; without a budget start itself is the answer. */
    method FindBase(start: Block, reexec: nat) returns (err: Option<Error>, base: Block)
      requires AllStored(disk, start) && live == {}
      ensures reexec == 0 ==> err.None? && base == start
      ensures 0 < reexec ==> (err.None? <==> HasBase(start, persisted, reexec))
      ensures 0 < reexec && err.None? ==> start.DescendsFrom(base) && base != start && base.root in persisted
    {
      base := start;
      err := if reexec == 0 then None else Some(HistoricalStateUnavailable);
      var i := 0;
      while i < reexec && err.Some?
        invariant 0 <= i <= reexec
        invariant reexec == 0 ==> err.None? && base == start
        invariant start.DescendsFrom(base) && base.Number() == start.Number() - i
        invariant err.None? && 0 < reexec ==> 0 < i && base.root in persisted
        invariant err.Some? ==> forall n: nat :: base.Number() <= n < start.Number() ==> start.At(n).root !in persisted
        decreases reexec - i, err.Some?
      {
        if base.Number() == 0 {
          return Some(GenesisStateMissing), base;
        }
        AtAt(start, base.Number(), base.Number() - 1);
        assert start.At(base.Number() - 1) in disk.blocks;
        if base.parent !in disk.blocks {
          return Some(MissingBlock), base;
        }
        base := base.parent;
        i := i + 1;
        if Opens(base.root) {
          err := None;
        }
      }
      if err.None? && 0 < reexec {
        assert start.At(base.Number()).root in persisted;
      }
    }

    /** Re-executing an accepted block on its parent's state reproduces its
        root; it fails only when the parent's state cannot be opened. */
    method ReprocessBlock(parent: Block, b: Block) returns (ok: bool)
      requires b.Child? && b.parent == parent
      modifies this`live
      ensures ok == old(Opens(parent.root))
      ensures live == if ok then old(live) + {b.root} else old(live)
    {
      ok := Opens(parent.root);
      if ok {
        live := live + {b.root};
      }
    }

    method WriteAcceptedIndices(b: Block)
      modifies this`disk, this`indexed, this`written
      ensures disk == old(disk).(acceptorTip := Some(b))
      ensures indexed == old(indexed) + [b]
      ensures written == old(written) + [disk]
    {
      disk := disk.(acceptorTip := Some(b));
      indexed := indexed + [b];
      written := written + [disk];
    }

    /** Bring the state and the accepted indices up to l.  It succeeds exactly
        when nothing is to be done or a base state is within the budget; then
        the state of l is available, every block above a tip on the accepted
        chain has its indices written once and in order, and a tip above l
        stays. */
    method ReprocessState(l: Block, reexec: nat) returns (err: Option<Error>)
      requires Indexed(disk, l) && live == {} && TipOk(disk, l)
      modifies this
      ensures err.None? <==> old(Reprocesses(disk, l, persisted, reexec))
      ensures err.None? ==>
                && disk == CaughtUp(old(disk), l)
                && indexed == old(indexed) + Unindexed(old(disk), l)
                && written == old(written) + UnindexedDisks(old(disk), l)
      ensures err.None? && 0 < reexec ==> persisted == old(persisted) + {l.root}
      ensures err.Some? ==>
                disk == old(disk) && indexed == old(indexed) && written == old(written) && persisted == old(persisted)
    {
      var tip := disk.acceptorTip;
      if Opens(l.root) && (tip.None? || tip.value == l) {
        return None;
      }
      var current := l;
      if tip.Some? {
        TipStored(disk, l);
        current := tip.value;
        if current !in disk.blocks {
          return Some(TipMissing);
        }
      }
      err, current := FindBase(current, reexec);
      if err.Some? {
        return;
      }
      if tip.Some? && l.DescendsFrom(tip.value) && 0 < reexec {
        DescendsTrans(l, tip.value, current);
      }
      err := Replay(l, current);
    }

    /** The canonical block after b. */
    method NextCanonical(l: Block, b: Block) returns (next: Block)
      requires disk.canon == Canonical(l) && l.DescendsFrom(b) && b.Number() < l.Number()
      ensures next.Child? && next.parent == b && l.DescendsFrom(next)
    {
      next := disk.canon[b.Number() + 1];
      AtAt(l, b.Number() + 1, b.Number());
    }

    /** Re-execute the canonical blocks from base up to l. */
    method Replay(l: Block, base: Block) returns (err: Option<Error>)
      requires Indexed(disk, l) && live == {} && TipOk(disk, l)
      requires l.DescendsFrom(base) || l.Number() < base.Number()
      requires disk.acceptorTip.Some? && !TipAhead(disk, l) ==> disk.acceptorTip.value.DescendsFrom(base)
      modifies this
      ensures err.None? <==> l.Number() <= base.Number() || old(Opens(base.root))
      ensures err.None? ==>
                && disk == CaughtUp(old(disk), l)
                && indexed == old(indexed) + Unindexed(old(disk), l)
                && written == old(written) + UnindexedDisks(old(disk), l)
                && persisted == if l.Number() <= base.Number() then old(persisted) else old(persisted) + {l.root}
      ensures err.Some? ==>
                disk == old(disk) && indexed == old(indexed) && written == old(written) && persisted == old(persisted)
    {
      var acceptorTip := disk.acceptorTip;
      var current := base;
      var previousRoot := None;
      var writeIndices := false;
      while current.Number() < l.Number()
        invariant if base.Number() < l.Number() then l.DescendsFrom(current) && base.Number() <= current.Number()
                  else current == base
        invariant persisted == old(persisted)
        invariant disk == old(disk).(acceptorTip := disk.acceptorTip)
        invariant live == if previousRoot.None? then {} else {previousRoot.value}
        invariant previousRoot.None? <==> current == base
        invariant previousRoot.Some? ==> previousRoot.value == current.root && old(Opens(base.root))
        invariant writeIndices <==> Passed(acceptorTip, current) && previousRoot.Some?
        invariant if writeIndices then indexed == old(indexed) + Above(current, acceptorTip.value.Number())
                                        && written == old(written) + TipDisks(old(disk), current, acceptorTip.value.Number())
                                        && disk.acceptorTip == Some(current)
                  else indexed == old(indexed) && written == old(written) && disk == old(disk)
      {
        var parent := current;
        current := NextCanonical(l, current);
        TipReached(l, parent, acceptorTip);
        if Some(parent) == acceptorTip {
          writeIndices := true;
        }
        var ok := ReprocessBlock(parent, current);
        if !ok {
          return Some(ParentStateMissing);
        }
        if previousRoot.Some? && previousRoot.value != current.root {
          live := live - {previousRoot.value};
        }
        previousRoot := Some(current.root);
        if writeIndices {
          WriteAcceptedIndices(current);
        }
      }
      if previousRoot.Some? {
        persisted := persisted + {previousRoot.value};
      }
      err := None;
    }
  }

  /** The replay has gone past the stored tip. */
  predicate Passed(tip: Option<Block>, current: Block) {
    tip.Some? && tip.value.Number() < current.Number()
  }

  /** The stored tip and its ancestors are stored. */
  lemma TipStored(d: Disk, l: Block)
    requires Indexed(d, l) && TipOk(d, l) && d.acceptorTip.Some?
    ensures d.acceptorTip.value in d.blocks && AllStored(d, d.acceptorTip.value)
  {
    if l.DescendsFrom(d.acceptorTip.value) {
      StoredAncestors(d, l, d.acceptorTip.value);
    } else {
      StoredChild(d, d.acceptorTip.value);
    }
  }

  /** On the chain of l the stored tip is met at its height. */
  lemma TipReached(l: Block, b: Block, tip: Option<Block>)
    requires l.DescendsFrom(b) && b.Number() < l.Number()
    requires tip.Some? ==> l.DescendsFrom(tip.value) || (tip.value.Child? && tip.value.parent == l)
    ensures Some(b) == tip <==> tip.Some? && tip.value.Number() == b.Number()
  {
  }

  /** Tries are committed at every multiple of the commit interval up to b. */
  ghost predicate CommittedUpTo(b: Block, interval: nat, tries: set<nat>)
    requires 0 < interval
  {
    forall n: nat :: n <= b.Number() && n % interval == 0 ==> b.At(n).root in tries
  }

  lemma RoundDown(a: nat, interval: nat) returns (n: nat)
    requires 0 < interval
    ensures n <= a < n + interval && n % interval == 0
  {
    n := interval * (a / interval);
    DivFacts(a, interval);
    ModUnique(n, interval, a / interval, 0);
  }

  /** In pruning mode the budget of twice the commit interval always reaches a
      base state from a tip above genesis. */
  lemma PruningFindsBase(tip: Block, interval: nat, tries: set<nat>)
    requires 0 < interval && CommittedUpTo(tip, interval, tries)
    ensures HasBase(tip, tries, 2 * interval) <==> 0 < tip.Number()
  {
    if 0 < tip.Number() {
      var n := RoundDown(tip.Number() - 1, interval);
      assert tip.At(n).root in tries;
    }
  }

  /** A tip stored at genesis cannot be reprocessed, whatever states exist. */
  lemma GenesisTipFails(d: Disk, l: Block, tries: set<nat>, reexec: nat)
    requires d.acceptorTip.Some? && d.acceptorTip.value.Genesis? && l != d.acceptorTip.value && 0 < reexec
    ensures !Reprocesses(d, l, tries, reexec)
  {
  }
}
