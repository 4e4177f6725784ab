/** The block chain object: the loops and branches of the implementation,
    proved to carry out the steps of [CanonicalChain].  The ghost field
    [written] records the disk after each batch write. */
module BlockChain {
  import opened BlockTree
  import opened Buffers
  import opened CanonicalChain
  import opened ChainRuns

  datatype Error =
    | CurrentHeadMissing
    | InvalidOldChain
    | InvalidNewChain
    | OrphansFinalized
    | ParentNotLastAccepted
    | NotVerified
    | HeadMissing
    | LastAcceptedMissing

  class BlockChain {
    var disk: Disk
    var current: Block
    var currentHeader: Block
    var lastAccepted: Block
    var acceptorTip: Block
    var queue: seq<Block>
    var accepted: Fifo<nat, Block>
    ghost var written: seq<Disk>

    ghost function St(): State
      reads this
    {
      State(disk, current, currentHeader, lastAccepted, acceptorTip, queue, accepted)
    }

    ghost predicate Valid()
      reads this
    {
      Inv(St())
    }

    /** What is accepted and processed is as in s. */
    ghost predicate Unmoved(s: State)
      reads this
    {
      && lastAccepted == s.lastAccepted && acceptorTip == s.acceptorTip && queue == s.queue
      && accepted == s.accepted && disk.acceptorTip == s.disk.acceptorTip
    }

    method GetBlock(b: Block) returns (r: Option<Block>)
      ensures r == if b in disk.blocks then Some(b) else None
    {
      if b in disk.blocks {
        return Some(b);
      }
      return None;
    }

    /** Follow the parent hash; the parent hash of a genesis block is unknown. */
    method GetParent(b: Block) returns (r: Option<Block>)
      ensures r == if b.Child? && b.parent in disk.blocks then Some(b.parent) else None
    {
      if b.Genesis? {
        return None;
      }
      r := GetBlock(b.parent);
    }

    method WriteHeadBlock(b: Block)
      modifies this
      ensures St() == old(St()).(disk := SetHead(old(disk), b), current := b, currentHeader := b)
      ensures written == old(written) + [disk]
    {
      disk := SetHead(disk, b);
      written := written + [disk];
      currentHeader := b;
      current := b;
    }

    /** A reorg may run when the stored chains are intact above finality. */
    ghost predicate CanReorg(newHead: Block)
      reads this
    {
      && AllStored(disk, current) && current.DescendsFrom(lastAccepted)
      && newHead in disk.blocks
      && (newHead.DescendsFrom(lastAccepted) ==>
            && AllStored(disk, newHead)
            && Common(current, newHead).Some?
            && AgreesTo(disk, Common(current, newHead).value))
    }

    /** Where the walk stands: both cursors on their chains, the common block
        still ahead, and the new chain collected down to its cursor. */
    ghost predicate Walking(newHead: Block, oldBlock: Block, newBlock: Block, newChain: seq<Block>)
      reads this
    {
      && current.DescendsFrom(oldBlock) && newHead.DescendsFrom(newBlock)
      && Common(oldBlock, newBlock) == Common(current, newHead)
      && |newChain| == newHead.Number() - newBlock.Number()
      && (forall i :: 0 <= i < |newChain| ==> newChain[i] == newHead.At(newHead.Number() - i))
    }

    /** Walk both chains back to their common block.  The new chain is
        collected from its head downwards. */
    method FindCommon(newHead: Block) returns (err: Option<Error>, common: Block, newChain: seq<Block>)
      requires CanReorg(newHead)
      ensures newHead.DescendsFrom(lastAccepted) ==> err.None?
      ensures err.None? ==>
                && Common(current, newHead) == Some(common) && newHead.DescendsFrom(common)
                && |newChain| == newHead.Number() - common.Number()
                && forall i :: 0 <= i < |newChain| ==> newChain[i] == newHead.At(newHead.Number() - i)
    {
      CommonIsHighest(current, newHead);
      var found := GetBlock(current);
      assert current.At(current.Number()) in disk.blocks;
      if found.None? {
        return Some(CurrentHeadMissing), newHead, [];
      }
      var oldBlock, newBlock;
      err, oldBlock, newBlock, newChain := LevelChains(newHead, found.value);
      if err.Some? {
        return err, newHead, [];
      }
      err, common, newChain := MeetChains(newHead, oldBlock, newBlock, newChain);
    }

    /** Bring the longer chain down to the height of the shorter one. */
    method LevelChains(newHead: Block, oldHead: Block)
      returns (err: Option<Error>, oldBlock: Block, newBlock: Block, newChain: seq<Block>)
      requires CanReorg(newHead) && oldHead == current
      ensures newHead.DescendsFrom(lastAccepted) ==> err.None?
      ensures err.None? ==> Walking(newHead, oldBlock, newBlock, newChain) && oldBlock.Number() == newBlock.Number()
    {
      oldBlock, newBlock, newChain := oldHead, newHead, [];
      while oldBlock.Number() != newBlock.Number()
        invariant Walking(newHead, oldBlock, newBlock, newChain)
        invariant newHead.DescendsFrom(lastAccepted) ==> Common(oldBlock, newBlock).Some?
        decreases oldBlock.Number() + newBlock.Number()
      {
        if oldBlock.Number() > newBlock.Number() {
          ParentStep(current, oldBlock);
          assert current.At(oldBlock.Number() - 1) in disk.blocks;
          var p := GetParent(oldBlock);
          oldBlock := p.value;
        } else {
          ParentStep(newHead, newBlock);
          newChain := newChain + [newBlock];
          var p := GetParent(newBlock);
          if p.None? {
            assert newHead.At(newBlock.Number() - 1) !in disk.blocks;
            return Some(InvalidNewChain), newHead, newHead, [];
          }
          newBlock := p.value;
        }
      }
      err := None;
    }

    /** Step both chains down together until they meet. */
    method MeetChains(newHead: Block, oldStart: Block, newStart: Block, start: seq<Block>)
      returns (err: Option<Error>, common: Block, newChain: seq<Block>)
      requires CanReorg(newHead)
      requires Walking(newHead, oldStart, newStart, start) && oldStart.Number() == newStart.Number()
      ensures newHead.DescendsFrom(lastAccepted) ==> err.None?
      ensures err.None? ==> Walking(newHead, common, common, newChain)
    {
      var oldBlock, newBlock := oldStart, newStart;
      newChain := start;
      while oldBlock != newBlock
        invariant oldBlock.Number() == newBlock.Number()
        invariant Walking(newHead, oldBlock, newBlock, newChain)
        decreases oldBlock.Number()
      {
        newChain := newChain + [newBlock];
        var p := GetParent(oldBlock);
        ParentStep(current, oldBlock);
        assert oldBlock.Child? ==> current.At(oldBlock.Number() - 1) in disk.blocks;
        if p.None? {
          return Some(InvalidOldChain), newHead, [];
        }
        var q := GetParent(newBlock);
        ParentStep(newHead, newBlock);
        if q.None? {
          assert newHead.At(newBlock.Number() - 1) !in disk.blocks;
          return Some(InvalidNewChain), newHead, [];
        }
        oldBlock, newBlock := p.value, q.value;
      }
      common := oldBlock;
      err := None;
    }

    method Reorg(newHead: Block) returns (err: Option<Error>)
      requires CanReorg(newHead)
      modifies this
      ensures err.None? <==> newHead.DescendsFrom(lastAccepted)
      ensures err.Some? ==> St() == old(St()) && written == old(written)
      ensures err.None? ==>
                && old(Common(current, newHead)).Some?
                && newHead.DescendsFrom(old(Common(current, newHead)).value)
                && var ds := ReorgDisks(old(disk), newHead, old(Common(current, newHead)).value.Number());
                && disk == ds[|ds| - 2]
                && written == old(written) + ds[..|ds| - 1]
                && St() == old(St()).(disk := disk, current := current, currentHeader := currentHeader)
    {
      CommonIsHighest(current, newHead);
      var common, newChain;
      err, common, newChain := FindCommon(newHead);
      if err.Some? {
        return;
      }
      if common.Number() < lastAccepted.Number() {
        return Some(OrphansFinalized);
      }
      AncestorsComparable(current, lastAccepted, common);
      DescendsTrans(newHead, common, lastAccepted);
      ghost var d0 := disk;
      WriteNewChain(newHead, newChain, common.Number());
      TrimAbove(newHead, common, d0);
    }

    /** Write the heads of the collected chain upwards, except newHead itself. */
    method WriteNewChain(newHead: Block, newChain: seq<Block>, ghost c: nat)
      requires c <= newHead.Number() && |newChain| == newHead.Number() - c
      requires forall i :: 0 <= i < |newChain| ==> newChain[i] == newHead.At(newHead.Number() - i)
      modifies this
      ensures St() == old(St()).(disk := disk, current := current, currentHeader := currentHeader)
      ensures disk == WriteHeads(old(disk), newHead, c, LastEarlyHead(newHead, c))
      ensures written == old(written) + EarlyHeads(old(disk), newHead, c, LastEarlyHead(newHead, c))
    {
      var i := |newChain| - 1;
      ghost var h := c;
      while 1 <= i
        invariant c <= h <= LastEarlyHead(newHead, c)
        invariant if newChain == [] then i == -1 else 0 <= i && h == newHead.Number() - i - 1
        invariant disk == WriteHeads(old(disk), newHead, c, h)
        invariant written == old(written) + EarlyHeads(old(disk), newHead, c, h)
        invariant St() == old(St()).(disk := disk, current := current, currentHeader := currentHeader)
      {
        h := h + 1;
        WriteHeadBlock(newChain[i]);
        i := i - 1;
      }
    }

    /** Delete the index entries above newHead, up to the first missing one. */
    method TrimAbove(newHead: Block, ghost common: Block, ghost d0: Disk)
      requires newHead.DescendsFrom(common) && AgreesTo(d0, common)
      requires disk == WriteHeads(d0, newHead, common.Number(), LastEarlyHead(newHead, common.Number()))
      modifies this
      ensures St() == old(St()).(disk := Trim(old(disk), newHead.Number()))
      ensures written == old(written) + [disk]
    {
      ghost var top := LastEarlyHead(newHead, common.Number());
      WriteHeadsIndex(d0, newHead, common.Number(), top);
      assert common.Number() in d0.canon;
      assert forall n: nat, m: nat :: n in disk.canon && m <= n ==> m in disk.canon;
      var n := newHead.Number() + 1;
      var dropped: set<nat> := {};
      while n in disk.canon
        invariant newHead.Number() + 1 <= n
        invariant forall k: nat :: k in dropped <==> newHead.Number() < k < n
        invariant dropped <= disk.canon.Keys
        invariant disk == old(disk)
        decreases disk.canon.Keys - dropped
      {
        dropped := dropped + {n};
        n := n + 1;
      }
      assert disk.canon - dropped == Trim(disk, newHead.Number()).canon;
      disk := disk.(canon := disk.canon - dropped);
      written := written + [disk];
    }

    /** Move the head to an inserted block, with a reorg when it does not
        extend the head. */
    method WriteKnownBlock(b: Block) returns (err: Option<Error>)
      requires b != current
      requires if b.Child? && b.parent == current then b.DescendsFrom(lastAccepted) else CanReorg(b)
      modifies this
      ensures err.None? <==> b.DescendsFrom(lastAccepted)
      ensures err.Some? ==> St() == old(St()) && written == old(written)
      ensures err.None? && b.Child? && b.parent == old(current) ==>
                && St() == old(St()).(disk := SetHead(old(disk), b), current := b, currentHeader := b)
                && written == old(written) + [disk]
      ensures err.None? && !(b.Child? && b.parent == old(current)) ==>
                && old(Common(current, b)).Some?
                && b.DescendsFrom(old(Common(current, b)).value)
                && var ds := ReorgDisks(old(disk), b, old(Common(current, b)).value.Number());
                && St() == old(St()).(disk := ds[|ds| - 1], current := b, currentHeader := b)
                && written == old(written) + ds
    {
      if !(b.Child? && b.parent == current) {
        err := Reorg(b);
        if err.Some? {
          return;
        }
      }
      WriteHeadBlock(b);
      err := None;
    }

    method SetPreference(b: Block) returns (err: Option<Error>)
      requires Valid() && b in disk.blocks
      modifies this
      ensures Valid()
      ensures St() == Step(old(St()), Prefer(b))
      ensures err.None? <==> b.DescendsFrom(old(lastAccepted))
      ensures err.None? ==> current == b && Indexed(disk, b) && lastAccepted == old(lastAccepted)
      ensures err.Some? ==> St() == old(St()) && written == old(written)
      ensures written == old(written) + Disks(old(St()), Prefer(b))
    {
      PreferStep(St(), b);
      if current == b {
        return None;
      }
      err := WriteKnownBlock(b);
    }

    method InsertBlock(b: Block, verified: bool) returns (err: Option<Error>)
      requires Valid()
      modifies this
      ensures Valid()
      ensures St() == Step(old(St()), Insert(b, verified))
      ensures err.None? <==> verified && b.Child? && b.parent in old(disk.blocks)
      ensures err.None? ==>
                && disk.blocks == old(disk.blocks) + {b}
                && current == (if b.parent == old(current) then b else old(current))
                && Unmoved(old(St()))
      ensures err.Some? ==> St() == old(St())
      ensures written == old(written) + Disks(old(St()), Insert(b, verified))
    {
      StepKeepsInv(St(), Insert(b, verified));
      if !verified || b.Genesis? || b.parent !in disk.blocks {
        return Some(NotVerified);
      }
      disk := disk.(blocks := disk.blocks + {b});
      written := written + [disk];
      if b.parent == current {
        WriteHeadBlock(b);
      }
      err := None;
    }

    method Accept(b: Block) returns (err: Option<Error>)
      requires Valid() && Legal(St(), CanonicalChain.Accept(b))
      modifies this
      ensures Valid()
      ensures St() == Step(old(St()), CanonicalChain.Accept(b))
      ensures err.None? <==> b.Child? && b.parent == old(lastAccepted)
      ensures err.None? ==>
                && lastAccepted == b && queue == old(queue) + [b]
                && current == (if old(current).DescendsFrom(b) then old(current) else b)
                && disk.blocks == old(disk.blocks) && disk.acceptorTip == old(disk.acceptorTip)
                && acceptorTip == old(acceptorTip) && accepted == old(accepted)
      ensures err.Some? ==> St() == old(St())
      ensures written == old(written) + Disks(old(St()), CanonicalChain.Accept(b))
    {
      StepKeepsInv(St(), CanonicalChain.Accept(b));
      assert disk.canon == Canonical(current);
      if !(b.Child? && b.parent == lastAccepted) {
        return Some(ParentNotLastAccepted);
      }
      if !(b.Number() in disk.canon && disk.canon[b.Number()] == b) {
        err := SetPreference(b);
        if err.Some? {
          return;
        }
      }
      lastAccepted := b;
      queue := queue + [b];
      err := None;
    }

    method Reject(b: Block)
      requires Valid() && b.ConflictsWith(lastAccepted)
      modifies this
      ensures Valid()
      ensures St() == Step(old(St()), CanonicalChain.Reject(b))
      ensures disk.blocks == old(disk.blocks) - {b} && current == old(current) && Unmoved(old(St()))
      ensures written == old(written) + Disks(old(St()), CanonicalChain.Reject(b))
    {
      StepKeepsInv(St(), CanonicalChain.Reject(b));
      disk := disk.(blocks := disk.blocks - {b});
      written := written + [disk];
    }

    /** One turn of the acceptor, if a block is waiting. */
    method ProcessNext()
      requires Valid()
      modifies this
      ensures Valid()
      ensures St() == Step(old(St()), Process)
      ensures old(queue) == [] ==> St() == old(St())
      ensures old(queue) != [] ==>
                && acceptorTip == old(queue)[0] && disk.acceptorTip == Some(old(queue)[0])
                && queue == old(queue)[1..]
                && (0 < accepted.limit ==> accepted.Get(acceptorTip.Number()) == Some(acceptorTip))
                && current == old(current) && lastAccepted == old(lastAccepted) && disk.blocks == old(disk.blocks)
      ensures written == old(written) + Disks(old(St()), Process)
    {
      StepKeepsInv(St(), Process);
      if queue != [] {
        var next := queue[0];
        disk := disk.(acceptorTip := Some(next));
        written := written + [disk];
        accepted := accepted.Put(next.Number(), next);
        acceptorTip := next;
        queue := queue[1..];
      }
    }

    /** The markers read back from disk, before the head is repaired. */
    constructor Restore(d: Disk, l: Block, limit: nat)
      ensures St() == State(d, d.headBlock, d.headHeader, l, l, [], Fifo(limit, [], map[]))
      ensures written == []
    {
      disk := d;
      current := d.headBlock;
      currentHeader := d.headHeader;
      lastAccepted := l;
      acceptorTip := l;
      queue := [];
      accepted := Fifo(limit, [], map[]);
      written := [];
    }

    /** Restore the head recorded on disk, then make the last accepted block
        the head.  It fails only when one of the two blocks is missing. */
    static method LoadLastState(d: Disk, l: Block, limit: nat) returns (err: Option<Error>, bc: BlockChain?)
      requires d.headBlock in d.blocks && l in d.blocks ==> Recoverable(d, l)
      ensures err.None? <==> d.headBlock in d.blocks && l in d.blocks
      ensures err.None? <==> bc != null
      ensures bc != null ==>
                && fresh(bc)
                && bc.St() == Load(d, l, limit).(disk := Repaired(d, l), accepted := Fifo(limit, [], map[]))
                && Indexed(bc.disk, l)
                && bc.written == RepairDisks(d, l)
    {
      bc := null;
      if d.headBlock !in d.blocks {
        return Some(HeadMissing), null;
      }
      if l !in d.blocks {
        return Some(LastAcceptedMissing), null;
      }
      bc := new BlockChain.Restore(d, l, limit);
      LoadRepairs(d, l, limit);
      err := None;
      if bc.current != l {
        StoredAncestors(d, d.headBlock, l);
        CommonIsHighest(bc.current, l);
        assert Common(bc.current, l).value == l;
        err := bc.WriteKnownBlock(l);
        ReorgIndex(d, l, l);
      }
    }

    method WarmAcceptedCaches()
      requires Valid() && accepted.window == [] && accepted.m == map[]
      modifies this`accepted
      ensures accepted == Warmed(acceptorTip, old(accepted.limit))
      ensures forall n: nat :: accepted.Get(n) ==
                               if 1 <= n <= acceptorTip.Number() < n + old(accepted.limit)
                               then Some(acceptorTip.At(n)) else None
    {
      WarmedHolds(acceptorTip, accepted.limit);
      if accepted.limit == 0 || acceptorTip.Number() < 1 {
        return;
      }
      LinkedDescends(acceptorTip, queue, lastAccepted);
      DescendsTrans(current, lastAccepted, acceptorTip);
      var i := 1;
      if accepted.limit - 1 < acceptorTip.Number() {
        i := acceptorTip.Number() - (accepted.limit - 1);
      }
      ghost var start := i;
      while i <= acceptorTip.Number()
        invariant start <= i && accepted.limit == old(accepted.limit)
        invariant WarmFrom(accepted, acceptorTip, i) == WarmFrom(old(accepted), acceptorTip, start)
      {
        if i !in disk.canon {
          break;
        }
        AtAt(current, acceptorTip.Number(), i);
        accepted := accepted.Put(i, disk.canon[i]);
        i := i + 1;
      }
    }
  }

  /** The last block of the walk back is the parent at the height below. */
  lemma ParentStep(h: Block, b: Block)
    requires h.DescendsFrom(b)
    ensures b.Child? ==> h.DescendsFrom(b.parent) && h.At(b.Number() - 1) == b.parent
  {
    if b.Child? {
      AtAt(h, b.Number(), b.Number() - 1);
    }
  }
}
