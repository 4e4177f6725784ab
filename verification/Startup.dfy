/** Starting a node: load the last state, reprocess, warm the caches. */
module Startup {
  import opened BlockTree
  import opened Buffers
  import opened CanonicalChain
  import opened ChainRuns
  import opened BlockChain
  import opened Recovery

  /** On any recoverable disk that holds its head and the last accepted block,
      starting succeeds exactly when reprocessing finds a base state, and then
      ends in the specified loaded state after the specified disk writes, with
      the last accepted state on disk. */
  method NewBlockChain(d: Disk, l: Block, tries: set<nat>, c: Config)
    returns (ok: bool, bc: BlockChain?, roots: set<nat>)
    requires Recoverable(d, l) && ValidConfig(c)
    ensures ok <==> Boots(Down(d, l, tries), c)
    ensures ok ==>
              && bc != null && fresh(bc) && bc.Valid()
              && bc.St() == Load(d, l, c.limit)
              && bc.written == LoadDisks(d, l)
              && roots == tries + {l.root}
  {
    LoadRepairs(d, l, c.limit);
    Stored(d, l);
    hide Warmed;
    var err;
    err, bc := BlockChain.LoadLastState(d, l, c.limit);
    roots := tries;
    RepairKeepsTip(d, l);
    var recovery := new StateRecovery(bc.disk, tries);
    var failed := recovery.ReprocessState(l, 2 * c.interval);
    if failed.Some? {
      return false, bc, roots;
    }
    roots := recovery.persisted;
    bc.disk := recovery.disk;
    bc.written := bc.written + recovery.written;
    bc.WarmAcceptedCaches();
    ok := true;
  }

  lemma Stored(d: Disk, l: Block)
    requires Recoverable(d, l)
    ensures d.headBlock in d.blocks && l in d.blocks
  {
    assert d.headBlock.At(d.headBlock.Number()) in d.blocks;
    assert d.headBlock.At(l.Number()) in d.blocks;
  }

  lemma RepairKeepsTip(d: Disk, l: Block)
    requires Recoverable(d, l)
    ensures TipOk(Repaired(d, l), l) && Repaired(d, l).acceptorTip == d.acceptorTip
  {
  }
}
