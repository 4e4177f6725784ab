/** Building a block and processing it: the miner's packing loop and the
    processor's transaction loop agree. */
module Packing {
  import opened BlockTree
  import opened Arithmetic
  import opened StateTransition
  import opened Ordering

  const MAX_BLOB_GAS: nat := 6 * BLOB_GAS_PER_BLOB
  const TARGET_TXS_SIZE: nat := 1800 * 1024

  datatype Receipt = Receipt(txId: nat, index: nat, gasUsed: nat, cumulative: nat, failed: bool, blobGas: nat)

  /** Everything block execution depends on: the context, the interpreter, the
      number of accounts, and whether the predicates of a transaction can be
      checked, which only the miner asks. */
  datatype Context = Context(env: Env, evm: Evm, accounts: nat, predicatesHold: Tx -> bool)

  ghost predicate ValidContext(c: Context) {
    Sane(c.evm, c.accounts) && c.env.coinbase < c.accounts && c.env.gasLimit <= MAX_UINT64
  }

  function TxBlobs(tx: Tx): nat {
    if tx.blobs.Some? then tx.blobs.value else 0
  }

  function TotalBlobs(txs: seq<Tx>): nat {
    if txs == [] then 0 else TotalBlobs(txs[..|txs| - 1]) + TxBlobs(txs[|txs| - 1])
  }

  /** Apply one transaction at a position in the block. */
  function Apply(c: Context, w: World, pool: nat, tx: Tx, index: nat): Outcome
    requires ValidContext(c) && ValidWorld(w, c.accounts) && ValidTx(tx, c.env, c.accounts)
  {
    if !tx.signed then Rejected(InvalidSender, w, pool)
    else Transition(w, pool, TransactionToMessage(tx, c.env.baseFee), c.env, c.evm, index)
  }

  /** A transaction executes exactly when it is signed, its nonce is the
      sender's, the sender is a permitted account without code, its caps cover
      the base fee and the blob price, the sender can pay for everything at the
      caps, and the gas fits the block and covers the intrinsic cost. */
  lemma ApplyExecutesIff(c: Context, w: World, pool: nat, tx: Tx, index: nat)
    requires ValidContext(c) && ValidWorld(w, c.accounts) && ValidTx(tx, c.env, c.accounts)
    ensures var env, gas := c.env, Intrinsic(tx.payload, tx.to.None?, c.env);
            Apply(c, w, pool, tx, index).Executed? <==>
            && tx.signed && w.nonces[tx.from] == tx.nonce < MAX_UINT64
            && !w.hasCode[tx.from] && tx.from !in env.prohibited && (env.txAllowList ==> w.allowed[tx.from])
            && (env.baseFee.Some? ==> tx.tip <= tx.cap < TWO_256 && env.baseFee.value <= tx.cap)
            && (tx.blobs.Some? ==> tx.to.Some? && tx.blobs.value > 0 && tx.blobVersionsOk)
            && (tx.blobs.Some? && env.cancun ==> env.blobBaseFee <= tx.blobCap)
            && WorstTxCost(tx, env) < TWO_256 && WorstTxCost(tx, env) <= w.balances[tx.from]
            && tx.gas <= pool && gas.Gas? && gas.amount <= tx.gas
            && (env.durango && tx.to.None? ==> |tx.payload.data| <= 49152)
  {
    hide Transition, Intrinsic;
    ExecutedIff(w, pool, TransactionToMessage(tx, c.env.baseFee), c.env, c.evm, index);
  }

  /** All of a transaction's gas and blobs at their caps, and its value. */
  function WorstTxCost(tx: Tx, env: Env): nat {
    tx.value + tx.gas * tx.cap + if env.cancun && tx.blobs.Some? then tx.blobs.value * 131072 * tx.blobCap else 0
  }

  /** The nonce alone decides the errors a transaction pool acts on. */
  lemma ApplyNonceErrors(c: Context, w: World, pool: nat, tx: Tx, index: nat)
    requires ValidContext(c) && ValidWorld(w, c.accounts) && ValidTx(tx, c.env, c.accounts)
    ensures var o := Apply(c, w, pool, tx, index);
            && (o.Rejected? && o.error == NonceTooLow <==> tx.signed && w.nonces[tx.from] > tx.nonce)
            && (o.Rejected? && o.error == NonceTooHigh <==> tx.signed && w.nonces[tx.from] < tx.nonce)
  {
    hide Transition, Intrinsic;
    SenderErrors(w, pool, TransactionToMessage(tx, c.env.baseFee), c.env, c.evm, index);
  }

  function ReceiptOf(tx: Tx, index: nat, before: nat, o: Outcome): Receipt
    requires o.Executed?
  {
    Receipt(tx.id, index, o.usedGas, before + o.usedGas, o.failed, TxBlobs(tx) * BLOB_GAS_PER_BLOB)
  }

  // ---------- Processing a block ----------

  datatype Progress = Progress(world: World, pool: nat, used: nat, receipts: seq<Receipt>)

  ghost predicate ValidTxs(c: Context, txs: seq<Tx>) {
    forall i :: 0 <= i < |txs| ==> ValidTx(txs[i], c.env, c.accounts)
  }

  ghost predicate ValidProgress(c: Context, b: Progress) {
    ValidWorld(b.world, c.accounts) && b.pool + b.used == c.env.gasLimit
  }

  /** Process one more transaction. */
  ghost function Next(c: Context, b: Progress, tx: Tx, index: nat): (r: Option<Progress>)
    requires ValidContext(c) && ValidProgress(c, b) && ValidTx(tx, c.env, c.accounts)
    ensures r.Some? ==> ValidProgress(c, r.value) && |r.value.receipts| == |b.receipts| + 1
    ensures r.None? <==> Apply(c, b.world, b.pool, tx, index).Rejected?
  {
    var o := Apply(c, b.world, b.pool, tx, index);
    ApplyGas(c, b.world, b.pool, tx, index);
    if o.Rejected? then None
    else Some(Progress(o.world, o.pool, b.used + o.usedGas, b.receipts + [ReceiptOf(tx, index, b.used, o)]))
  }

  /** The result of processing transactions in order from a full pool; nothing
      when one of them is rejected. */
  ghost function Processed(c: Context, w: World, txs: seq<Tx>): (r: Option<Progress>)
    requires ValidContext(c) && ValidWorld(w, c.accounts) && ValidTxs(c, txs)
    ensures r.Some? ==> ValidProgress(c, r.value) && |r.value.receipts| == |txs|
  {
    if txs == [] then Some(Progress(w, c.env.gasLimit, 0, []))
    else
      var n := |txs| - 1;
      var before := Processed(c, w, txs[..n]);
      if before.None? then None else Next(c, before.value, txs[n], n)
  }

  lemma ProcessedSnoc(c: Context, w: World, txs: seq<Tx>, tx: Tx)
    requires ValidContext(c) && ValidWorld(w, c.accounts) && ValidTxs(c, txs) && ValidTx(tx, c.env, c.accounts)
    ensures ValidTxs(c, txs + [tx])
    ensures Processed(c, w, txs + [tx]) ==
            if Processed(c, w, txs).None? then None else Next(c, Processed(c, w, txs).value, tx, |txs|)
  {
  }

  lemma ApplyGas(c: Context, w: World, pool: nat, tx: Tx, index: nat)
    requires ValidContext(c) && ValidWorld(w, c.accounts) && ValidTx(tx, c.env, c.accounts)
    ensures var o := Apply(c, w, pool, tx, index);
            o.Executed? ==>
              && ValidWorld(o.world, c.accounts) && o.pool == pool - o.usedGas && o.usedGas <= pool
              && Sum(o.world.balances) ==
                 Sum(w.balances) - BlobFee(TransactionToMessage(tx, c.env.baseFee), c.env)
  {
    TransitionConserves(w, pool, TransactionToMessage(tx, c.env.baseFee), c.env, c.evm, index);
  }

  /** Rejection of a prefix rejects the block. */
  lemma {:induction false} RejectionPersists(c: Context, w: World, txs: seq<Tx>, n: nat)
    requires ValidContext(c) && ValidWorld(w, c.accounts) && ValidTxs(c, txs) && n <= |txs|
    requires Processed(c, w, txs[..n]).None?
    ensures Processed(c, w, txs).None?
  {
    if n < |txs| {
      assert txs[..|txs| - 1][..n] == txs[..n];
      RejectionPersists(c, w, txs[..|txs| - 1], n);
    } else {
      assert txs[..n] == txs;
    }
  }

  function GasSum(receipts: seq<Receipt>): nat {
    if receipts == [] then 0 else GasSum(receipts[..|receipts| - 1]) + receipts[|receipts| - 1].gasUsed
  }

  /** The receipts of a processed block follow its transactions: each carries
      its transaction, position, blob gas and the outcome of applying it to
      the state left by those before it, and its cumulative gas is the sum up
      to and including it. */
  ghost predicate ReceiptFits(c: Context, w: World, txs: seq<Tx>, rs: seq<Receipt>, i: nat)
    requires ValidContext(c) && ValidWorld(w, c.accounts) && ValidTxs(c, txs) && i < |txs| && i < |rs|
  {
    && rs[i].txId == txs[i].id && rs[i].index == i
    && rs[i].cumulative == GasSum(rs[..i + 1])
    && rs[i].blobGas == (if txs[i].blobs.Some? then txs[i].blobs.value * 131072 else 0)
    && Processed(c, w, txs[..i]).Some?
    && var b := Processed(c, w, txs[..i]).value;
       var o := Apply(c, b.world, b.pool, txs[i], i);
       o.Executed? && rs[i].gasUsed == o.usedGas && rs[i].failed == o.failed
  }

  lemma {:induction false} ReceiptsFollow(c: Context, w: World, txs: seq<Tx>, i: nat)
    requires ValidContext(c) && ValidWorld(w, c.accounts) && ValidTxs(c, txs)
    requires Processed(c, w, txs).Some? && i < |txs|
    ensures ReceiptFits(c, w, txs, Processed(c, w, txs).value.receipts, i)
    ensures Processed(c, w, txs).value.used == GasSum(Processed(c, w, txs).value.receipts)
    decreases |txs|
  {
    hide ReceiptFits, Apply, GasSum, Next;
    var n := |txs| - 1;
    UsedIsSum(c, w, txs);
    if i < n {
      ReceiptsFollow(c, w, txs[..n], i);
      EarlierFits(c, w, txs, i);
    } else {
      LastFits(c, w, txs);
    }
  }

  lemma EarlierFits(c: Context, w: World, txs: seq<Tx>, i: nat)
    requires ValidContext(c) && ValidWorld(w, c.accounts) && ValidTxs(c, txs)
    requires Processed(c, w, txs).Some? && i < |txs| - 1
    requires ReceiptFits(c, w, txs[..|txs| - 1], Processed(c, w, txs[..|txs| - 1]).value.receipts, i)
    ensures ReceiptFits(c, w, txs, Processed(c, w, txs).value.receipts, i)
  {
    hide Apply, GasSum;
    var n := |txs| - 1;
    var before, rs := Processed(c, w, txs[..n]).value.receipts, Processed(c, w, txs).value.receipts;
    assert rs[..n] == before;
    assert txs[..n][..i] == txs[..i] && before[..i + 1] == rs[..i + 1];
    hide Processed;
  }

  lemma LastFits(c: Context, w: World, txs: seq<Tx>)
    requires ValidContext(c) && ValidWorld(w, c.accounts) && ValidTxs(c, txs)
    requires Processed(c, w, txs).Some? && txs != []
    ensures ReceiptFits(c, w, txs, Processed(c, w, txs).value.receipts, |txs| - 1)
  {
    hide Apply, GasSum;
    var rs := Processed(c, w, txs).value.receipts;
    UsedIsSum(c, w, txs);
    assert rs[..|txs|] == rs;
  }

  lemma {:induction false} UsedIsSum(c: Context, w: World, txs: seq<Tx>)
    requires ValidContext(c) && ValidWorld(w, c.accounts) && ValidTxs(c, txs)
    requires Processed(c, w, txs).Some?
    ensures Processed(c, w, txs).value.used == GasSum(Processed(c, w, txs).value.receipts)
  {
    hide Transition;
    if txs != [] {
      var n := |txs| - 1;
      UsedIsSum(c, w, txs[..n]);
      assert Processed(c, w, txs).value.receipts[..n] == Processed(c, w, txs[..n]).value.receipts;
    }
  }

  /** The processor's transaction loop. */
  method Process(c: Context, w: World, txs: seq<Tx>) returns (r: Option<Progress>)
    requires ValidContext(c) && ValidWorld(w, c.accounts) && ValidTxs(c, txs)
    ensures r == Processed(c, w, txs)
  {
    hide Transition;
    var world, usedGas: nat := w, 0;
    var receipts: seq<Receipt> := [];
    var gp := new GasPool(c.env.gasLimit);
    var i := 0;
    while i < |txs|
      invariant 0 <= i <= |txs|
      invariant Processed(c, w, txs[..i]) == Some(Progress(world, gp.gas, usedGas, receipts))
    {
      assert txs[..i + 1] == txs[..i] + [txs[i]];
      ProcessedSnoc(c, w, txs[..i], txs[i]);
      var o := ApplyMessage(c, gp, world, txs[i], i);
      if o.Rejected? {
        RejectionPersists(c, w, txs, i + 1);
        return None;
      }
      receipts := receipts + [ReceiptOf(txs[i], i, usedGas, o)];
      usedGas := usedGas + o.usedGas;
      world := o.world;
      i := i + 1;
    }
    assert txs[..|txs|] == txs;
    r := Some(Progress(world, gp.gas, usedGas, receipts));
  }

  /** Apply a transaction through the state transition object; a rejected one
      may leave the pool short. */
  method ApplyMessage(c: Context, gp: GasPool, w: World, tx: Tx, index: nat) returns (o: Outcome)
    requires ValidContext(c) && ValidWorld(w, c.accounts) && ValidTx(tx, c.env, c.accounts) && gp.gas <= MAX_UINT64
    modifies gp
    ensures o == Apply(c, w, old(gp.gas), tx, index)
    ensures gp.gas == o.pool
  {
    if !tx.signed {
      return Rejected(InvalidSender, w, gp.gas);
    }
    var msg := TransactionToMessage(tx, c.env.baseFee);
    var st := new StateTransition(gp, msg, c.env, index, w);
    o := st.TransitionDb(c.evm);
  }

  // ---------- The miner's environment ----------

  datatype Pack = Pack(world: World, pool: nat, gasUsed: nat, tcount: nat, txs: seq<Tx>, receipts: seq<Receipt>,
                       blobs: nat, blobGasUsed: nat, size: nat)

  datatype MinerError =
    | Core(error: Error)
    | MaxBlobsReached
    | PredicatesFailed

  /** Try to add a transaction; on failure nothing changes. */
  ghost function Commit(c: Context, p: Pack, tx: Tx): (Pack, Option<MinerError>)
    requires ValidContext(c) && ValidWorld(p.world, c.accounts) && ValidTx(tx, c.env, c.accounts)
  {
    if tx.blobs.Some? && (p.blobs + TxBlobs(tx)) * BLOB_GAS_PER_BLOB > MAX_BLOB_GAS then (p, Some(MaxBlobsReached))
    else if c.env.durango && !c.predicatesHold(tx) then (p, Some(PredicatesFailed))
    else
      var o := Apply(c, p.world, p.pool, tx, p.tcount);
      if o.Rejected? then (p, Some(Core(o.error)))
      else
        (Pack(o.world, o.pool, p.gasUsed + o.usedGas, p.tcount + 1, p.txs + [tx],
              p.receipts + [ReceiptOf(tx, p.tcount, p.gasUsed, o)],
              p.blobs + TxBlobs(tx), p.blobGasUsed + TxBlobs(tx) * BLOB_GAS_PER_BLOB,
              if tx.blobs.Some? then p.size else p.size + tx.size), None)
  }

  /** A transaction is added exactly when its blobs fit under the six of a
      block, its predicates hold from Durango on, and it executes; then it
      becomes the last transaction of the block. */
  lemma CommitIff(c: Context, p: Pack, tx: Tx)
    requires ValidContext(c) && ValidWorld(p.world, c.accounts) && ValidTx(tx, c.env, c.accounts)
    ensures var (q, err) := Commit(c, p, tx);
            var room := tx.blobs.Some? ==> p.blobs + tx.blobs.value <= 6;
            var holds := c.env.durango ==> c.predicatesHold(tx);
            var o := Apply(c, p.world, p.pool, tx, p.tcount);
            && (err == Some(MaxBlobsReached) <==> !room)
            && (err == Some(PredicatesFailed) <==> room && !holds)
            && (forall e :: err == Some(Core(e)) <==> room && holds && o.Rejected? && o.error == e)
            && (err.None? <==> room && holds && o.Executed?)
            && (err.Some? ==> q == p)
            && (err.None? ==>
                  && q.world == o.world && q.pool == o.pool && q.gasUsed == p.gasUsed + o.usedGas
                  && q.txs == p.txs + [tx] && q.tcount == p.tcount + 1 && |q.receipts| == |p.receipts| + 1
                  && q.blobs == p.blobs + (if tx.blobs.Some? then tx.blobs.value else 0)
                  && q.size == p.size + (if tx.blobs.Some? then 0 else tx.size))
  {
    hide Transition;
  }

  /** What the miner has built is what the processor computes from it. */
  ghost predicate Faithful(c: Context, w: World, p: Pack) {
    && ValidContext(c) && ValidWorld(w, c.accounts) && ValidTxs(c, p.txs)
    && Processed(c, w, p.txs) == Some(Progress(p.world, p.pool, p.gasUsed, p.receipts))
    && p.tcount == |p.txs|
    && p.blobs == TotalBlobs(p.txs)
    && p.blobGasUsed == p.blobs * BLOB_GAS_PER_BLOB <= MAX_BLOB_GAS
  }

  function EmptyPack(c: Context, w: World): Pack {
    Pack(w, c.env.gasLimit, 0, 0, [], [], 0, 0, 0)
  }

  /** Every packing step, failed or not, keeps the agreement; in particular
      the pool and the gas used always add up to the block's limit. */
  lemma CommitKeepsFaithful(c: Context, w: World, p: Pack, tx: Tx)
    requires Faithful(c, w, p) && ValidTx(tx, c.env, c.accounts)
    ensures Faithful(c, w, Commit(c, p, tx).0)
    ensures Commit(c, p, tx).0.pool + Commit(c, p, tx).0.gasUsed == c.env.gasLimit
    ensures Commit(c, p, tx).1.Some? ==> Commit(c, p, tx).0 == p
  {
    hide Transition;
    var (q, err) := Commit(c, p, tx);
    if err.None? {
      ProcessedSnoc(c, w, p.txs, tx);
      assert q.txs[..|p.txs|] == p.txs;
      BlobRoom(p.blobs, TxBlobs(tx), tx);
    }
  }

  lemma BlobRoom(blobs: nat, more: nat, tx: Tx)
    requires more == TxBlobs(tx) && blobs * BLOB_GAS_PER_BLOB <= MAX_BLOB_GAS
    requires tx.blobs.Some? ==> (blobs + more) * BLOB_GAS_PER_BLOB <= MAX_BLOB_GAS
    ensures (blobs + more) * BLOB_GAS_PER_BLOB == blobs * BLOB_GAS_PER_BLOB + more * BLOB_GAS_PER_BLOB <= MAX_BLOB_GAS
  {
  }

  /** The block under construction after trying any list of transactions in order. */
  ghost function CommitAll(c: Context, w: World, p: Pack, attempts: seq<Tx>): (q: Pack)
    requires Faithful(c, w, p) && ValidTxs(c, attempts)
    ensures Faithful(c, w, q)
    decreases |attempts|
  {
    if attempts == [] then p
    else
      CommitKeepsFaithful(c, w, p, attempts[0]);
      CommitAll(c, w, Commit(c, p, attempts[0]).0, attempts[1..])
  }

  // ---------- Validation ----------

  method CountBlobs(txs: seq<Tx>) returns (blobs: nat)
    ensures blobs == TotalBlobs(txs)
  {
    blobs := 0;
    for i := 0 to |txs|
      invariant blobs == TotalBlobs(txs[..i])
    {
      assert txs[..i + 1][..i] == txs[..i];
      blobs := blobs + TxBlobs(txs[i]);
    }
    assert txs[..|txs|] == txs;
  }

  /** The validator's blob-count and gas-used checks. */
  predicate BlobCheck(txs: seq<Tx>, headerBlobGas: Option<nat>) {
    if headerBlobGas.Some? then TotalBlobs(txs) == headerBlobGas.value / BLOB_GAS_PER_BLOB
    else TotalBlobs(txs) == 0
  }

  predicate GasCheck(headerGasUsed: nat, usedGas: nat) {
    headerGasUsed == usedGas
  }

  method ValidateBlobs(txs: seq<Tx>, headerBlobGas: Option<nat>) returns (ok: bool)
    ensures ok == BlobCheck(txs, headerBlobGas)
    ensures headerBlobGas.None? ==> (ok <==> TotalBlobs(txs) == 0)
    ensures headerBlobGas.Some? ==>
              (ok <==> TotalBlobs(txs) * 131072 <= headerBlobGas.value < (TotalBlobs(txs) + 1) * 131072)
  {
    var blobs := CountBlobs(txs);
    if headerBlobGas.Some? {
      ok := blobs == headerBlobGas.value / BLOB_GAS_PER_BLOB;
    } else {
      ok := blobs == 0;
    }
  }

  /** Whatever transactions the miner tried, in whatever order and with
      whatever failures, re-running the packed list from the same state gives
      the same receipts, indices, cumulative gas and final state, and the
      validator's gas and blob checks accept the header. */
  lemma MinerRefinesProcessor(c: Context, w: World, attempts: seq<Tx>)
    requires ValidContext(c) && ValidWorld(w, c.accounts) && ValidTxs(c, attempts)
    ensures Faithful(c, w, EmptyPack(c, w))
    ensures var p := CommitAll(c, w, EmptyPack(c, w), attempts);
            && ValidTxs(c, p.txs)
            && Processed(c, w, p.txs) == Some(Progress(p.world, p.pool, p.gasUsed, p.receipts))
            && p.pool + p.gasUsed == c.env.gasLimit
            && GasCheck(p.gasUsed, Processed(c, w, p.txs).value.used)
            && BlobCheck(p.txs, Some(p.blobGasUsed))
            && (p.blobGasUsed == 0 ==> BlobCheck(p.txs, None))
  {
  }

  // ---------- Fees over a block ----------

  function BlobFees(c: Context, txs: seq<Tx>): nat {
    if txs == [] then 0
    else BlobFees(c, txs[..|txs| - 1])
         + BlobFee(TransactionToMessage(txs[|txs| - 1], c.env.baseFee), c.env)
  }

  /** What the transactions pay the coinbase, as its balance shows it. */
  ghost function CoinbaseCredits(c: Context, w: World, txs: seq<Tx>): int
    requires ValidContext(c) && ValidWorld(w, c.accounts) && ValidTxs(c, txs)
  {
    if txs == [] then 0
    else
      var n := |txs| - 1;
      CoinbaseCredits(c, w, txs[..n])
      + match Processed(c, w, txs[..n])
        case None => 0
        case Some(b) => Credited(c, b.world, b.pool, txs[n], n)
  }

  /** The coinbase's credit in one application: its balance in the outcome less
      its balance after execution and refund. */
  ghost function Credited(c: Context, w: World, pool: nat, tx: Tx, index: nat): int
    requires ValidContext(c) && ValidWorld(w, c.accounts) && ValidTx(tx, c.env, c.accounts)
  {
    var o := Apply(c, w, pool, tx, index);
    if o.Rejected? then 0
    else
      var m := TransactionToMessage(tx, c.env.baseFee);
      var before := BeforeFee(w, pool, m, c.env, c.evm, index);
      o.world.balances[c.env.coinbase] as int - before.balances[c.env.coinbase] as int
  }

  /** The credit of an executed transaction is the gas it used at its price. */
  lemma CreditIsPrice(c: Context, w: World, pool: nat, tx: Tx, index: nat)
    requires ValidContext(c) && ValidWorld(w, c.accounts) && ValidTx(tx, c.env, c.accounts)
    ensures var o := Apply(c, w, pool, tx, index);
            o.Executed? ==>
              Credited(c, w, pool, tx, index) == o.usedGas * TransactionToMessage(tx, c.env.baseFee).gasPrice
  {
    hide Transition, BeforeFee;
    var m := TransactionToMessage(tx, c.env.baseFee);
    if Apply(c, w, pool, tx, index).Executed? {
      TransitionPays(w, pool, m, c.env, c.evm, index, c.env.coinbase);
    }
  }

  /** A block destroys exactly its blob fees. */
  lemma {:induction false} BlockConserves(c: Context, w: World, txs: seq<Tx>)
    requires ValidContext(c) && ValidWorld(w, c.accounts) && ValidTxs(c, txs)
    requires Processed(c, w, txs).Some?
    ensures Sum(Processed(c, w, txs).value.world.balances) == Sum(w.balances) - BlobFees(c, txs)
  {
    if txs != [] {
      var n := |txs| - 1;
      BlockConserves(c, w, txs[..n]);
      var b := Processed(c, w, txs[..n]).value;
      ApplyGas(c, b.world, b.pool, txs[n], n);
    }
  }

  function FeeSum(txs: seq<Tx>, receipts: seq<Receipt>, baseFee: Option<nat>): int
    requires |txs| == |receipts|
  {
    if txs == [] then 0
    else
      var n := |txs| - 1;
      FeeSum(txs[..n], receipts[..n], baseFee) + receipts[n].gasUsed * MinerFee(txs[n], baseFee)
  }

  method TotalFees(txs: seq<Tx>, receipts: seq<Receipt>, baseFee: Option<nat>) returns (r: Option<int>)
    ensures r == if |txs| == |receipts| then Some(FeeSum(txs, receipts, baseFee)) else None
  {
    if |txs| != |receipts| {
      return None;
    }
    var fees := 0;
    for i := 0 to |txs|
      invariant fees == FeeSum(txs[..i], receipts[..i], baseFee)
    {
      assert txs[..i + 1][..i] == txs[..i] && receipts[..i + 1][..i] == receipts[..i];
      fees := fees + receipts[i].gasUsed * MinerFee(txs[i], baseFee);
    }
    assert txs[..|txs|] == txs && receipts[..|receipts|] == receipts;
    r := Some(fees);
  }

  /** Over a block the coinbase credits sum to the total fees computed from
      its receipts. */
  lemma {:induction false} CreditsAreTotalFees(c: Context, w: World, txs: seq<Tx>)
    requires ValidContext(c) && ValidWorld(w, c.accounts) && ValidTxs(c, txs)
    requires Processed(c, w, txs).Some?
    ensures CoinbaseCredits(c, w, txs) == FeeSum(txs, Processed(c, w, txs).value.receipts, c.env.baseFee)
  {
    hide Transition, BeforeFee;
    if txs != [] {
      var n := |txs| - 1;
      CreditsAreTotalFees(c, w, txs[..n]);
      var b := Processed(c, w, txs[..n]).value;
      CreditIsPrice(c, b.world, b.pool, txs[n], n);
      MinerFeeIsPrice(txs[n], c.env.baseFee);
      var rs := Processed(c, w, txs).value.receipts;
      assert rs[..n] == Processed(c, w, txs[..n]).value.receipts;
    }
  }

  // ---------- The packing loop ----------

  /** What the transaction pool and the signer tell the miner: the transaction
      behind a pool entry, if it is still there, and whether its replay
      protection is not yet allowed. */
  datatype Pool = Pool(resolve: LazyTx -> Option<Tx>, premature: Tx -> bool)

  /** What one pool entry does to the block under construction, and whether its
      account goes on: an entry that does not fit, is gone, premature or invalid
      ends its account; one that is packed, or whose nonce was already used, does not. */
  ghost function Tried(c: Context, p: Pack, ltx: LazyTx, pool: Pool): (Pack, bool)
    requires ValidContext(c) && ValidWorld(p.world, c.accounts)
    requires pool.resolve(ltx).Some? ==> ValidTx(pool.resolve(ltx).value, c.env, c.accounts)
  {
    if p.pool < ltx.gas || MAX_BLOB_GAS - p.blobs * BLOB_GAS_PER_BLOB < ltx.blobGas then (p, false)
    else match pool.resolve(ltx)
         case None => (p, false)
         case Some(tx) =>
           if p.size + tx.size > TARGET_TXS_SIZE || pool.premature(tx) then (p, false)
           else
             var (q, err) := Commit(c, p, tx);
             (q, err.None? || err == Some(Core(NonceTooLow)))
  }

  /** A pool entry is packed exactly when its gas and blobs fit, it is still in
      the pool, its size fits, it is not premature, and it commits; its account
      goes on exactly when it is packed or its nonce was already used. */
  lemma TriedIff(c: Context, p: Pack, ltx: LazyTx, pool: Pool)
    requires ValidContext(c) && ValidWorld(p.world, c.accounts)
    requires pool.resolve(ltx).Some? ==> ValidTx(pool.resolve(ltx).value, c.env, c.accounts)
    ensures var (q, shift) := Tried(c, p, ltx, pool);
            var offered := && ltx.gas <= p.pool && p.blobs * 131072 + ltx.blobGas <= 786432
                           && pool.resolve(ltx).Some?
                           && p.size + pool.resolve(ltx).value.size <= 1843200
                           && !pool.premature(pool.resolve(ltx).value);
            && (q.txs != p.txs <==> offered && Commit(c, p, pool.resolve(ltx).value).1.None?)
            && (q.txs != p.txs ==> q.txs == p.txs + [pool.resolve(ltx).value])
            && (q.txs == p.txs ==> q == p)
            && (shift <==> offered && Commit(c, p, pool.resolve(ltx).value).1 in {None, Some(Core(NonceTooLow))})
  {
    hide Transition, Commit;
    if pool.resolve(ltx).Some? {
      CommitIff(c, p, pool.resolve(ltx).value);
    }
  }

  class Environment {
    const context: Context
    const gasPool: GasPool
    ghost const initial: World
    var world: World
    var gasUsed: nat
    var tcount: nat
    var txs: seq<Tx>
    var receipts: seq<Receipt>
    var blobs: nat
    var blobGasUsed: nat
    var size: nat

    ghost function St(): Pack
      reads this, gasPool
    {
      Pack(world, gasPool.gas, gasUsed, tcount, txs, receipts, blobs, blobGasUsed, size)
    }

    ghost predicate Valid()
      reads this, gasPool
    {
      Faithful(context, initial, St())
    }

    constructor (c: Context, w: World)
      requires ValidContext(c) && ValidWorld(w, c.accounts)
      ensures Valid() && context == c && initial == w && fresh(gasPool) && St() == EmptyPack(c, w)
    {
      context := c;
      gasPool := new GasPool(c.env.gasLimit);
      initial := w;
      world := w;
      gasUsed, tcount, txs, receipts := 0, 0, [], [];
      blobs, blobGasUsed, size := 0, 0, 0;
    }

    /** Run a transaction, unless its predicates cannot be checked; a rejected
        one leaves state and pool as they were. */
    method ApplyTransaction(tx: Tx) returns (r: Option<Outcome>)
      requires Valid() && ValidTx(tx, context.env, context.accounts)
      modifies this`world, this`gasUsed, gasPool
      ensures r == if context.env.durango && !context.predicatesHold(tx) then None
                   else Some(Apply(context, old(world), old(gasPool.gas), tx, tcount))
      ensures r.None? || r.value.Rejected? ==>
                world == old(world) && gasUsed == old(gasUsed) && gasPool.gas == old(gasPool.gas)
      ensures r.Some? && r.value.Executed? ==>
                world == r.value.world && gasUsed == old(gasUsed) + r.value.usedGas && gasPool.gas == r.value.pool
    {
      hide Transition;
      var snap, gp := world, gasPool.gas;
      if context.env.durango {
        if !context.predicatesHold(tx) {
          return None;
        }
      }
      var o := ApplyMessage(context, gasPool, world, tx, tcount);
      if o.Rejected? {
        world := snap;
        gasPool.SetGas(gp);
      } else {
        world := o.world;
        gasUsed := gasUsed + o.usedGas;
      }
      r := Some(o);
    }

    method CommitTransaction(tx: Tx) returns (err: Option<MinerError>)
      requires Valid() && ValidTx(tx, context.env, context.accounts)
      modifies this, gasPool
      ensures Valid()
      ensures (St(), err) == old(Commit(context, St(), tx))
    {
      hide Transition;
      CommitKeepsFaithful(context, initial, St(), tx);
      if tx.blobs.Some? {
        if (blobs + tx.blobs.value) * BLOB_GAS_PER_BLOB > MAX_BLOB_GAS {
          return Some(MaxBlobsReached);
        }
      }
      var before := gasUsed;
      var r := ApplyTransaction(tx);
      if r.None? {
        return Some(PredicatesFailed);
      }
      if r.value.Rejected? {
        return Some(Core(r.value.error));
      }
      Record(tx, ReceiptOf(tx, tcount, before, r.value));
      return None;
    }

    method Record(tx: Tx, receipt: Receipt)
      modifies this`txs, this`receipts, this`blobs, this`blobGasUsed, this`size, this`tcount
      ensures txs == old(txs) + [tx] && receipts == old(receipts) + [receipt] && tcount == old(tcount) + 1
      ensures blobs == old(blobs) + TxBlobs(tx)
      ensures blobGasUsed == old(blobGasUsed) + TxBlobs(tx) * BLOB_GAS_PER_BLOB
      ensures size == old(size) + if tx.blobs.Some? then 0 else tx.size
    {
      txs := txs + [tx];
      receipts := receipts + [receipt];
      if tx.blobs.Some? {
        blobs := blobs + tx.blobs.value;
        blobGasUsed := blobGasUsed + tx.blobs.value * BLOB_GAS_PER_BLOB;
      } else {
        size := size + tx.size;
      }
      tcount := tcount + 1;
    }

    /** Pack transactions from the plain and the blob sets until gas runs out
        or both are exhausted.  The loop terminates, keeps the agreement with
        the processor, and only ever appends. */
    method CommitTransactions(plainTxs: TransactionsByPriceAndNonce, blobTxs: TransactionsByPriceAndNonce, pool: Pool)
      requires Valid() && plainTxs.Valid() && blobTxs.Valid() && plainTxs != blobTxs
      requires forall l :: pool.resolve(l).Some? ==> ValidTx(pool.resolve(l).value, context.env, context.accounts)
      modifies this, gasPool, plainTxs, blobTxs
      ensures Valid() && plainTxs.Valid() && blobTxs.Valid()
      ensures old(txs) <= txs && old(receipts) <= receipts
      ensures gasPool.gas < TX_GAS || (plainTxs.picks == map[] && blobTxs.picks == map[])
    {
      var done := false;
      while !done
        invariant Valid() && plainTxs.Valid() && blobTxs.Valid()
        invariant old(txs) <= txs && old(receipts) <= receipts
        invariant done ==> gasPool.gas < TX_GAS || (plainTxs.picks == map[] && blobTxs.picks == map[])
        decreases !done, Remaining(plainTxs.source, plainTxs.picks) + Remaining(blobTxs.source, blobTxs.picks)
      {
        done := PackNext(plainTxs, blobTxs, pool);
      }
    }

    /** One round of the packing loop: done when the gas or both sets run out.
        The blob set goes first when its best offer pays strictly more, or when
        there is no other. */
    method PackNext(plainTxs: TransactionsByPriceAndNonce, blobTxs: TransactionsByPriceAndNonce, pool: Pool)
      returns (done: bool)
      requires Valid() && plainTxs.Valid() && blobTxs.Valid() && plainTxs != blobTxs
      requires forall l :: pool.resolve(l).Some? ==> ValidTx(pool.resolve(l).value, context.env, context.accounts)
      modifies this, gasPool, plainTxs, blobTxs
      ensures Valid() && plainTxs.Valid() && blobTxs.Valid()
      ensures old(txs) <= txs && old(receipts) <= receipts
      ensures done ==>
                && St() == old(St())
                && (gasPool.gas < TX_GAS || (plainTxs.picks == map[] && blobTxs.picks == map[]))
      ensures !done ==>
                var plain := old(plainTxs.heads);
                var blob := if old(blobs) >= 6 then [] else old(blobTxs.heads);
                if blob != [] && (plain == [] || plain[0].fees < blob[0].fees)
                then && St() == old(Tried(context, St(), blobTxs.heads[0].tx, pool)).0
                     && plainTxs.picks == old(plainTxs.picks)
                else && plain != [] && St() == old(Tried(context, St(), plainTxs.heads[0].tx, pool)).0
                     && blobTxs.picks == if blob == [] then map[] else old(blobTxs.picks)
      ensures !done ==>
                Remaining(plainTxs.source, plainTxs.picks) + Remaining(blobTxs.source, blobTxs.picks) <
                old(Remaining(plainTxs.source, plainTxs.picks) + Remaining(blobTxs.source, blobTxs.picks))
    {
      if gasPool.gas < TX_GAS {
        return true;
      }
      if blobs * BLOB_GAS_PER_BLOB >= MAX_BLOB_GAS {
        blobTxs.Clear();
      }
      var pltx := plainTxs.Peek();
      var bltx := blobTxs.Peek();
      if pltx.None? && bltx.None? {
        return true;
      }
      if pltx.None? || (bltx.Some? && pltx.value.fees < bltx.value.fees) {
        PackOne(blobTxs, bltx.value.tx, pool);
      } else {
        PackOne(plainTxs, pltx.value.tx, pool);
      }
      return false;
    }

    /** Try the peeked transaction of a set and shift or pop its account. */
    method PackOne(pending: TransactionsByPriceAndNonce, ltx: LazyTx, pool: Pool)
      requires Valid() && pending.Valid() && pending.heads != [] && ltx == pending.heads[0].tx
      requires forall l :: pool.resolve(l).Some? ==> ValidTx(pool.resolve(l).value, context.env, context.accounts)
      modifies this, gasPool, pending
      ensures Valid() && pending.Valid()
      ensures old(txs) <= txs && old(receipts) <= receipts
      ensures var t := old(Tried(context, St(), ltx, pool));
              St() == t.0 && pending.picks == Advance(pending.source, old(pending.picks), old(pending.heads[0].from), t.1)
      ensures Remaining(pending.source, pending.picks) < Remaining(pending.source, old(pending.picks))
    {
      var shift := TryOne(ltx, pool);
      AdvanceDecreases(pending.source, pending.picks, pending.heads[0].from, shift);
      if shift {
        pending.Shift();
      } else {
        pending.DropRoot();
      }
    }

    /** Decide about one pool entry: true to go on with the same account. */
    method TryOne(ltx: LazyTx, pool: Pool) returns (shift: bool)
      requires Valid()
      requires forall l :: pool.resolve(l).Some? ==> ValidTx(pool.resolve(l).value, context.env, context.accounts)
      modifies this, gasPool
      ensures Valid()
      ensures old(txs) <= txs && old(receipts) <= receipts
      ensures (St(), shift) == old(Tried(context, St(), ltx, pool))
    {
      hide Transition;
      if gasPool.gas < ltx.gas {
        return false;
      }
      if MAX_BLOB_GAS - blobs * BLOB_GAS_PER_BLOB < ltx.blobGas {
        return false;
      }
      var tx := pool.resolve(ltx);
      if tx.None? {
        return false;
      }
      if size + tx.value.size > TARGET_TXS_SIZE {
        return false;
      }
      if pool.premature(tx.value) {
        return false;
      }
      CommitKeepsFaithful(context, initial, St(), tx.value);
      var err := CommitTransaction(tx.value);
      return err.None? || err == Some(Core(NonceTooLow));
    }
  }
}
