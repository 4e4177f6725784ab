/** Applying one message: gas purchase, execution, refund and fees. */
module StateTransition {
  import opened BlockTree
  import opened Arithmetic

  const MAX_UINT64: nat := 0xFFFF_FFFF_FFFF_FFFF
  const TWO_256: nat := 0x1_0000000000000000_0000000000000000_0000000000000000_0000000000000000
  const TWO_64: nat := 0x1_0000_0000_0000_0000
  const TX_GAS: nat := 21000
  const TX_GAS_CONTRACT_CREATION: nat := 53000
  const TX_DATA_ZERO_GAS: nat := 4
  const TX_DATA_NON_ZERO_GAS_FRONTIER: nat := 68
  const TX_DATA_NON_ZERO_GAS_EIP2028: nat := 16
  const INIT_CODE_WORD_GAS: nat := 2
  const ACCESS_LIST_ADDRESS_GAS: nat := 2400
  const ACCESS_LIST_STORAGE_KEY_GAS: nat := 1900
  const MAX_INIT_CODE_SIZE: nat := 49152
  const BLOB_GAS_PER_BLOB: nat := 131072

  // ---------- Data ----------

  /** An access-list entry: how many storage keys, and the gas its predicate
      asks for when the address has a predicater. */
  datatype AccessTuple = AccessTuple(keys: nat, predicater: bool, predicateGas: Option<nat>)

  datatype Payload = Payload(data: seq<bv8>, accessList: seq<AccessTuple>)

  /** Every transaction type answers its fee cap as its gas price. */
  datatype Tx = Tx(id: nat, signed: bool, from: nat, to: Option<nat>, nonce: nat, value: nat, gas: nat,
                   tip: nat, cap: nat, blobs: Option<nat>, blobVersionsOk: bool, blobCap: nat,
                   payload: Payload, size: nat)

  datatype Message = Message(from: nat, to: Option<nat>, nonce: nat, value: nat, gasLimit: nat, gasPrice: nat,
                             feeCap: nat, tipCap: nat, blobs: Option<nat>, blobVersionsOk: bool, blobCap: nat,
                             payload: Payload)

  /** Addresses index the sequences; rest is all state the fees do not touch. */
  datatype World = World(balances: seq<nat>, nonces: seq<nat>, hasCode: seq<bool>, allowed: seq<bool>, rest: nat)

  /** The block context.  A base fee is present exactly from SubnetEVM on. */
  datatype Env = Env(baseFee: Option<nat>, blobBaseFee: nat, coinbase: nat, homestead: bool, istanbul: bool,
                     durango: bool, cancun: bool, predicaters: bool, txAllowList: bool, prohibited: set<nat>,
                     gasLimit: nat)

  datatype VmOut = VmOut(world: World, gasLeft: nat, refund: nat, failed: bool)

  /** The EVM is a deterministic step from the world, a message, the gas given
      and the transaction's position. */
  type Evm = (World, Message, nat, nat) -> VmOut

  datatype Error =
    | InvalidSender
    | NonceTooHigh
    | NonceTooLow
    | NonceMax
    | SenderNoEOA
    | AddressProhibited
    | SenderNotAllowed
    | FeeCapVeryHigh
    | TipVeryHigh
    | TipAboveFeeCap
    | FeeCapTooLow
    | BlobTxCreate
    | MissingBlobHashes
    | InvalidBlobVersion
    | BlobFeeCapTooLow
    | InsufficientFunds
    | GasLimitReached
    | GasUintOverflow
    | PredicateFailed
    | IntrinsicGasTooLow
    | InsufficientFundsForTransfer
    | InitCodeTooLarge

  /** Rejected carries what an abandoned transition leaves behind; its callers
      discard it. */
  datatype Outcome =
    | Rejected(error: Error, world: World, pool: nat)
    | Executed(world: World, pool: nat, usedGas: nat, refunded: nat, failed: bool)

  ghost predicate ValidWorld(w: World, n: nat) {
    |w.balances| == n && |w.nonces| == n && |w.hasCode| == n && |w.allowed| == n
  }

  function Sum(s: seq<nat>): nat {
    if s == [] then 0 else Sum(s[..|s| - 1]) + s[|s| - 1]
  }

  /** Execution never returns more gas than it was given and moves value around
      without creating or destroying any. */
  ghost predicate Sane(evm: Evm, n: nat) {
    forall w: World, m: Message, g: nat, i: nat :: ValidWorld(w, n) ==>
      var out := evm(w, m, g, i);
      && ValidWorld(out.world, n)
      && out.gasLeft <= g
      && Sum(out.world.balances) == Sum(w.balances)
  }

  /** Fields have the width of their types, and addresses exist. */
  ghost predicate ValidTx(tx: Tx, env: Env, n: nat) {
    && tx.gas <= MAX_UINT64 && tx.nonce <= MAX_UINT64 && tx.from < n && env.coinbase < n
    && ValidPayload(tx.payload)
  }

  /** A block bounds the data and the access list long before these limits. */
  predicate ValidPayload(p: Payload) {
    && |p.data| <= MAX_UINT64 - 31
    && forall i :: 0 <= i < |p.accessList| ==> p.accessList[i].keys < 0x1_0000_0000_0000
  }

  function Min(a: nat, b: nat): nat {
    if a <= b then a else b
  }

  // ---------- Messages ----------

  function TransactionToMessage(tx: Tx, baseFee: Option<nat>): (m: Message)
    ensures m.gasPrice <= m.feeCap
  {
    var price := if baseFee.Some? then Min(tx.tip + baseFee.value, tx.cap) else tx.cap;
    Message(tx.from, tx.to, tx.nonce, tx.value, tx.gas, price, tx.cap, tx.tip,
            tx.blobs, tx.blobVersionsOk, tx.blobCap, tx.payload)
  }

  function BlobGas(m: Message): nat {
    if m.blobs.Some? then m.blobs.value * BLOB_GAS_PER_BLOB else 0
  }

  function BlobFee(m: Message, env: Env): nat {
    if env.cancun then BlobGas(m) * env.blobBaseFee else 0
  }

  // ---------- Intrinsic gas ----------

  function ToWordSize(size: nat): nat {
    if size > MAX_UINT64 - 31 then MAX_UINT64 / 32 + 1 else (size + 31) / 32
  }

  function NonZero(data: seq<bv8>): (n: nat)
    ensures n <= |data|
  {
    if data == [] then 0 else NonZero(data[..|data| - 1]) + if data[|data| - 1] != 0 then 1 else 0
  }

  function NonZeroGas(env: Env): nat {
    if env.istanbul then TX_DATA_NON_ZERO_GAS_EIP2028 else TX_DATA_NON_ZERO_GAS_FRONTIER
  }

  function TupleGas(t: AccessTuple): nat {
    if t.predicater then (if t.predicateGas.Some? then t.predicateGas.value else 0)
    else ACCESS_LIST_ADDRESS_GAS + t.keys * ACCESS_LIST_STORAGE_KEY_GAS
  }

  datatype GasResult = Gas(amount: nat) | NoGas(error: Error)

  function CheckedAdd(a: nat, b: nat): GasResult {
    if a + b > MAX_UINT64 then NoGas(GasUintOverflow) else Gas(a + b)
  }

  /** The gas of an access list when predicaters exist; the first tuple that
      fails decides. */
  function CheckedAccessGas(list: seq<AccessTuple>): (r: GasResult)
    ensures r.NoGas? ==> r.error == GasUintOverflow || r.error == PredicateFailed
  {
    if list == [] then Gas(0)
    else
      var before := CheckedAccessGas(list[..|list| - 1]);
      var t := list[|list| - 1];
      if before.NoGas? then before
      else if t.predicater && t.predicateGas.None? then NoGas(PredicateFailed)
      else CheckedAdd(before.amount, TupleGas(t))
  }

  /** One more entry of an access list costs 2400 and 1900 for each key, or what
      its predicate asks; a predicate that cannot tell, or a sum that does not
      fit, fails the list, and a failed list stays failed. */
  lemma AccessGasNext(list: seq<AccessTuple>, t: AccessTuple)
    ensures CheckedAccessGas([]) == Gas(0)
    ensures var before := CheckedAccessGas(list);
            CheckedAccessGas(list + [t]) ==
            if before.NoGas? then before
            else if !t.predicater then
              (if before.amount + 2400 + t.keys * 1900 <= MAX_UINT64
               then Gas(before.amount + 2400 + t.keys * 1900) else NoGas(GasUintOverflow))
            else if t.predicateGas.None? then NoGas(PredicateFailed)
            else if before.amount + t.predicateGas.value <= MAX_UINT64
            then Gas(before.amount + t.predicateGas.value) else NoGas(GasUintOverflow)
  {
    assert (list + [t])[..|list|] == list;
  }

  function TotalKeys(list: seq<AccessTuple>): nat {
    if list == [] then 0 else TotalKeys(list[..|list| - 1]) + list[|list| - 1].keys
  }

  function PlainAccessGas(list: seq<AccessTuple>): nat {
    |list| * ACCESS_LIST_ADDRESS_GAS + TotalKeys(list) * ACCESS_LIST_STORAGE_KEY_GAS
  }

  /** Without predicaters the sum is not checked, so it wraps at 64 bits. */
  function AccessGas(list: seq<AccessTuple>, predicaters: bool): (r: GasResult)
    ensures r.NoGas? ==> r.error == GasUintOverflow || r.error == PredicateFailed
    ensures r.Gas? && !predicaters ==> r.amount <= MAX_UINT64
  {
    if predicaters then CheckedAccessGas(list) else Gas(PlainAccessGas(list) % TWO_64)
  }

  /** For a list without predicate entries the two branches agree, unless the
      sum does not fit 64 bits: then one reports it and the other wraps. */
  lemma {:induction false} AccessBranches(list: seq<AccessTuple>)
    requires forall i :: 0 <= i < |list| ==> !list[i].predicater
    ensures CheckedAccessGas(list) ==
            if PlainAccessGas(list) <= MAX_UINT64 then Gas(PlainAccessGas(list)) else NoGas(GasUintOverflow)
    ensures AccessGas(list, false) == CheckedAccessGas(list) <==> PlainAccessGas(list) <= MAX_UINT64
  {
    if list != [] {
      AccessBranches(list[..|list| - 1]);
    }
  }

  function DataGas(p: Payload, creation: bool, env: Env): nat {
    (if creation && env.homestead then TX_GAS_CONTRACT_CREATION else TX_GAS)
    + NonZero(p.data) * NonZeroGas(env)
    + (|p.data| - NonZero(p.data)) * TX_DATA_ZERO_GAS
    + if creation && env.durango then ToWordSize(|p.data|) * INIT_CODE_WORD_GAS else 0
  }

  /** The intrinsic gas is a plain sum that must fit the counter's width. */
  function Intrinsic(p: Payload, creation: bool, env: Env): (r: GasResult)
    ensures r.Gas? ==> TX_GAS <= r.amount <= MAX_UINT64
    ensures r.NoGas? ==> r.error == GasUintOverflow || r.error == PredicateFailed
  {
    var access := AccessGas(p.accessList, env.predicaters);
    if DataGas(p, creation, env) > MAX_UINT64 then NoGas(GasUintOverflow)
    else if access.NoGas? then access
    else CheckedAdd(DataGas(p, creation, env), access.amount)
  }

  // ---------- The transition ----------

  /** The checks before gas is bought, in order. */
  function CheckSender(w: World, m: Message, env: Env): Option<Error>
    requires m.from < |w.nonces| == |w.hasCode| == |w.allowed|
  {
    if w.nonces[m.from] < m.nonce then Some(NonceTooHigh)
    else if w.nonces[m.from] > m.nonce then Some(NonceTooLow)
    else if w.nonces[m.from] == MAX_UINT64 then Some(NonceMax)
    else if w.hasCode[m.from] then Some(SenderNoEOA)
    else if m.from in env.prohibited then Some(AddressProhibited)
    else if env.txAllowList && !w.allowed[m.from] then Some(SenderNotAllowed)
    else None
  }

  function CheckFees(m: Message, env: Env): Option<Error> {
    if env.baseFee.None? then None
    else if m.feeCap >= TWO_256 then Some(FeeCapVeryHigh)
    else if m.tipCap >= TWO_256 then Some(TipVeryHigh)
    else if m.feeCap < m.tipCap then Some(TipAboveFeeCap)
    else if m.feeCap < env.baseFee.value then Some(FeeCapTooLow)
    else None
  }

  function CheckBlobs(m: Message, env: Env): Option<Error> {
    if m.blobs.Some? && m.to.None? then Some(BlobTxCreate)
    else if m.blobs == Some(0) then Some(MissingBlobHashes)
    else if m.blobs.Some? && !m.blobVersionsOk then Some(InvalidBlobVersion)
    else if env.cancun && BlobGas(m) > 0 && m.blobCap < env.blobBaseFee then Some(BlobFeeCapTooLow)
    else None
  }

  function PreCheck(w: World, m: Message, env: Env): Option<Error>
    requires m.from < |w.nonces| == |w.hasCode| == |w.allowed|
  {
    if CheckSender(w, m, env).Some? then CheckSender(w, m, env)
    else if CheckFees(m, env).Some? then CheckFees(m, env)
    else CheckBlobs(m, env)
  }

  /** What is debited, and the balance that must be covered. */
  function GasDebit(m: Message, env: Env): nat {
    m.gasLimit * m.gasPrice + BlobFee(m, env)
  }

  function BalanceCheck(m: Message, env: Env): nat {
    m.gasLimit * m.feeCap + m.value + if env.cancun then BlobGas(m) * m.blobCap else 0
  }

  function Credit(w: World, a: nat, amount: nat): World
    requires a < |w.balances|
  {
    w.(balances := w.balances[a := w.balances[a] + amount])
  }

  function Debit(w: World, a: nat, amount: nat): World
    requires a < |w.balances| && amount <= w.balances[a]
  {
    w.(balances := w.balances[a := w.balances[a] - amount])
  }

  function BumpNonce(w: World, m: Message): World
    requires m.from < |w.nonces|
  {
    if m.to.Some? then w.(nonces := w.nonces[m.from := w.nonces[m.from] + 1]) else w
  }

  /** What remains after the refund counter, capped to half of the gas used;
      from SubnetEVM on there are no refunds. */
  function Refund(used: nat, counter: nat, env: Env): (r: nat)
    ensures r <= used
    ensures env.baseFee.Some? ==> r == 0
    ensures env.baseFee.None? ==> r <= counter && 2 * r <= used && (r == counter || used <= 2 * r + 1)
  {
    if env.baseFee.Some? then 0 else Min(used / 2, counter)
  }

  /** The gas that is left after the refund. */
  function GasAfterRefund(m: Message, env: Env, out: VmOut): (r: nat)
    requires out.gasLeft <= m.gasLimit
    ensures r <= m.gasLimit
  {
    out.gasLeft + Refund(m.gasLimit - out.gasLeft, out.refund, env)
  }

  /** The world once the sender has been paid back for it. */
  function Refunded(m: Message, env: Env, out: VmOut): World
    requires m.from < |out.world.balances| && out.gasLeft <= m.gasLimit
  {
    Credit(out.world, m.from, GasAfterRefund(m, env, out) * m.gasPrice)
  }

  /** Refund the sender and pay the coinbase after execution. */
  function Settled(pool: nat, m: Message, env: Env, out: VmOut): (o: Outcome)
    requires m.from < |out.world.balances| && env.coinbase < |out.world.balances| && out.gasLeft <= m.gasLimit
    ensures o.Executed?
  {
    var remaining := GasAfterRefund(m, env, out);
    var used := m.gasLimit - remaining;
    Executed(Credit(Refunded(m, env, out), env.coinbase, used * m.gasPrice),
             pool + remaining, used, remaining - out.gasLeft, out.failed)
  }

  /** Execute with the gas that intrinsic costs leave, then settle. */
  function Execute(w: World, pool: nat, m: Message, env: Env, evm: Evm, index: nat, gas: nat): (o: Outcome)
    requires m.from < |w.nonces| && gas <= m.gasLimit && env.coinbase < |w.balances|
    requires Sane(evm, |w.balances|) && ValidWorld(w, |w.balances|)
    ensures o.Executed?
  {
    Settled(pool, m, env, evm(BumpNonce(w, m), m, gas, index))
  }

  function Transition(w: World, pool: nat, m: Message, env: Env, evm: Evm, index: nat): Outcome
    requires ValidWorld(w, |w.balances|) && Sane(evm, |w.balances|)
    requires m.from < |w.balances| && env.coinbase < |w.balances| && m.gasPrice <= m.feeCap
  {
    var e := PreCheck(w, m, env);
    if e.Some? then Rejected(e.value, w, pool)
    else if BalanceCheck(m, env) >= TWO_256 || w.balances[m.from] < BalanceCheck(m, env)
    then Rejected(InsufficientFunds, w, pool)
    else if pool < m.gasLimit then Rejected(GasLimitReached, w, pool)
    else
      DebitCovered(w, m, env);
      var paid := Debit(w, m.from, GasDebit(m, env));
      var left := pool - m.gasLimit;
      var intrinsic := Intrinsic(m.payload, m.to.None?, env);
      if intrinsic.NoGas? then Rejected(intrinsic.error, paid, left)
      else if m.gasLimit < intrinsic.amount then Rejected(IntrinsicGasTooLow, paid, left)
      else if m.value >= TWO_256 || (m.value != 0 && paid.balances[m.from] < m.value)
      then Rejected(InsufficientFundsForTransfer, paid, left)
      else if env.durango && m.to.None? && |m.payload.data| > MAX_INIT_CODE_SIZE
      then Rejected(InitCodeTooLarge, paid, left)
      else Execute(paid, left, m, env, evm, index, m.gasLimit - intrinsic.amount)
  }

  // ---------- Bounds ----------

  /** Once the checks pass, the debit fits 256 bits, never exceeds the balance,
      and leaves at least the value to transfer. */
  lemma DebitCovered(w: World, m: Message, env: Env)
    requires m.from < |w.balances| && ValidWorld(w, |w.balances|)
    requires PreCheck(w, m, env).None? && m.gasPrice <= m.feeCap
    requires BalanceCheck(m, env) < TWO_256 && BalanceCheck(m, env) <= w.balances[m.from]
    ensures GasDebit(m, env) < TWO_256
    ensures GasDebit(m, env) <= w.balances[m.from]
    ensures m.value <= w.balances[m.from] - GasDebit(m, env)
    ensures m.value < TWO_256
  {
    MulMonotone(m.gasLimit, m.gasPrice, m.feeCap);
    assert CheckBlobs(m, env).None?;
    if env.cancun && BlobGas(m) > 0 {
      MulMonotone(BlobGas(m), env.blobBaseFee, m.blobCap);
    }
  }

  /** The transfer check after the purchase cannot fail, and the gas price of
      an executed message fits 256 bits. */
  lemma TransferCheckNeverFails(w: World, pool: nat, tx: Tx, env: Env, evm: Evm, index: nat)
    requires ValidWorld(w, |w.balances|) && Sane(evm, |w.balances|) && ValidTx(tx, env, |w.balances|)
    ensures var m := TransactionToMessage(tx, env.baseFee);
            var o := Transition(w, pool, m, env, evm, index);
            && (o.Rejected? ==> o.error != InsufficientFundsForTransfer)
            && (o.Executed? ==> m.gasPrice < TWO_256 && m.gasLimit * m.gasPrice < TWO_256)
  {
    var m := TransactionToMessage(tx, env.baseFee);
    var o := Transition(w, pool, m, env, evm, index);
    if PreCheck(w, m, env).None? && BalanceCheck(m, env) < TWO_256 && BalanceCheck(m, env) <= w.balances[m.from] {
      DebitCovered(w, m, env);
      if o.Executed? {
        assert m.gasLimit >= 1;
        MulMonotone(m.gasPrice, 1, m.gasLimit);
      }
    }
  }

  // ---------- Which messages execute ----------

  /** The sender's nonce is the message's and can still grow; the sender has no
      code, is not prohibited, and is allowed when the list is on. */
  predicate SenderOk(w: World, m: Message, env: Env)
    requires m.from < |w.nonces| == |w.hasCode| == |w.allowed|
  {
    && w.nonces[m.from] == m.nonce != MAX_UINT64
    && !w.hasCode[m.from]
    && m.from !in env.prohibited
    && (env.txAllowList ==> w.allowed[m.from])
  }

  /** From SubnetEVM on the caps fit 256 bits and the fee cap covers both the
      tip and the base fee. */
  predicate FeesOk(m: Message, env: Env) {
    env.baseFee.Some? ==> m.tipCap <= m.feeCap < TWO_256 && env.baseFee.value <= m.feeCap
  }

  /** A blob message is a call that carries a blob of a known version, and its
      cap covers the blob price once there is one. */
  predicate BlobsOk(m: Message, env: Env) {
    m.blobs.Some? ==>
      && m.to.Some? && m.blobs.value > 0 && m.blobVersionsOk
      && (env.cancun ==> env.blobBaseFee <= m.blobCap)
  }

  /** The most a message can cost: all its gas and all its blobs at their caps,
      and the value it moves. */
  function WorstCost(m: Message, env: Env): nat {
    m.value + m.gasLimit * m.feeCap
    + if env.cancun && m.blobs.Some? then m.blobs.value * 131072 * m.blobCap else 0
  }

  predicate FundsOk(w: World, m: Message, env: Env)
    requires m.from < |w.balances|
  {
    WorstCost(m, env) < TWO_256 && WorstCost(m, env) <= w.balances[m.from]
  }

  predicate CodeOk(m: Message, env: Env) {
    env.durango && m.to.None? ==> |m.payload.data| <= 49152
  }

  ghost predicate Fails(w: World, pool: nat, m: Message, env: Env, evm: Evm, index: nat, error: Error)
    requires ValidWorld(w, |w.balances|) && Sane(evm, |w.balances|)
    requires m.from < |w.balances| && env.coinbase < |w.balances| && m.gasPrice <= m.feeCap
  {
    var o := Transition(w, pool, m, env, evm, index);
    o.Rejected? && o.error == error
  }

  lemma ChecksAre(w: World, m: Message, env: Env)
    requires ValidWorld(w, |w.balances|) && m.from < |w.balances|
    ensures CheckSender(w, m, env).None? <==> SenderOk(w, m, env)
    ensures CheckFees(m, env).None? <==> FeesOk(m, env)
    ensures CheckBlobs(m, env).None? <==> BlobsOk(m, env)
    ensures BalanceCheck(m, env) == WorstCost(m, env)
  {
  }

  /** Which message fails with which error about its sender. */
  lemma SenderErrors(w: World, pool: nat, m: Message, env: Env, evm: Evm, index: nat)
    requires ValidWorld(w, |w.balances|) && Sane(evm, |w.balances|)
    requires m.from < |w.balances| && env.coinbase < |w.balances| && m.gasPrice <= m.feeCap
    ensures Fails(w, pool, m, env, evm, index, NonceTooHigh) <==> w.nonces[m.from] < m.nonce
    ensures Fails(w, pool, m, env, evm, index, NonceTooLow) <==> w.nonces[m.from] > m.nonce
    ensures Fails(w, pool, m, env, evm, index, NonceMax) <==> w.nonces[m.from] == m.nonce == MAX_UINT64
    ensures Fails(w, pool, m, env, evm, index, SenderNoEOA) <==>
            w.nonces[m.from] == m.nonce != MAX_UINT64 && w.hasCode[m.from]
    ensures Fails(w, pool, m, env, evm, index, AddressProhibited) <==>
            w.nonces[m.from] == m.nonce != MAX_UINT64 && !w.hasCode[m.from] && m.from in env.prohibited
    ensures Fails(w, pool, m, env, evm, index, SenderNotAllowed) <==>
            && w.nonces[m.from] == m.nonce != MAX_UINT64 && !w.hasCode[m.from] && m.from !in env.prohibited
            && env.txAllowList && !w.allowed[m.from]
  {
    hide Sane, Intrinsic, Execute;
  }

  /** Which message of a good sender fails with which error about its fees. */
  lemma FeeErrors(w: World, pool: nat, m: Message, env: Env, evm: Evm, index: nat)
    requires ValidWorld(w, |w.balances|) && Sane(evm, |w.balances|)
    requires m.from < |w.balances| && env.coinbase < |w.balances| && m.gasPrice <= m.feeCap
    ensures Fails(w, pool, m, env, evm, index, FeeCapVeryHigh) <==>
            SenderOk(w, m, env) && env.baseFee.Some? && TWO_256 <= m.feeCap
    ensures Fails(w, pool, m, env, evm, index, TipVeryHigh) <==>
            SenderOk(w, m, env) && env.baseFee.Some? && m.feeCap < TWO_256 <= m.tipCap
    ensures Fails(w, pool, m, env, evm, index, TipAboveFeeCap) <==>
            SenderOk(w, m, env) && env.baseFee.Some? && m.feeCap < m.tipCap < TWO_256
    ensures Fails(w, pool, m, env, evm, index, FeeCapTooLow) <==>
            && SenderOk(w, m, env) && env.baseFee.Some? && m.feeCap < TWO_256
            && m.tipCap <= m.feeCap < env.baseFee.value
  {
    hide Sane, Intrinsic, Execute;
  }

  /** Which message with good sender and fees fails with which blob error. */
  lemma BlobErrors(w: World, pool: nat, m: Message, env: Env, evm: Evm, index: nat)
    requires ValidWorld(w, |w.balances|) && Sane(evm, |w.balances|)
    requires m.from < |w.balances| && env.coinbase < |w.balances| && m.gasPrice <= m.feeCap
    ensures Fails(w, pool, m, env, evm, index, BlobTxCreate) <==>
            SenderOk(w, m, env) && FeesOk(m, env) && m.blobs.Some? && m.to.None?
    ensures Fails(w, pool, m, env, evm, index, MissingBlobHashes) <==>
            SenderOk(w, m, env) && FeesOk(m, env) && m.blobs == Some(0) && m.to.Some?
    ensures Fails(w, pool, m, env, evm, index, InvalidBlobVersion) <==>
            && SenderOk(w, m, env) && FeesOk(m, env) && m.blobs.Some? && m.to.Some?
            && m.blobs.value > 0 && !m.blobVersionsOk
    ensures Fails(w, pool, m, env, evm, index, BlobFeeCapTooLow) <==>
            && SenderOk(w, m, env) && FeesOk(m, env) && m.blobs.Some? && m.to.Some?
            && m.blobs.value > 0 && m.blobVersionsOk && env.cancun && m.blobCap < env.blobBaseFee
  {
    hide Sane, Intrinsic, Execute;
  }

  /** Which message that passes those checks fails while it buys its gas. */
  lemma PurchaseErrors(w: World, pool: nat, m: Message, env: Env, evm: Evm, index: nat)
    requires ValidWorld(w, |w.balances|) && Sane(evm, |w.balances|)
    requires m.from < |w.balances| && env.coinbase < |w.balances| && m.gasPrice <= m.feeCap
    ensures Fails(w, pool, m, env, evm, index, InsufficientFunds) <==>
            SenderOk(w, m, env) && FeesOk(m, env) && BlobsOk(m, env) && !FundsOk(w, m, env)
    ensures Fails(w, pool, m, env, evm, index, GasLimitReached) <==>
            && SenderOk(w, m, env) && FeesOk(m, env) && BlobsOk(m, env) && FundsOk(w, m, env)
            && pool < m.gasLimit
  {
    ChecksAre(w, m, env);
    hide Sane, Intrinsic, Execute, BalanceCheck, WorstCost, SenderOk, FeesOk, BlobsOk;
  }

  /** A message can pay: its sender, fees, blobs and funds pass, and the block
      has gas for it. */
  predicate Pays(w: World, pool: nat, m: Message, env: Env)
    requires ValidWorld(w, |w.balances|) && m.from < |w.balances|
  {
    && SenderOk(w, m, env) && FeesOk(m, env) && BlobsOk(m, env) && FundsOk(w, m, env)
    && m.gasLimit <= pool
  }

  /** Up to the purchase a message fails exactly when it cannot pay, and what
      follows the purchase does not fail for want of funds. */
  lemma PaysIff(w: World, pool: nat, m: Message, env: Env)
    requires ValidWorld(w, |w.balances|) && m.from < |w.balances| && m.gasPrice <= m.feeCap
    ensures Pays(w, pool, m, env) <==>
            && PreCheck(w, m, env).None?
            && BalanceCheck(m, env) < TWO_256 && BalanceCheck(m, env) <= w.balances[m.from] && m.gasLimit <= pool
    ensures Pays(w, pool, m, env) ==>
              && GasDebit(m, env) <= w.balances[m.from]
              && m.value < TWO_256 && m.value <= w.balances[m.from] - GasDebit(m, env)
  {
    ChecksAre(w, m, env);
    if Pays(w, pool, m, env) {
      DebitCovered(w, m, env);
    }
  }

  /** Which message that can pay fails over its intrinsic gas or its code. */
  lemma GasErrors(w: World, pool: nat, m: Message, env: Env, evm: Evm, index: nat)
    requires ValidWorld(w, |w.balances|) && Sane(evm, |w.balances|)
    requires m.from < |w.balances| && env.coinbase < |w.balances| && m.gasPrice <= m.feeCap
    ensures var gas := Intrinsic(m.payload, m.to.None?, env);
            && (Fails(w, pool, m, env, evm, index, GasUintOverflow) <==>
                Pays(w, pool, m, env) && gas == NoGas(GasUintOverflow))
            && (Fails(w, pool, m, env, evm, index, PredicateFailed) <==>
                Pays(w, pool, m, env) && gas == NoGas(PredicateFailed))
            && (Fails(w, pool, m, env, evm, index, IntrinsicGasTooLow) <==>
                Pays(w, pool, m, env) && gas.Gas? && m.gasLimit < gas.amount)
            && (Fails(w, pool, m, env, evm, index, InitCodeTooLarge) <==>
                Pays(w, pool, m, env) && gas.Gas? && gas.amount <= m.gasLimit && !CodeOk(m, env))
            && !Fails(w, pool, m, env, evm, index, InsufficientFundsForTransfer)
  {
    PaysIff(w, pool, m, env);
    PreCheckErrors(w, m, env);
    hide Sane, Intrinsic, Execute, PreCheck, BalanceCheck, GasDebit, Pays;
  }

  lemma PreCheckErrors(w: World, m: Message, env: Env)
    requires ValidWorld(w, |w.balances|) && m.from < |w.balances|
    ensures PreCheck(w, m, env).Some? ==>
              PreCheck(w, m, env).value !in
              {GasUintOverflow, PredicateFailed, IntrinsicGasTooLow, InitCodeTooLarge, InsufficientFundsForTransfer}
  {
  }

  /** A message executes exactly when it can pay, its gas covers the intrinsic
      cost, and its init code is not too large. */
  lemma ExecutedIff(w: World, pool: nat, m: Message, env: Env, evm: Evm, index: nat)
    requires ValidWorld(w, |w.balances|) && Sane(evm, |w.balances|)
    requires m.from < |w.balances| && env.coinbase < |w.balances| && m.gasPrice <= m.feeCap
    ensures Transition(w, pool, m, env, evm, index).Executed? <==>
            && SenderOk(w, m, env) && FeesOk(m, env) && BlobsOk(m, env) && FundsOk(w, m, env)
            && m.gasLimit <= pool && CodeOk(m, env)
            && var gas := Intrinsic(m.payload, m.to.None?, env); gas.Gas? && gas.amount <= m.gasLimit
  {
    PaysIff(w, pool, m, env);
    assert Pays(w, pool, m, env) <==>
           && SenderOk(w, m, env) && FeesOk(m, env) && BlobsOk(m, env) && FundsOk(w, m, env)
           && m.gasLimit <= pool;
    hide Sane, Intrinsic, Execute, PreCheck, BalanceCheck, GasDebit, Pays, SenderOk, FeesOk, BlobsOk, FundsOk;
  }

  /** The interpreter runs on the sender's balance less the gas and the blobs
      at their prices, with the sender's nonce raised for a call, and with the
      gas the intrinsic cost leaves. */
  lemma ExecutesOn(w: World, pool: nat, m: Message, env: Env, evm: Evm, index: nat)
    requires ValidWorld(w, |w.balances|) && Sane(evm, |w.balances|)
    requires m.from < |w.balances| && env.coinbase < |w.balances| && m.gasPrice <= m.feeCap
    requires Transition(w, pool, m, env, evm, index).Executed?
    ensures var price := m.gasLimit * m.gasPrice
                         + if env.cancun && m.blobs.Some? then m.blobs.value * 131072 * env.blobBaseFee else 0;
            var gas := Intrinsic(m.payload, m.to.None?, env);
            && price <= w.balances[m.from] && gas.Gas? && gas.amount <= m.gasLimit
            && Ran(w, pool, m, env, evm, index) ==
               evm(w.(balances := w.balances[m.from := w.balances[m.from] - price],
                      nonces := if m.to.Some? then w.nonces[m.from := m.nonce + 1] else w.nonces),
                   m, m.gasLimit - gas.amount, index)
  {
    ExecutedIff(w, pool, m, env, evm, index);
    PaysIff(w, pool, m, env);
    hide Sane, Intrinsic;
  }

  // ---------- Conservation ----------

  lemma {:induction false} SumUpdate(s: seq<nat>, i: nat, x: nat)
    requires i < |s|
    ensures Sum(s[i := x]) == Sum(s) - s[i] + x
  {
    if i < |s| - 1 {
      SumUpdate(s[..|s| - 1], i, x);
      assert s[i := x][..|s| - 1] == s[..|s| - 1][i := x];
    } else {
      assert s[i := x][..|s| - 1] == s[..|s| - 1];
    }
  }

  /** Paying the remaining gas back and the used gas to the coinbase adds the
      whole bought gas to the balances. */
  lemma PaymentsAdd(balances: seq<nat>, sender: nat, coinbase: nat, remaining: nat, used: nat, price: nat)
    requires sender < |balances| && coinbase < |balances|
    ensures var first := balances[sender := balances[sender] + remaining * price];
            Sum(first[coinbase := first[coinbase] + used * price]) == Sum(balances) + (remaining + used) * price
  {
    var first := balances[sender := balances[sender] + remaining * price];
    SumUpdate(balances, sender, balances[sender] + remaining * price);
    SumUpdate(first, coinbase, first[coinbase] + used * price);
    assert remaining * price + used * price == (remaining + used) * price;
  }

  lemma ExecuteConserves(w: World, pool: nat, m: Message, env: Env, evm: Evm, index: nat, gas: nat)
    requires m.from < |w.nonces| && gas <= m.gasLimit && env.coinbase < |w.balances|
    requires Sane(evm, |w.balances|) && ValidWorld(w, |w.balances|)
    ensures var o := Execute(w, pool, m, env, evm, index, gas);
            && ValidWorld(o.world, |w.balances|)
            && Sum(o.world.balances) == Sum(w.balances) + m.gasLimit * m.gasPrice
            && o.pool + o.usedGas == pool + m.gasLimit
            && o.usedGas + (m.gasLimit - o.usedGas) == m.gasLimit && o.usedGas <= m.gasLimit
  {
    var b := BumpNonce(w, m);
    assert ValidWorld(b, |w.balances|);
    var out := evm(b, m, gas, index);
    var refund := Refund(m.gasLimit - out.gasLeft, out.refund, env);
    var remaining := out.gasLeft + refund;
    var used := m.gasLimit - remaining;
    PaymentsAdd(out.world.balances, m.from, env.coinbase, remaining, used, m.gasPrice);
  }

  /** An executed message changes the total balance by exactly minus the blob
      fee, gives back exactly the gas it did not use, and uses no more than
      its limit. */
  lemma TransitionConserves(w: World, pool: nat, m: Message, env: Env, evm: Evm, index: nat)
    requires ValidWorld(w, |w.balances|) && Sane(evm, |w.balances|)
    requires m.from < |w.balances| && env.coinbase < |w.balances| && m.gasPrice <= m.feeCap
    ensures var o := Transition(w, pool, m, env, evm, index);
            o.Executed? ==>
              && ValidWorld(o.world, |w.balances|)
              && Sum(o.world.balances) == Sum(w.balances) - BlobFee(m, env)
              && o.pool == pool - o.usedGas
              && o.usedGas <= m.gasLimit <= pool
  {
    var o := Transition(w, pool, m, env, evm, index);
    if o.Executed? {
      DebitCovered(w, m, env);
      var paid := Debit(w, m.from, GasDebit(m, env));
      SumUpdate(w.balances, m.from, w.balances[m.from] - GasDebit(m, env));
      var gas := m.gasLimit - Intrinsic(m.payload, m.to.None?, env).amount;
      ExecuteConserves(paid, pool - m.gasLimit, m, env, evm, index, gas);
    }
  }

  /** Settling pays the sender for the gas that is left, then the coinbase for
      exactly the gas used, at the message's price, and touches no other
      account. */
  lemma SettledPays(pool: nat, m: Message, env: Env, out: VmOut, a: nat)
    requires m.from < |out.world.balances| && env.coinbase < |out.world.balances| && out.gasLeft <= m.gasLimit
    requires a < |out.world.balances|
    ensures var o, r := Settled(pool, m, env, out), Refunded(m, env, out);
            && |o.world.balances| == |r.balances| == |out.world.balances|
            && r.balances[a] == out.world.balances[a] + (if a == m.from then (m.gasLimit - o.usedGas) * m.gasPrice else 0)
            && o.world.balances[a] == r.balances[a] + (if a == env.coinbase then o.usedGas * m.gasPrice else 0)
            && o.pool == pool + (m.gasLimit - o.usedGas)
            && out.gasLeft + o.refunded + o.usedGas == m.gasLimit && o.failed == out.failed
            && o.world == out.world.(balances := o.world.balances)
            && (env.baseFee.Some? ==> o.refunded == 0)
            && (env.baseFee.None? ==>
                  && o.refunded <= out.refund && o.refunded <= o.usedGas
                  && (o.refunded == out.refund || o.usedGas <= o.refunded + 1))
  {
  }

  /** What the interpreter returned in an executed transition. */
  function Ran(w: World, pool: nat, m: Message, env: Env, evm: Evm, index: nat): (out: VmOut)
    requires ValidWorld(w, |w.balances|) && Sane(evm, |w.balances|)
    requires m.from < |w.balances| && env.coinbase < |w.balances| && m.gasPrice <= m.feeCap
    requires Transition(w, pool, m, env, evm, index).Executed?
    ensures ValidWorld(out.world, |w.balances|) && out.gasLeft <= m.gasLimit <= pool
    ensures Transition(w, pool, m, env, evm, index) == Settled(pool - m.gasLimit, m, env, out)
  {
    DebitCovered(w, m, env);
    var paid := Debit(w, m.from, GasDebit(m, env));
    assert ValidWorld(BumpNonce(paid, m), |w.balances|);
    evm(BumpNonce(paid, m), m, m.gasLimit - Intrinsic(m.payload, m.to.None?, env).amount, index)
  }

  /** The world of an executed transition after execution and refund, before
      the fee is paid. */
  function BeforeFee(w: World, pool: nat, m: Message, env: Env, evm: Evm, index: nat): (r: World)
    requires ValidWorld(w, |w.balances|) && Sane(evm, |w.balances|)
    requires m.from < |w.balances| && env.coinbase < |w.balances| && m.gasPrice <= m.feeCap
    requires Transition(w, pool, m, env, evm, index).Executed?
    ensures |r.balances| == |Transition(w, pool, m, env, evm, index).world.balances| == |w.balances|
  {
    Refunded(m, env, Ran(w, pool, m, env, evm, index))
  }

  /** In a whole transition the coinbase's balance grows, after execution and
      refund, by exactly the used gas at the message's price; no other balance
      changes there. */
  lemma TransitionPays(w: World, pool: nat, m: Message, env: Env, evm: Evm, index: nat, a: nat)
    requires ValidWorld(w, |w.balances|) && Sane(evm, |w.balances|)
    requires m.from < |w.balances| && env.coinbase < |w.balances| && m.gasPrice <= m.feeCap
    requires Transition(w, pool, m, env, evm, index).Executed? && a < |w.balances|
    ensures var o, r := Transition(w, pool, m, env, evm, index), BeforeFee(w, pool, m, env, evm, index);
            o.world.balances[a] == r.balances[a] + if a == env.coinbase then o.usedGas * m.gasPrice else 0
  {
    hide Transition, Settled, Refunded, GasAfterRefund, Ran, Sane;
    var out := Ran(w, pool, m, env, evm, index);
    SettledPays(pool - m.gasLimit, m, env, out, a);
  }

  /** The effective tip added to the base fee is the price the message pays. */
  function MinerFee(tx: Tx, baseFee: Option<nat>): int {
    if baseFee.None? then tx.cap
    else
      var headroom := tx.cap as int - baseFee.value;
      baseFee.value + if headroom < tx.tip then headroom else tx.tip
  }

  lemma MinerFeeIsPrice(tx: Tx, baseFee: Option<nat>)
    ensures MinerFee(tx, baseFee) == TransactionToMessage(tx, baseFee).gasPrice
  {
  }

  // ---------- Objects ----------

  /** The gas left in a block; it counts in 64 bits. */
  class GasPool {
    var gas: nat

    constructor (amount: nat)
      requires amount <= MAX_UINT64
      ensures gas == amount
    {
      gas := amount;
    }

    /** Adding above 64 bits panics, so callers must not. */
    method AddGas(amount: nat)
      requires gas + amount <= MAX_UINT64
      modifies this
      ensures gas == old(gas) + amount
    {
      gas := gas + amount;
    }

    method SubGas(amount: nat) returns (err: Option<Error>)
      modifies this
      ensures err == if old(gas) < amount then Some(GasLimitReached) else None
      ensures gas == if err.Some? then old(gas) else old(gas) - amount
    {
      if gas < amount {
        return Some(GasLimitReached);
      }
      gas := gas - amount;
      return None;
    }

    method SetGas(amount: nat)
      modifies this
      ensures gas == amount
    {
      gas := amount;
    }
  }

  /** The overflow tests divide instead of multiplying; they are exact. */
  lemma DivisionTestExact(limit: nat, gas: nat, price: nat, count: nat)
    requires gas <= limit && 0 < price
    ensures (limit - gas) / price < count <==> gas + count * price > limit
  {
    var q := (limit - gas) / price;
    DivFacts(limit - gas, price);
    if q < count {
      MulStep(price, q, count);
    } else {
      MulMonotone(price, count, q);
    }
  }

  /** Where the data is zero, or where it is not. */
  ghost function Positions(data: seq<bv8>, zero: bool): set<int> {
    set i | 0 <= i < |data| && (data[i] == 0) == zero
  }

  lemma {:induction false} NonZeroCounts(data: seq<bv8>)
    ensures |Positions(data, false)| == NonZero(data)
    ensures |Positions(data, true)| + NonZero(data) == |data|
  {
    if data != [] {
      var n := |data| - 1;
      NonZeroCounts(data[..n]);
      assert Positions(data, true) == Positions(data[..n], true) + if data[n] == 0 then {n} else {};
      assert Positions(data, false) == Positions(data[..n], false) + if data[n] == 0 then {} else {n};
    }
  }

  /** The intrinsic gas is the base cost, each byte at its price, each word of
      init code from Durango on, and the access list; it fails exactly when
      the sum does not fit 64 bits or a predicate fails. */
  lemma IntrinsicIs(p: Payload, creation: bool, env: Env)
    requires ValidPayload(p)
    ensures var sum := (if creation && env.homestead then 53000 else 21000)
                       + |Positions(p.data, true)| * 4
                       + |Positions(p.data, false)| * (if env.istanbul then 16 else 68)
                       + if creation && env.durango then (|p.data| + 31) / 32 * 2 else 0;
            var access := AccessGas(p.accessList, env.predicaters);
            Intrinsic(p, creation, env) ==
            if sum > MAX_UINT64 then NoGas(GasUintOverflow)
            else if access.NoGas? then access
            else if sum + access.amount > MAX_UINT64 then NoGas(GasUintOverflow)
            else Gas(sum + access.amount)
  {
    NonZeroCounts(p.data);
  }

  /** The intrinsic gas with the counters and overflow tests of the
      implementation; it equals the plain sum. */
  method IntrinsicGas(p: Payload, creation: bool, env: Env) returns (r: GasResult)
    requires ValidPayload(p)
    ensures r == Intrinsic(p, creation, env)
  {
    var gas := if creation && env.homestead then TX_GAS_CONTRACT_CREATION else TX_GAS;
    if |p.data| > 0 {
      var nz := CountNonZero(p.data);
      var price := NonZeroGas(env);
      DivisionTestExact(MAX_UINT64, gas, price, nz);
      if (MAX_UINT64 - gas) / price < nz {
        return NoGas(GasUintOverflow);
      }
      gas := gas + nz * price;
      var z := |p.data| - nz;
      DivisionTestExact(MAX_UINT64, gas, TX_DATA_ZERO_GAS, z);
      if (MAX_UINT64 - gas) / TX_DATA_ZERO_GAS < z {
        return NoGas(GasUintOverflow);
      }
      gas := gas + z * TX_DATA_ZERO_GAS;
      if creation && env.durango {
        var lenWords := ToWordSize(|p.data|);
        if (MAX_UINT64 - gas) / INIT_CODE_WORD_GAS < lenWords {
          return NoGas(GasUintOverflow);
        }
        gas := gas + lenWords * INIT_CODE_WORD_GAS;
      }
    }
    assert gas == DataGas(p, creation, env);
    var access := AccessListGas(p.accessList, env.predicaters);
    if access.NoGas? {
      return access;
    }
    r := CheckedAdd(gas, access.amount);
  }

  method CountNonZero(data: seq<bv8>) returns (nz: nat)
    ensures nz == NonZero(data)
  {
    nz := 0;
    for i := 0 to |data|
      invariant nz == NonZero(data[..i])
    {
      assert data[..i + 1][..i] == data[..i];
      if data[i] != 0 {
        nz := nz + 1;
      }
    }
    assert data[..|data|] == data;
  }

  method CountKeys(list: seq<AccessTuple>) returns (keys: nat)
    ensures keys == TotalKeys(list)
  {
    keys := 0;
    for i := 0 to |list|
      invariant keys == TotalKeys(list[..i])
    {
      assert list[..i + 1][..i] == list[..i];
      keys := keys + list[i].keys;
    }
    assert list[..|list|] == list;
  }

  method AccessListGas(list: seq<AccessTuple>, predicaters: bool) returns (r: GasResult)
    requires forall i :: 0 <= i < |list| ==> list[i].keys < 0x1_0000_0000_0000
    ensures r == AccessGas(list, predicaters)
  {
    if !predicaters {
      var keys := CountKeys(list);
      return Gas((|list| * ACCESS_LIST_ADDRESS_GAS + keys * ACCESS_LIST_STORAGE_KEY_GAS) % TWO_64);
    }
    r := Gas(0);
    var i := 0;
    while i < |list| && r.Gas?
      invariant 0 <= i <= |list|
      invariant r == CheckedAccessGas(list[..i])
    {
      assert list[..i + 1][..i] == list[..i];
      var t := list[i];
      if t.predicater && t.predicateGas.None? {
        r := NoGas(PredicateFailed);
      } else {
        r := CheckedAdd(r.amount, TupleGas(t));
      }
      i := i + 1;
    }
    if r.NoGas? {
      AccessFailurePersists(list, i);
    }
    assert i == |list| ==> list[..i] == list;
  }

  lemma {:induction false} AccessFailurePersists(list: seq<AccessTuple>, i: nat)
    requires i <= |list| && CheckedAccessGas(list[..i]).NoGas?
    ensures CheckedAccessGas(list) == CheckedAccessGas(list[..i])
  {
    if i < |list| {
      var init := list[..|list| - 1];
      assert init[..i] == list[..i];
      AccessFailurePersists(init, i);
    } else {
      assert list[..i] == list;
    }
  }

  /** One message being applied to the world and the block's gas pool. */
  class StateTransition {
    const gp: GasPool
    const msg: Message
    const env: Env
    const index: nat
    var gasRemaining: nat
    var initialGas: nat
    var world: World

    constructor (pool: GasPool, m: Message, e: Env, i: nat, w: World)
      ensures gp == pool && msg == m && env == e && index == i && world == w
      ensures gasRemaining == 0 && initialGas == 0
    {
      gp := pool;
      msg := m;
      env := e;
      index := i;
      gasRemaining := 0;
      initialGas := 0;
      world := w;
    }

    function GasUsed(): int
      reads this
    {
      initialGas - gasRemaining
    }

    /** Check the funds for the worst case, take the gas from the pool, and
        debit its actual price. */
    method BuyGas() returns (err: Option<Error>)
      requires msg.from < |world.balances| && ValidWorld(world, |world.balances|)
      requires PreCheck(world, msg, env).None? && msg.gasPrice <= msg.feeCap && gasRemaining == 0
      modifies this, gp
      ensures err.Some? ==> world == old(world) && gp.gas == old(gp.gas)
      ensures err == Some(InsufficientFunds) <==>
              BalanceCheck(msg, env) >= TWO_256 || old(world).balances[msg.from] < BalanceCheck(msg, env)
      ensures err.None? <==>
              && BalanceCheck(msg, env) < TWO_256 && BalanceCheck(msg, env) <= old(world).balances[msg.from]
              && msg.gasLimit <= old(gp.gas)
      ensures err.Some? ==> err == Some(InsufficientFunds) || err == Some(GasLimitReached)
      ensures err.None? ==>
                && GasDebit(msg, env) <= old(world).balances[msg.from]
                && world == Debit(old(world), msg.from, GasDebit(msg, env))
                && gp.gas == old(gp.gas) - msg.gasLimit
                && gasRemaining == initialGas == msg.gasLimit
    {
      var mgval := msg.gasLimit * msg.gasPrice;
      var balanceCheck := msg.gasLimit * msg.feeCap + msg.value;
      if env.cancun {
        var blobGas := BlobGas(msg);
        if blobGas > 0 {
          balanceCheck := balanceCheck + blobGas * msg.blobCap;
          mgval := mgval + blobGas * env.blobBaseFee;
        }
      }
      assert balanceCheck == BalanceCheck(msg, env) && mgval == GasDebit(msg, env);
      if balanceCheck >= TWO_256 {
        return Some(InsufficientFunds);
      }
      if world.balances[msg.from] < balanceCheck {
        return Some(InsufficientFunds);
      }
      DebitCovered(world, msg, env);
      err := gp.SubGas(msg.gasLimit);
      if err.Some? {
        return;
      }
      gasRemaining := gasRemaining + msg.gasLimit;
      initialGas := msg.gasLimit;
      world := Debit(world, msg.from, mgval);
    }

    /** Return unused gas to the sender, at the price paid, and to the pool. */
    method RefundGas(counter: nat) returns (refund: nat)
      requires gasRemaining <= initialGas && msg.from < |world.balances|
      requires gp.gas + initialGas <= MAX_UINT64
      modifies this, gp
      ensures refund == Refund(old(GasUsed()), counter, env)
      ensures gasRemaining == old(gasRemaining) + refund <= initialGas == old(initialGas)
      ensures world == Credit(old(world), msg.from, gasRemaining * msg.gasPrice)
      ensures gp.gas == old(gp.gas) + gasRemaining
    {
      refund := 0;
      if env.baseFee.None? {
        refund := GasUsed() / 2;
        if refund > counter {
          refund := counter;
        }
        gasRemaining := gasRemaining + refund;
      }
      world := Credit(world, msg.from, gasRemaining * msg.gasPrice);
      gp.AddGas(gasRemaining);
    }

    /** The whole transition. */
    method TransitionDb(evm: Evm) returns (o: Outcome)
      requires ValidWorld(world, |world.balances|) && Sane(evm, |world.balances|)
      requires msg.from < |world.balances| && env.coinbase < |world.balances| && msg.gasPrice <= msg.feeCap
      requires gasRemaining == 0 && gp.gas <= MAX_UINT64 && ValidPayload(msg.payload)
      modifies this, gp
      ensures o == Transition(old(world), old(gp.gas), msg, env, evm, index)
      ensures world == o.world && gp.gas == o.pool
    {
      var e := PreCheck(world, msg, env);
      if e.Some? {
        return Rejected(e.value, world, gp.gas);
      }
      e := BuyGas();
      if e.Some? {
        return Rejected(e.value, world, gp.gas);
      }
      var gas := IntrinsicGas(msg.payload, msg.to.None?, env);
      if gas.NoGas? {
        return Rejected(gas.error, world, gp.gas);
      }
      if gasRemaining < gas.amount {
        return Rejected(IntrinsicGasTooLow, world, gp.gas);
      }
      gasRemaining := gasRemaining - gas.amount;
      if msg.value >= TWO_256 {
        return Rejected(InsufficientFundsForTransfer, world, gp.gas);
      }
      if msg.value != 0 && world.balances[msg.from] < msg.value {
        return Rejected(InsufficientFundsForTransfer, world, gp.gas);
      }
      if env.durango && msg.to.None? && |msg.payload.data| > MAX_INIT_CODE_SIZE {
        return Rejected(InitCodeTooLarge, world, gp.gas);
      }
      o := ExecuteAndSettle(evm);
    }

    method ExecuteAndSettle(evm: Evm) returns (o: Outcome)
      requires ValidWorld(world, |world.balances|) && Sane(evm, |world.balances|)
      requires msg.from < |world.balances| && env.coinbase < |world.balances|
      requires gasRemaining <= initialGas == msg.gasLimit && gp.gas + initialGas <= MAX_UINT64
      modifies this, gp
      ensures o == Execute(old(world), old(gp.gas), msg, env, evm, index, old(gasRemaining))
      ensures world == o.world && gp.gas == o.pool
    {
      if msg.to.Some? {
        world := world.(nonces := world.nonces[msg.from := world.nonces[msg.from] + 1]);
      }
      assert ValidWorld(world, |world.balances|);
      var out := evm(world, msg, gasRemaining, index);
      assert world == BumpNonce(old(world), msg) && out.gasLeft <= gasRemaining;
      o := Settle(out);
    }

    /** Refund the unused gas and pay the fee to the coinbase. */
    method Settle(out: VmOut) returns (o: Outcome)
      requires msg.from < |out.world.balances| && env.coinbase < |out.world.balances|
      requires out.gasLeft <= initialGas == msg.gasLimit && gp.gas + initialGas <= MAX_UINT64
      modifies this, gp
      ensures o == Settled(old(gp.gas), msg, env, out)
      ensures world == o.world && gp.gas == o.pool
    {
      world := out.world;
      gasRemaining := out.gasLeft;
      var refund := RefundGas(out.refund);
      assert gasRemaining == GasAfterRefund(msg, env, out) && world == Refunded(msg, env, out);
      var used := GasUsed();
      world := Credit(world, env.coinbase, used * msg.gasPrice);
      o := Executed(world, gp.gas, used, refund, out.failed);
    }
  }
}
