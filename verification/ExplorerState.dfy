/** The explorer's per-block state: indexes over the branch that ends in the block. */
module ExplorerState {
  import opened Base

  datatype Block = Block(id: HeaderHash, parent: HeaderHash, length: nat, epoch: nat, txs: seq<FragmentId>)

  datatype EpochData = EpochData(firstBlock: HeaderHash, lastBlock: HeaderHash, totalBlocks: nat)

  datatype State = State(
    transactions: map<FragmentId, HeaderHash>,
    blocks: map<HeaderHash, Block>,
    epochs: map<nat, EpochData>,
    chainLengths: map<nat, HeaderHash>)

  datatype Error =
    | AncestorNotFound(block: HeaderHash)
    | TransactionAlreadyExists(tx: FragmentId)
    | BlockAlreadyExists(block: HeaderHash)
    | ChainLengthBlockAlreadyExists(length: nat)

  datatype Result<+T> = Ok(value: T) | Err(error: Error)

  function ApplyToTransactions(transactions: map<FragmentId, HeaderHash>, txs: seq<FragmentId>, id: HeaderHash)
    : Result<map<FragmentId, HeaderHash>>
    decreases |txs|
  {
    if txs == [] then Ok(transactions)
    else if txs[0] in transactions then Err(TransactionAlreadyExists(txs[0]))
    else ApplyToTransactions(transactions[txs[0] := id], txs[1..], id)
  }

  function ApplyToBlocks(blocks: map<HeaderHash, Block>, b: Block): Result<map<HeaderHash, Block>> {
    if b.id in blocks then Err(BlockAlreadyExists(b.id)) else Ok(blocks[b.id := b])
  }

  function ApplyToEpochs(epochs: map<nat, EpochData>, b: Block): map<nat, EpochData> {
    epochs[b.epoch := if b.epoch in epochs
                      then EpochData(epochs[b.epoch].firstBlock, b.id, epochs[b.epoch].totalBlocks + 1)
                      else EpochData(b.id, b.id, 0)]
  }

  function ApplyToChainLengths(chainLengths: map<nat, HeaderHash>, b: Block): Result<map<nat, HeaderHash>> {
    if b.length in chainLengths then Err(ChainLengthBlockAlreadyExists(b.length))
    else Ok(chainLengths[b.length := b.id])
  }

  const EMPTY: State := State(map[], map[], map[], map[])

  function ApplyBlock(s: State, b: Block): Result<State> {
    match ApplyToTransactions(s.transactions, b.txs, b.id)
    case Err(e) => Err(e)
    case Ok(transactions) =>
      match ApplyToBlocks(s.blocks, b)
      case Err(e) => Err(e)
      case Ok(blocks) =>
        match ApplyToChainLengths(s.chainLengths, b)
        case Err(e) => Err(e)
        case Ok(chainLengths) => Ok(State(transactions, blocks, ApplyToEpochs(s.epochs, b), chainLengths))
  }

  /** The state recomputed from a branch, block0 first. */
  ghost function StateOf(path: seq<Block>): Result<State> {
    if path == [] then Ok(EMPTY)
    else
      match StateOf(path[..|path| - 1])
      case Err(e) => Err(e)
      case Ok(s) => ApplyBlock(s, path[|path| - 1])
  }

  /** Block0 at length 0, and each block one longer than the one before. */
  ghost predicate IsBranch(path: seq<Block>) {
    forall i :: 0 <= i < |path| ==> path[i].length == i
  }

  function FirstIn(path: seq<Block>, epoch: nat): Option<HeaderHash> {
    if path == [] then None
    else
      match FirstIn(path[..|path| - 1], epoch)
      case Some(h) => Some(h)
      case None => if path[|path| - 1].epoch == epoch then Some(path[|path| - 1].id) else None
  }

  function LastIn(path: seq<Block>, epoch: nat): Option<HeaderHash> {
    if path == [] then None
    else if path[|path| - 1].epoch == epoch then Some(path[|path| - 1].id)
    else LastIn(path[..|path| - 1], epoch)
  }

  function CountIn(path: seq<Block>, epoch: nat): nat {
    if path == [] then 0
    else CountIn(path[..|path| - 1], epoch) + if path[|path| - 1].epoch == epoch then 1 else 0
  }

  /** Each index answers as a scan of the branch would. */
  ghost predicate IndexesBlocks(s: State, path: seq<Block>) {
    && (forall h :: h in s.blocks ==> s.blocks[h] in path && s.blocks[h].id == h)
    && (forall i :: 0 <= i < |path| ==> path[i].id in s.blocks && s.blocks[path[i].id] == path[i])
  }

  ghost predicate IndexesLengths(s: State, path: seq<Block>) {
    && (forall n :: n in s.chainLengths <==> 0 <= n < |path|)
    && (forall i :: 0 <= i < |path| ==> s.chainLengths[i] == path[i].id)
  }

  ghost predicate IndexesTransactions(s: State, path: seq<Block>) {
    && (forall t :: t in s.transactions ==> exists i :: 0 <= i < |path| && t in path[i].txs)
    && (forall i, t :: 0 <= i < |path| && t in path[i].txs ==> t in s.transactions && s.transactions[t] == path[i].id)
  }

  /** `total_blocks` starts at 0, so it is one less than the number of blocks. */
  ghost predicate IndexesEpochs(s: State, path: seq<Block>) {
    forall e :: if e in s.epochs
                then
                  && FirstIn(path, e) == Some(s.epochs[e].firstBlock)
                  && LastIn(path, e) == Some(s.epochs[e].lastBlock)
                  && CountIn(path, e) == s.epochs[e].totalBlocks + 1
                else FirstIn(path, e) == None && LastIn(path, e) == None && CountIn(path, e) == 0
  }

  ghost predicate Indexes(s: State, path: seq<Block>) {
    IndexesBlocks(s, path) && IndexesLengths(s, path) && IndexesTransactions(s, path) && IndexesEpochs(s, path)
  }

  lemma {:induction false} TransactionsAdded(transactions: map<FragmentId, HeaderHash>, txs: seq<FragmentId>,
                                             id: HeaderHash)
    requires ApplyToTransactions(transactions, txs, id).Ok?
    ensures var r := ApplyToTransactions(transactions, txs, id).value;
            && (forall t :: t in r <==> t in transactions || t in txs)
            && (forall t :: t in txs ==> r[t] == id && t !in transactions)
            && (forall t :: t in transactions ==> r[t] == transactions[t])
    decreases |txs|
  {
    if txs != [] {
      TransactionsAdded(transactions[txs[0] := id], txs[1..], id);
      assert txs == [txs[0]] + txs[1..];
    }
  }

  /** A block's transactions are the keys of a hash map. */
  ghost predicate DistinctTxs(txs: seq<FragmentId>) {
    forall i, j :: 0 <= i < j < |txs| ==> txs[i] != txs[j]
  }

  lemma {:induction false} TransactionsApply(transactions: map<FragmentId, HeaderHash>, txs: seq<FragmentId>,
                                             id: HeaderHash)
    requires DistinctTxs(txs)
    ensures ApplyToTransactions(transactions, txs, id).Ok? <==> forall t :: t in txs ==> t !in transactions
    ensures ApplyToTransactions(transactions, txs, id).Err? ==>
              var e := ApplyToTransactions(transactions, txs, id).error;
              && e.TransactionAlreadyExists?
              && exists k :: 0 <= k < |txs| && txs[k] == e.tx && txs[k] in transactions &&
                             forall j :: 0 <= j < k ==> txs[j] !in transactions
    decreases |txs|
  {
    if txs != [] {
      var rest := txs[1..];
      assert txs == [txs[0]] + rest;
      TransactionsApply(transactions[txs[0] := id], rest, id);
      var r := ApplyToTransactions(transactions, txs, id);
      if txs[0] !in transactions && r.Err? {
        var k :| 0 <= k < |rest| && rest[k] == r.error.tx && rest[k] in transactions[txs[0] := id] &&
                 forall j :: 0 <= j < k ==> rest[j] !in transactions[txs[0] := id];
        assert txs[k + 1] == rest[k];
        assert forall j :: 0 < j < k + 1 ==> txs[j] == rest[j - 1];
      }
    }
  }

  ghost predicate IsFresh(path: seq<Block>, b: Block) {
    forall i, t :: 0 <= i < |path| && t in path[i].txs ==> t !in b.txs
  }

  /** The first of the transactions that is on the branch. */
  ghost predicate IsFirstTaken(path: seq<Block>, txs: seq<FragmentId>, t: FragmentId) {
    exists k :: 0 <= k < |txs| && txs[k] == t && IsOn(path, t) && forall j :: 0 <= j < k ==> !IsOn(path, txs[j])
  }

  ghost predicate IsOn(path: seq<Block>, t: FragmentId) {
    exists i :: 0 <= i < |path| && t in path[i].txs
  }

  lemma FreshIff(path: seq<Block>, b: Block)
    ensures IsFresh(path, b) <==> forall t :: t in b.txs ==> !IsOn(path, t)
  {
  }

  /** Why a block does not extend a branch: a transaction that is on it, the block itself, or its length. */
  ghost predicate IsError(path: seq<Block>, b: Block, e: Error) {
    if !IsFresh(path, b) then e.TransactionAlreadyExists? && IsFirstTaken(path, b.txs, e.tx)
    else if b in path then e == BlockAlreadyExists(b.id)
    else e == ChainLengthBlockAlreadyExists(b.length)
  }

  /** A block extends a branch exactly when none of its transactions is on it already and it is longer
      than the branch; how much longer is not looked at. */
  lemma AppliesIff(s: State, path: seq<Block>, b: Block)
    requires Indexes(s, path) && IsBranch(path) && DistinctTxs(b.txs)
    requires forall i :: 0 <= i < |path| && path[i].id == b.id ==> path[i] == b
    ensures ApplyBlock(s, b).Ok? <==> IsFresh(path, b) && b.length >= |path|
    ensures ApplyBlock(s, b).Err? ==>
              IsError(path, b, ApplyBlock(s, b).error)
  {
    TransactionsApply(s.transactions, b.txs, b.id);
    forall t
      ensures t in s.transactions <==> IsOn(path, t)
    {
    }
    FreshIff(path, b);
    if b.id in s.blocks {
      var i :| 0 <= i < |path| && path[i] == s.blocks[b.id];
      assert path[i] == b;
    }
  }

  lemma ApplyIndexes(s: State, path: seq<Block>, b: Block)
    requires Indexes(s, path) && ApplyBlock(s, b).Ok? && b.length == |path|
    ensures Indexes(ApplyBlock(s, b).value, path + [b])
  {
    hide IndexesBlocks, IndexesLengths, IndexesTransactions, IndexesEpochs, ApplyBlock;
    BlocksStep(s, path, b);
    LengthsStep(s, path, b);
    TransactionsStep(s, path, b);
    EpochsStep(s, path, b);
  }

  lemma BlocksStep(s: State, path: seq<Block>, b: Block)
    requires IndexesBlocks(s, path) && ApplyBlock(s, b).Ok?
    ensures IndexesBlocks(ApplyBlock(s, b).value, path + [b])
  {
    var path' := path + [b];
    forall h | h in s.blocks
      ensures s.blocks[h] in path'
    {
      var i :| 0 <= i < |path| && path[i] == s.blocks[h];
      assert path'[i] == s.blocks[h];
    }
    assert path'[|path|] == b;
  }

  lemma LengthsStep(s: State, path: seq<Block>, b: Block)
    requires IndexesLengths(s, path) && ApplyBlock(s, b).Ok? && b.length == |path|
    ensures IndexesLengths(ApplyBlock(s, b).value, path + [b])
  {
  }

  lemma TransactionsStep(s: State, path: seq<Block>, b: Block)
    requires IndexesTransactions(s, path) && ApplyBlock(s, b).Ok?
    ensures IndexesTransactions(ApplyBlock(s, b).value, path + [b])
  {
    TransactionsAdded(s.transactions, b.txs, b.id);
    var path' := path + [b];
    assert path'[|path|] == b && forall i :: 0 <= i < |path| ==> path'[i] == path[i];
  }

  lemma EpochsStep(s: State, path: seq<Block>, b: Block)
    requires IndexesEpochs(s, path) && ApplyBlock(s, b).Ok?
    ensures IndexesEpochs(ApplyBlock(s, b).value, path + [b])
  {
    assert (path + [b])[..|path|] == path;
  }

  /** The state stored for a block is exactly the scan of its branch. */
  lemma {:induction false} StateIsScan(path: seq<Block>)
    requires IsBranch(path) && StateOf(path).Ok?
    ensures Indexes(StateOf(path).value, path)
  {
    if path != [] {
      var front := path[..|path| - 1];
      StateIsScan(front);
      assert path == front + [path[|path| - 1]];
      ApplyIndexes(StateOf(front).value, front, path[|path| - 1]);
    }
  }

  function BlockHashRange(s: State, from: nat, upTo: nat): (r: seq<(HeaderHash, nat)>)
    decreases upTo - from
  {
    if from >= upTo then []
    else (if from in s.chainLengths then [(s.chainLengths[from], from)] else []) + BlockHashRange(s, from + 1, upTo)
  }

  /** A range of hashes is the matching slice of the branch, cut off at its end. */
  lemma {:induction false} RangeIsSlice(s: State, path: seq<Block>, from: nat, upTo: nat)
    requires IndexesLengths(s, path) && from <= upTo
    ensures var end := if upTo < |path| then upTo else |path|;
            var r := BlockHashRange(s, from, upTo);
            && |r| == (if from < end then end - from else 0)
            && forall i :: 0 <= i < |r| ==> r[i] == (path[from + i].id, from + i)
    decreases upTo - from
  {
    if from < upTo {
      RangeIsSlice(s, path, from + 1, upTo);
    }
  }
}
