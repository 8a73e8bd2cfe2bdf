/** The explorer database: one state per block, and the tips that queries go through. */
module Explorer {
  import opened Base
  import opened ExplorerState
  import OrderedSet

  type Tip = (nat, HeaderHash)

  predicate TipBefore(a: Tip, b: Tip) {
    a.0 < b.0 || (a.0 == b.0 && a.1 < b.1)
  }

  predicate HashBefore(a: HeaderHash, b: HeaderHash) {
    a < b
  }

  lemma Orders()
    ensures OrderedSet.StrictOrder(TipBefore) && OrderedSet.StrictOrder(HashBefore)
  {
  }

  /** The blocks applied so far form a tree rooted in block0. */
  ghost predicate IsTree(applied: map<HeaderHash, Block>, root: HeaderHash) {
    && root in applied
    && (forall h :: h in applied ==> applied[h].id == h && (h == root <==> applied[h].length == 0))
    && (forall h {:trigger applied[h].parent} :: h in applied && h != root ==>
          applied[h].parent in applied && applied[applied[h].parent].length + 1 == applied[h].length)
  }

  /** The branch from block0 to a block. */
  ghost function Path(applied: map<HeaderHash, Block>, root: HeaderHash, h: HeaderHash): (path: seq<Block>)
    requires IsTree(applied, root) && h in applied
    ensures |path| == applied[h].length + 1 && path[|path| - 1] == applied[h]
    decreases applied[h].length
  {
    if h == root then [applied[h]] else Path(applied, root, applied[h].parent) + [applied[h]]
  }

  lemma {:induction false} PathIsBranch(applied: map<HeaderHash, Block>, root: HeaderHash, h: HeaderHash)
    requires IsTree(applied, root) && h in applied
    ensures IsBranch(Path(applied, root, h))
    decreases applied[h].length
  {
    if h != root {
      PathIsBranch(applied, root, applied[h].parent);
    }
  }

  lemma {:induction false} PathIsApplied(applied: map<HeaderHash, Block>, root: HeaderHash, h: HeaderHash, i: nat)
    requires IsTree(applied, root) && h in applied && i <= applied[h].length
    ensures var b := Path(applied, root, h)[i]; b.id in applied && applied[b.id] == b
    decreases applied[h].length
  {
    if i < applied[h].length {
      PathIsApplied(applied, root, applied[h].parent, i);
    }
  }

  /** Blocks already applied keep their branch when another block is added. */
  lemma {:induction false} PathExtends(applied: map<HeaderHash, Block>, root: HeaderHash, b: Block, h: HeaderHash)
    requires IsTree(applied, root) && h in applied
    requires b.id !in applied && b.parent in applied && b.length == applied[b.parent].length + 1
    ensures IsTree(applied[b.id := b], root) && b.id != root
    ensures Path(applied[b.id := b], root, h) == Path(applied, root, h)
    decreases applied[h].length
  {
    if h != root {
      PathExtends(applied, root, b, applied[h].parent);
    }
  }

  /** Block0's own parent hash refers to no block of this chain. */
  ghost predicate IsChild(applied: map<HeaderHash, Block>, c: HeaderHash, h: HeaderHash) {
    c in applied && applied[c].parent == h && applied[c].length > 0
  }

  ghost predicate IsLeaf(applied: map<HeaderHash, Block>, h: HeaderHash) {
    h in applied && forall c :: !IsChild(applied, c, h)
  }

  ghost function Longer(applied: map<HeaderHash, Block>, n: nat): set<HeaderHash> {
    set x | x in applied && applied[x].length > n
  }

  lemma LongerShrinks(applied: map<HeaderHash, Block>, c: HeaderHash, n: nat)
    requires c in applied && applied[c].length > n
    ensures Longer(applied, applied[c].length) < Longer(applied, n)
  {
    assert c in Longer(applied, n) && c !in Longer(applied, applied[c].length);
  }

  /** Every applied block is on the branch of some leaf. */
  lemma {:induction false} LeafAbove(applied: map<HeaderHash, Block>, root: HeaderHash, h: HeaderHash)
    returns (leaf: HeaderHash)
    requires IsTree(applied, root) && h in applied
    ensures IsLeaf(applied, leaf) && applied[leaf].length >= applied[h].length
    ensures Path(applied, root, leaf)[applied[h].length] == applied[h]
    decreases Longer(applied, applied[h].length)
  {
    hide Path, Longer;
    if IsLeaf(applied, h) {
      leaf := h;
    } else {
      var c :| IsChild(applied, c, h);
      LongerShrinks(applied, c, applied[h].length);
      leaf := LeafAbove(applied, root, c);
      BranchPrefix(applied, root, leaf, c);
    }
  }

  /** The branch of a block continues the branch of its ancestors. */
  lemma {:induction false} BranchPrefix(applied: map<HeaderHash, Block>, root: HeaderHash, leaf: HeaderHash,
                                        c: HeaderHash)
    requires IsTree(applied, root) && leaf in applied && c in applied && c != root
    requires applied[leaf].length >= applied[c].length && Path(applied, root, leaf)[applied[c].length] == applied[c]
    ensures Path(applied, root, leaf)[applied[c].length - 1] == applied[applied[c].parent]
    decreases applied[leaf].length
  {
    if applied[leaf].length > applied[c].length {
      BranchPrefix(applied, root, applied[leaf].parent, c);
    }
  }

  /** Each block has the state of its branch. */
  ghost predicate HasStates(applied: map<HeaderHash, Block>, root: HeaderHash, states: map<HeaderHash, State>) {
    && IsTree(applied, root)
    && states.Keys == applied.Keys
    && forall h :: h in applied ==> StateOf(Path(applied, root, h)) == Ok(states[h])
  }

  /** Leaves are tips, and tips are applied blocks. */
  ghost predicate CoversLeaves(applied: map<HeaderHash, Block>, tips: seq<Tip>) {
    && OrderedSet.Sorted(tips, TipBefore)
    && (forall t :: t in tips ==> t.1 in applied && t.0 == applied[t.1].length)
    && (forall h :: IsLeaf(applied, h) ==> (applied[h].length, h) in tips)
  }

  ghost predicate TipsAreLeaves(applied: map<HeaderHash, Block>, tips: seq<Tip>) {
    forall t :: t in tips ==> IsLeaf(applied, t.1)
  }

  /** An id stands for one block. */
  ghost predicate IsSameBlock(applied: map<HeaderHash, Block>, b: Block) {
    b.id in applied ==> applied[b.id] == b
  }

  /** What the documentation assumes of a block given to `apply_block`. */
  ghost predicate IsValidBlock(applied: map<HeaderHash, Block>, b: Block) {
    && IsSameBlock(applied, b)
    && (b.parent in applied ==> b.length == applied[b.parent].length + 1)
  }

  /** Blocks under their own ids, with distinct transactions. */
  ghost predicate IsUniverse(universe: map<HeaderHash, Block>) {
    forall h :: h in universe ==> universe[h].id == h && DistinctTxs(universe[h].txs)
  }

  /** No block skips a length. */
  ghost predicate Consecutive(applied: map<HeaderHash, Block>, root: HeaderHash) {
    forall h {:trigger applied[h].parent} :: h in applied && h != root && applied[h].parent in applied ==>
      applied[h].length == applied[applied[h].parent].length + 1
  }

  /** What holds of the database even with skipped lengths. */
  ghost predicate IsGrown(applied: map<HeaderHash, Block>, root: HeaderHash, states: map<HeaderHash, State>) {
    && root in applied && applied[root].length == 0 && states.Keys == applied.Keys
    && (forall h {:trigger applied[h].parent} :: h in applied && h != root ==> applied[h].parent in applied)
    && (forall h :: h in states ==> 0 in states[h].chainLengths)
  }

  ghost predicate Within(applied: map<HeaderHash, Block>, universe: map<HeaderHash, Block>) {
    forall h :: h in applied ==> h in universe && applied[h] == universe[h]
  }

  ghost predicate AppliedOnce(applied: map<HeaderHash, Block>, blocks: seq<Block>) {
    && (forall i :: 0 <= i < |blocks| ==> blocks[i].id !in applied)
    && (forall i, j :: 0 <= i < j < |blocks| ==> blocks[i].id != blocks[j].id)
  }

  lemma UniverseIsValid(applied: map<HeaderHash, Block>, universe: map<HeaderHash, Block>, b: Block)
    requires IsUniverse(universe) && Within(applied, universe) && b.id in universe && universe[b.id] == b
    ensures IsSameBlock(applied, b) && DistinctTxs(b.txs) && Within(applied[b.id := b], universe)
  {
  }

  /** Everything applied was there before or is one of the blocks. */
  ghost predicate CameIn(before: map<HeaderHash, Block>, applied: map<HeaderHash, Block>, blocks: seq<Block>) {
    forall h :: h in applied ==> h in before || exists j :: 0 <= j < |blocks| && blocks[j].id == h
  }

  function InsertTip(tips: seq<Tip>, b: Block): seq<Tip>
    requires b.length > 0
  {
    OrderedSet.Insert(OrderedSet.Remove(tips, (b.length - 1, b.parent)), (b.length, b.id), TipBefore)
  }

  lemma TipsAfter(tips: seq<Tip>, b: Block)
    requires b.length > 0 && OrderedSet.Sorted(tips, TipBefore)
    ensures OrderedSet.Sorted(InsertTip(tips, b), TipBefore)
    ensures forall t :: t in InsertTip(tips, b) <==>
              t == (b.length, b.id) || (t in tips && t != (b.length - 1, b.parent))
  {
    Orders();
    OrderedSet.RemoveFromSorted(tips, (b.length - 1, b.parent), TipBefore);
    OrderedSet.InsertIntoSorted(OrderedSet.Remove(tips, (b.length - 1, b.parent)), (b.length, b.id), TipBefore);
  }

  lemma LeavesAfter(applied: map<HeaderHash, Block>, root: HeaderHash, b: Block, h: HeaderHash)
    requires IsTree(applied, root) && b.parent in applied && IsValidBlock(applied, b)
    ensures IsLeaf(applied[b.id := b], h) <==>
            h != b.parent && (IsLeaf(applied, h) || (h == b.id && b.id !in applied))
  {
    var applied' := applied[b.id := b];
    assert IsChild(applied', b.id, b.parent);
    assert forall c :: c != b.id ==> (IsChild(applied', c, h) <==> IsChild(applied, c, h));
    if h == b.id && b.id !in applied {
      assert forall c :: !IsChild(applied, c, h);
    }
  }

  lemma CoversAfter(applied: map<HeaderHash, Block>, root: HeaderHash, tips: seq<Tip>, b: Block)
    requires IsTree(applied, root) && CoversLeaves(applied, tips) && IsValidBlock(applied, b) && b.parent in applied
    ensures CoversLeaves(applied[b.id := b], InsertTip(tips, b))
  {
    hide OrderedSet.Sorted, InsertTip, IsLeaf, IsTree;
    var applied', tips' := applied[b.id := b], InsertTip(tips, b);
    TipsAfter(tips, b);
    forall h | IsLeaf(applied', h)
      ensures h in applied' && (applied'[h].length, h) in tips'
    {
      LeavesAfter(applied, root, b, h);
      LeafIsApplied(applied', h);
    }
  }

  lemma LeafIsApplied(applied: map<HeaderHash, Block>, h: HeaderHash)
    requires IsLeaf(applied, h)
    ensures h in applied
  {
  }

  /** Replacing the parent by the block keeps every leaf a tip; no other tip appears unless a
      block that already has children is applied again. */
  lemma ApplyCoversLeaves(applied: map<HeaderHash, Block>, root: HeaderHash, tips: seq<Tip>, b: Block)
    requires IsTree(applied, root) && CoversLeaves(applied, tips) && IsValidBlock(applied, b) && b.parent in applied
    ensures CoversLeaves(applied[b.id := b], InsertTip(tips, b))
    ensures TipsAreLeaves(applied, tips) ==>
              (TipsAreLeaves(applied[b.id := b], InsertTip(tips, b)) <==> b.id !in applied || IsLeaf(applied, b.id))
  {
    hide CoversLeaves, TipsAreLeaves, IsTree, IsLeaf, InsertTip;
    CoversAfter(applied, root, tips, b);
    if TipsAreLeaves(applied, tips) {
      LeafTipsAfter(applied, root, tips, b);
    }
  }

  lemma LeafTipsAfter(applied: map<HeaderHash, Block>, root: HeaderHash, tips: seq<Tip>, b: Block)
    requires IsTree(applied, root) && CoversLeaves(applied, tips) && IsValidBlock(applied, b) && b.parent in applied
    requires TipsAreLeaves(applied, tips)
    ensures TipsAreLeaves(applied[b.id := b], InsertTip(tips, b)) <==> b.id !in applied || IsLeaf(applied, b.id)
  {
    hide OrderedSet.Sorted, InsertTip, IsLeaf, IsTree, CoversLeaves;
    var applied', tips' := applied[b.id := b], InsertTip(tips, b);
    assert OrderedSet.Sorted(tips, TipBefore) by { TipFacts(applied, tips, (0, 0)); }
    TipsAfter(tips, b);
    assert (b.length, b.id) in tips';
    LeavesAfter(applied, root, b, b.id);
    assert b.id != b.parent by { NotOwnParent(applied, root, b); }
    forall t | t in tips' && t.1 != b.id
      ensures IsLeaf(applied', t.1)
    {
      TipFacts(applied, tips, t);
      LeavesAfter(applied, root, b, t.1);
    }
  }

  lemma TipFacts(applied: map<HeaderHash, Block>, tips: seq<Tip>, t: Tip)
    requires CoversLeaves(applied, tips)
    ensures OrderedSet.Sorted(tips, TipBefore) && (t in tips ==> t.1 in applied && t.0 == applied[t.1].length)
  {
  }

  lemma NotOwnParent(applied: map<HeaderHash, Block>, root: HeaderHash, b: Block)
    requires IsTree(applied, root) && IsValidBlock(applied, b) && b.parent in applied
    ensures b.id != b.parent
  {
  }

  const ROW: map<HeaderHash, Block> :=
    map[0 := Block(0, 99, 0, 0, []), 1 := Block(1, 0, 1, 0, []), 2 := Block(2, 1, 2, 0, [])]

  lemma RowIsTree()
    ensures IsTree(ROW, 0)
  {
  }

  lemma RowOfThree()
    ensures CoversLeaves(ROW, [(2, 2)]) && TipsAreLeaves(ROW, [(2, 2)]) && !IsLeaf(ROW, 1)
  {
    assert IsChild(ROW, 1, 0) && IsChild(ROW, 2, 1);
  }

  lemma TipsOfRow()
    ensures InsertTip([(2, 2)], ROW[1]) == [(1, 1), (2, 2)]
  {
    var none: seq<Tip> := [];
    assert [(2, 2)][1..] == none && OrderedSet.Remove([(2, 2)], (0, 0)) == [(2, 2)];
  }

  /** With 0 <- 1 <- 2 applied, applying 1 again makes it a tip although it has a child. */
  lemma ReapplyingMakesATip()
    ensures IsTree(ROW, 0) && CoversLeaves(ROW, [(2, 2)]) && TipsAreLeaves(ROW, [(2, 2)])
    ensures IsValidBlock(ROW, ROW[1]) && ROW[1 := ROW[1]] == ROW
    ensures InsertTip([(2, 2)], ROW[1]) == [(1, 1), (2, 2)] && !TipsAreLeaves(ROW, [(1, 1), (2, 2)])
  {
    RowIsTree();
    RowOfThree();
    TipsOfRow();
    hide IsTree, CoversLeaves, IsLeaf, InsertTip;
    assert (1, 1) in [(1, 1), (2, 2)];
  }

  lemma ApplyHasStates(applied: map<HeaderHash, Block>, root: HeaderHash, states: map<HeaderHash, State>, b: Block,
                       s: State)
    requires HasStates(applied, root, states) && IsValidBlock(applied, b) && b.parent in applied
    requires ApplyBlock(states[b.parent], b) == Ok(s)
    ensures HasStates(applied[b.id := b], root, states[b.id := s])
  {
    hide ApplyBlock, Path, StateOf, IsTree;
    if b.id in applied {
      NotRoot(applied, root, b);
      AppendedState(applied, root, b, states[b.parent], s);
      assert applied[b.id := b] == applied;
    } else {
      NewHasStates(applied, root, states, b, s);
    }
  }

  lemma NotRoot(applied: map<HeaderHash, Block>, root: HeaderHash, b: Block)
    requires IsTree(applied, root) && IsValidBlock(applied, b) && b.parent in applied
    ensures b.id != root
  {
  }

  lemma NewHasStates(applied: map<HeaderHash, Block>, root: HeaderHash, states: map<HeaderHash, State>, b: Block,
                     s: State)
    requires HasStates(applied, root, states) && IsValidBlock(applied, b) && b.parent in applied && b.id !in applied
    requires ApplyBlock(states[b.parent], b) == Ok(s)
    ensures HasStates(applied[b.id := b], root, states[b.id := s])
  {
    hide ApplyBlock, Path, StateOf, IsTree;
    var applied', states' := applied[b.id := b], states[b.id := s];
    PathExtends(applied, root, b, b.parent);
    AppendedState(applied', root, b, states[b.parent], s);
    forall h | h in applied
      ensures StateOf(Path(applied', root, h)) == Ok(states'[h])
    {
      PathExtends(applied, root, b, h);
    }
  }

  lemma AppendedState(applied: map<HeaderHash, Block>, root: HeaderHash, b: Block, parentState: State, s: State)
    requires IsTree(applied, root) && b.id in applied && applied[b.id] == b && b.id != root
    requires StateOf(Path(applied, root, b.parent)) == Ok(parentState) && ApplyBlock(parentState, b) == Ok(s)
    ensures StateOf(Path(applied, root, b.id)) == Ok(s)
  {
    hide ApplyBlock;
    var path := Path(applied, root, b.parent);
    assert Path(applied, root, b.id) == path + [b];
    assert (path + [b])[..|path|] == path;
  }

  /** What the indexes of a state say is true of the applied blocks. */
  ghost predicate Truthful(s: State, applied: map<HeaderHash, Block>) {
    && (forall id :: id in s.blocks ==> id in applied && s.blocks[id] == applied[id])
    && (forall n :: n in s.chainLengths ==> var h := s.chainLengths[n]; h in applied && applied[h].length == n)
    && (forall t :: t in s.transactions ==> var h := s.transactions[t]; h in applied && t in applied[h].txs)
  }

  lemma ScanIsTruthful(s: State, path: seq<Block>, applied: map<HeaderHash, Block>)
    requires Indexes(s, path) && IsBranch(path)
    requires forall i :: 0 <= i < |path| ==> path[i].id in applied && applied[path[i].id] == path[i]
    ensures Truthful(s, applied)
  {
    forall t | t in s.transactions
      ensures var h := s.transactions[t]; h in applied && t in applied[h].txs
    {
      var i :| 0 <= i < |path| && t in path[i].txs;
    }
    forall id | id in s.blocks
      ensures id in applied && s.blocks[id] == applied[id]
    {
      var i :| 0 <= i < |path| && path[i] == s.blocks[id];
    }
  }

  lemma IndexesAreTruthful(applied: map<HeaderHash, Block>, root: HeaderHash, states: map<HeaderHash, State>,
                           tip: HeaderHash)
    requires HasStates(applied, root, states) && tip in applied
    ensures Indexes(states[tip], Path(applied, root, tip)) && Truthful(states[tip], applied)
  {
    hide StateOf, IsTree, Indexes, Truthful, Path;
    var path := Path(applied, root, tip);
    PathIsBranch(applied, root, tip);
    StateIsScan(path);
    forall i | 0 <= i < |path|
      ensures path[i].id in applied && applied[path[i].id] == path[i]
    {
      PathIsApplied(applied, root, tip, i);
    }
    ScanIsTruthful(states[tip], path, applied);
  }

  ghost predicate Finds(s: State, b: Block) {
    && b.id in s.blocks && s.blocks[b.id] == b
    && b.length in s.chainLengths && s.chainLengths[b.length] == b.id
    && forall t :: t in b.txs ==> t in s.transactions && s.transactions[t] == b.id
  }

  lemma IndexFinds(s: State, path: seq<Block>, i: nat)
    requires Indexes(s, path) && i < |path| && path[i].length == i
    ensures Finds(s, path[i])
  {
  }

  /** None of the block's transactions is on the branch it extends. */
  ghost predicate IsFreshOn(applied: map<HeaderHash, Block>, root: HeaderHash, b: Block)
    requires IsTree(applied, root) && b.parent in applied
  {
    IsFresh(Path(applied, root, b.parent), b)
  }

  lemma AppliesIffFresh(applied: map<HeaderHash, Block>, root: HeaderHash, states: map<HeaderHash, State>, b: Block)
    requires HasStates(applied, root, states) && IsSameBlock(applied, b) && b.parent in applied && DistinctTxs(b.txs)
    ensures ApplyBlock(states[b.parent], b).Ok? <==> IsFreshOn(applied, root, b) && b.length > applied[b.parent].length
    ensures ApplyBlock(states[b.parent], b).Err? ==>
              IsError(Path(applied, root, b.parent), b, ApplyBlock(states[b.parent], b).error)
  {
    hide StateOf, ApplyBlock, Truthful, Indexes, IsFresh;
    var path := Path(applied, root, b.parent);
    IndexesAreTruthful(applied, root, states, b.parent);
    PathIsBranch(applied, root, b.parent);
    forall i | 0 <= i < |path| && path[i].id == b.id
      ensures path[i] == b
    {
      PathIsApplied(applied, root, b.parent, i);
    }
    AppliesIff(states[b.parent], path, b);
  }

  /** A block that is not one longer than its parent leaves no tree. */
  lemma SkippedLength(applied: map<HeaderHash, Block>, root: HeaderHash, b: Block)
    requires IsTree(applied, root) && IsSameBlock(applied, b) && b.parent in applied
    requires b.length > applied[b.parent].length && b.length != applied[b.parent].length + 1
    ensures !IsTree(applied[b.id := b], root)
  {
    assert b.id !in applied;
    assert applied[b.id := b][b.id].parent == b.parent;
  }

  /** Such a block is taken: length 5 right on block0. */
  lemma SkippedLengthIsTaken()
    ensures var b0, b := Block(0, 99, 0, 0, []), Block(1, 0, 5, 0, []);
            && ApplyBlock(EMPTY, b0).Ok? && ApplyBlock(ApplyBlock(EMPTY, b0).value, b).Ok?
            && IsTree(map[0 := b0], 0) && !IsTree(map[0 := b0, 1 := b], 0)
  {
    var b0, b := Block(0, 99, 0, 0, []), Block(1, 0, 5, 0, []);
    SkippedLength(map[0 := b0], 0, b);
    assert map[0 := b0][1 := b] == map[0 := b0, 1 := b];
  }

  lemma StatesAreTree(applied: map<HeaderHash, Block>, root: HeaderHash, states: map<HeaderHash, State>)
    requires HasStates(applied, root, states)
    ensures IsTree(applied, root)
  {
  }

  ghost predicate Applies(applied: map<HeaderHash, Block>, root: HeaderHash, b: Block)
    requires IsTree(applied, root)
  {
    b.parent in applied && IsFreshOn(applied, root, b) && b.length > applied[b.parent].length
  }

  /** The blocks applied after a run: each one whose parent is there and whose transactions are new to its branch. */
  ghost function AppliedAfter(applied: map<HeaderHash, Block>, root: HeaderHash, blocks: seq<Block>)
    : map<HeaderHash, Block>
  {
    if blocks == [] then applied
    else
      var before, b := AppliedAfter(applied, root, blocks[..|blocks| - 1]), blocks[|blocks| - 1];
      if IsTree(before, root) && Applies(before, root, b) then before[b.id := b] else before
  }

  lemma NothingCameIn(applied: map<HeaderHash, Block>, root: HeaderHash, blocks: seq<Block>)
    ensures CameIn(applied, applied, blocks[..0]) && AppliedAfter(applied, root, blocks[..0]) == applied
  {
  }

  /** The next block of a run. */
  lemma OneMoreBlock(before: map<HeaderHash, Block>, applied: map<HeaderHash, Block>, blocks: seq<Block>, i: nat)
    requires i < |blocks| && CameIn(before, applied, blocks[..i])
    ensures var b := blocks[i];
            && CameIn(before, applied, blocks[..i + 1]) && CameIn(before, applied[b.id := b], blocks[..i + 1])
            && (AppliedOnce(before, blocks) ==> b.id !in applied)
  {
    var done := blocks[..i + 1];
    forall h | h in applied && h !in before
      ensures exists j :: 0 <= j < |done| && done[j].id == h
    {
      var j :| 0 <= j < |blocks[..i]| && blocks[..i][j].id == h;
      assert done[j].id == h;
    }
    assert done[i].id == blocks[i].id;
  }

  lemma AppliedNext(before: map<HeaderHash, Block>, applied: map<HeaderHash, Block>, root: HeaderHash,
                    blocks: seq<Block>, i: nat)
    requires i < |blocks| && IsTree(applied, root) && applied == AppliedAfter(before, root, blocks[..i])
    ensures AppliedAfter(before, root, blocks[..i + 1]) ==
            if Applies(applied, root, blocks[i]) then applied[blocks[i].id := blocks[i]] else applied
  {
    hide IsTree, Applies;
    assert blocks[..i + 1][..i] == blocks[..i];
  }

  lemma ZeroStays(s: State, b: Block)
    requires 0 in s.chainLengths && ApplyBlock(s, b).Ok?
    ensures b.length > 0 && 0 in ApplyBlock(s, b).value.chainLengths
  {
  }

  lemma GrownStep(applied: map<HeaderHash, Block>, root: HeaderHash, states: map<HeaderHash, State>, b: Block)
    requires IsGrown(applied, root, states) && IsSameBlock(applied, b) && b.parent in applied
    requires ApplyBlock(states[b.parent], b).Ok?
    ensures b.length > 0 && b.id != root
    ensures IsGrown(applied[b.id := b], root, states[b.id := ApplyBlock(states[b.parent], b).value])
  {
    hide ApplyBlock;
    ZeroStays(states[b.parent], b);
  }

  /** A skipped length is never made up for. */
  lemma ConsecutiveBefore(applied: map<HeaderHash, Block>, root: HeaderHash, b: Block)
    requires root in applied && IsSameBlock(applied, b) && b.parent in applied && b.id != root
    requires Consecutive(applied[b.id := b], root)
    ensures Consecutive(applied, root) && b.length == applied[b.parent].length + 1
  {
    var applied' := applied[b.id := b];
    assert applied'[b.id].parent == b.parent;
    forall h | h in applied && h != root && applied[h].parent in applied
      ensures applied[h].length == applied[applied[h].parent].length + 1
    {
      assert applied'[h].parent == applied[h].parent;
    }
  }

  lemma ValidIsGrown(applied: map<HeaderHash, Block>, root: HeaderHash, states: map<HeaderHash, State>)
    requires HasStates(applied, root, states)
    ensures IsGrown(applied, root, states) && Consecutive(applied, root) && IsTree(applied, root)
  {
    hide StateOf, Path, Indexes, Truthful;
    forall h | h in applied
      ensures 0 in states[h].chainLengths
    {
      IndexesAreTruthful(applied, root, states, h);
      ZeroIsIndexed(states[h], Path(applied, root, h));
    }
  }

  lemma GrownNext(applied: map<HeaderHash, Block>, root: HeaderHash, states: map<HeaderHash, State>, b: Block)
    requires IsGrown(applied, root, states) && IsSameBlock(applied, b)
    ensures b.parent in applied && ApplyBlock(states[b.parent], b).Ok? && Consecutive(applied[b.id := b], root) ==>
              Consecutive(applied, root) && b.length == applied[b.parent].length + 1
    ensures b.parent in applied ==> b.parent in states
  {
    hide ApplyBlock, Consecutive;
    if b.parent in applied && ApplyBlock(states[b.parent], b).Ok? {
      GrownStep(applied, root, states, b);
      if Consecutive(applied[b.id := b], root) {
        ConsecutiveBefore(applied, root, b);
      }
    }
  }

  lemma NotApplied(applied: map<HeaderHash, Block>, root: HeaderHash, b: Block)
    requires IsTree(applied, root)
    ensures b.parent !in applied ==> !Applies(applied, root, b)
  {
  }

  lemma ZeroIsIndexed(s: State, path: seq<Block>)
    requires Indexes(s, path) && path != []
    ensures 0 in s.chainLengths
  {
  }

  /** Applying a block to a valid database: what it takes, and exactly when it stays valid. */
  lemma ApplyOutcome(applied: map<HeaderHash, Block>, root: HeaderHash, states: map<HeaderHash, State>,
                     tips: seq<Tip>, b: Block)
    requires HasStates(applied, root, states) && CoversLeaves(applied, tips) && b.parent in applied
    requires IsSameBlock(applied, b) && DistinctTxs(b.txs)
    ensures ApplyBlock(states[b.parent], b).Ok? <==> Applies(applied, root, b)
    ensures Applies(applied, root, b) ==>
              var s := ApplyBlock(states[b.parent], b).value;
              && b.length > 0
              && (&& HasStates(applied[b.id := b], root, states[b.id := s])
                  && CoversLeaves(applied[b.id := b], InsertTip(tips, b))
                  <==> b.length == applied[b.parent].length + 1)
    ensures Applies(applied, root, b) && b.length == applied[b.parent].length + 1 && TipsAreLeaves(applied, tips) ==>
              (TipsAreLeaves(applied[b.id := b], InsertTip(tips, b)) <==> b.id !in applied || IsLeaf(applied, b.id))
  {
    hide ApplyBlock, CoversLeaves, TipsAreLeaves, StateOf, Path, IsFreshOn, InsertTip, IsLeaf;
    AppliesIffFresh(applied, root, states, b);
    if Applies(applied, root, b) {
      if b.length == applied[b.parent].length + 1 {
        ApplyCoversLeaves(applied, root, tips, b);
        ApplyHasStates(applied, root, states, b, ApplyBlock(states[b.parent], b).value);
      } else {
        SkippedLength(applied, root, b);
      }
    }
  }

  /** Every applied block is found through the indexes of some tip. */
  lemma FoundThroughTips(applied: map<HeaderHash, Block>, root: HeaderHash, states: map<HeaderHash, State>,
                         tips: seq<Tip>, h: HeaderHash)
    returns (k: nat)
    requires HasStates(applied, root, states) && CoversLeaves(applied, tips) && h in applied
    ensures k < |tips| && tips[k].1 in states && Finds(states[tips[k].1], applied[h])
  {
    hide StateOf, Indexes, Path, Finds;
    var leaf := LeafAbove(applied, root, h);
    assert (applied[leaf].length, leaf) in tips;
    k :| 0 <= k < |tips| && tips[k] == (applied[leaf].length, leaf);
    IndexesAreTruthful(applied, root, states, leaf);
    IndexFinds(states[leaf], Path(applied, root, leaf), applied[h].length);
  }

  lemma FoundInBranches(applied: map<HeaderHash, Block>, root: HeaderHash, states: map<HeaderHash, State>,
                        tips: seq<Tip>, branches: seq<State>)
    requires HasStates(applied, root, states) && CoversLeaves(applied, tips) && |branches| == |tips|
    requires forall j :: 0 <= j < |tips| ==> tips[j].1 in states && branches[|tips| - 1 - j] == states[tips[j].1]
    ensures forall h :: h in applied ==> exists i :: 0 <= i < |branches| && Finds(branches[i], applied[h])
  {
    hide HasStates, CoversLeaves, Finds;
    forall h | h in applied
      ensures exists i :: 0 <= i < |branches| && Finds(branches[i], applied[h])
    {
      var k := FoundThroughTips(applied, root, states, tips, h);
      assert Finds(branches[|tips| - 1 - k], applied[h]);
    }
  }

  /** The states of the tips, longest first, and the tips that have one. */
  method ListTips(states: map<HeaderHash, State>, tips: seq<Tip>) returns (branches: seq<State>, newTips: seq<Tip>)
    requires OrderedSet.Sorted(tips, TipBefore) && forall j :: 0 <= j < |tips| ==> tips[j].1 in states
    ensures newTips == tips && |branches| == |tips|
    ensures forall j :: 0 <= j < |tips| ==> branches[|tips| - 1 - j] == states[tips[j].1]
  {
    hide OrderedSet.Insert, OrderedSet.Sorted, OrderedSet.StrictOrder;
    Orders();
    TipOrder(tips);
    branches, newTips := [], [];
    var i := |tips|;
    while i > 0
      invariant 0 <= i <= |tips| && |branches| == |tips| - i
      invariant OrderedSet.Sorted(newTips, TipBefore)
      invariant forall t :: t in newTips <==> t in tips[i..]
      invariant forall j :: i <= j < |tips| ==> branches[|tips| - 1 - j] == states[tips[j].1]
    {
      i := i - 1;
      assert tips[i..] == [tips[i]] + tips[i + 1..];
      if tips[i].1 in states {
        branches := branches + [states[tips[i].1]];
        OrderedSet.InsertIntoSorted(newTips, tips[i], TipBefore);
        newTips := OrderedSet.Insert(newTips, tips[i], TipBefore);
      }
    }
    assert tips[0..] == tips;
    OrderedSet.SortedIsUnique(newTips, tips, TipBefore);
  }

  class ExplorerDb {
    const root: HeaderHash
    var states: map<HeaderHash, State>
    var tips: seq<Tip>
    ghost var applied: map<HeaderHash, Block>

    ghost predicate Valid()
      reads this
    {
      HasStates(applied, root, states) && CoversLeaves(applied, tips)
    }

    constructor (block0: Block)
      requires block0.length == 0 && DistinctTxs(block0.txs)
      ensures Valid() && applied == map[block0.id := block0] && root == block0.id
      ensures TipsAreLeaves(applied, tips)
    {
      TransactionsApply(map[], block0.txs, block0.id);
      root := block0.id;
      states := map[block0.id := ApplyBlock(EMPTY, block0).value];
      tips := [(block0.length, block0.id)];
      applied := map[block0.id := block0];
      new;
      assert Path(applied, root, root)[..0] == [];
    }

    /** One block, whatever was applied before it. */
    method ApplyUnchecked(b: Block) returns (r: Result<State>)
      requires IsGrown(applied, root, states) && IsSameBlock(applied, b)
      modifies this
      ensures IsGrown(applied, root, states)
      ensures r == if b.parent !in old(applied) then Err(AncestorNotFound(b.id))
                   else ApplyBlock(old(states)[b.parent], b)
      ensures r.Err? ==> states == old(states) && tips == old(tips) && applied == old(applied)
      ensures r.Ok? ==>
                && b.length > 0 && tips == InsertTip(old(tips), b)
                && applied == old(applied)[b.id := b] && states == old(states)[b.id := r.value]
    {
      hide ApplyBlock, InsertTip;
      if b.parent !in states {
        return Err(AncestorNotFound(b.id));
      }
      r := ApplyBlock(states[b.parent], b);
      if r.Ok? {
        GrownStep(applied, root, states, b);
        tips := InsertTip(tips, b);
        states := states[b.id := r.value];
        applied := applied[b.id := b];
      }
    }

    /** A block that skips a length is taken too; the database is valid afterwards exactly when that did not happen. */
    method Apply(b: Block) returns (r: Result<State>)
      requires Valid() && IsSameBlock(applied, b) && DistinctTxs(b.txs)
      modifies this
      ensures r.Ok? <==>
                && b.parent in old(applied) && IsFreshOn(old(applied), root, b)
                && b.length > old(applied)[b.parent].length
      ensures b.parent !in old(applied) ==> r == Err(AncestorNotFound(b.id))
      ensures r.Err? && b.parent in old(applied) ==>
                IsError(Path(old(applied), root, b.parent), b, r.error)
      ensures r.Err? ==> states == old(states) && tips == old(tips) && applied == old(applied)
      ensures r.Ok? ==>
                && applied == old(applied)[b.id := b] && states == old(states)[b.id := r.value]
                && tips == InsertTip(old(tips), b)
      ensures Valid() <==> (r.Ok? ==> b.length == old(applied)[b.parent].length + 1)
      ensures Valid() && r.Ok? && TipsAreLeaves(old(applied), old(tips)) ==>
                (TipsAreLeaves(applied, tips) <==> b.id !in old(applied) || IsLeaf(old(applied), b.id))
    {
      hide ApplyBlock, CoversLeaves, TipsAreLeaves, StateOf, Path, IsFreshOn, InsertTip, IsLeaf, IsGrown, IsTree;
      ValidIsGrown(applied, root, states);
      if b.parent in applied {
        ApplyOutcome(applied, root, states, tips, b);
        AppliesIffFresh(applied, root, states, b);
      }
      r := ApplyUnchecked(b);
    }

    /** Any number of blocks, each id standing for one block. The database is valid afterwards exactly when no
        applied block skips a length; and if then none is applied twice, the tips are the leaves. */
    method ApplyAll(blocks: seq<Block>, ghost universe: map<HeaderHash, Block>)
      requires Valid() && IsUniverse(universe) && Within(applied, universe) && TipsAreLeaves(applied, tips)
      requires forall b :: b in blocks ==> b.id in universe && universe[b.id] == b
      modifies this
      ensures IsGrown(applied, root, states) && Within(applied, universe)
      ensures Valid() <==> Consecutive(applied, root)
      ensures Valid() ==> applied == AppliedAfter(old(applied), root, blocks)
      ensures Valid() && AppliedOnce(old(applied), blocks) ==> TipsAreLeaves(applied, tips)
    {
      hide HasStates, CoversLeaves, TipsAreLeaves, IsTree, IsUniverse, Within, AppliedOnce, CameIn, AppliedAfter;
      hide InsertTip, ApplyBlock, IsGrown, Consecutive, Applies, IsLeaf;
      NothingCameIn(applied, root, blocks);
      ValidIsGrown(applied, root, states);
      for i := 0 to |blocks|
        invariant IsGrown(applied, root, states) && Within(applied, universe)
        invariant CameIn(old(applied), applied, blocks[..i])
        invariant Valid() <==> Consecutive(applied, root)
        invariant Valid() ==> applied == AppliedAfter(old(applied), root, blocks[..i])
        invariant Valid() && AppliedOnce(old(applied), blocks) ==> TipsAreLeaves(applied, tips)
      {
        var b := blocks[i];
        assert b in blocks;
        UniverseIsValid(applied, universe, b);
        OneMoreBlock(old(applied), applied, blocks, i);
        if Valid() {
          ValidIsGrown(applied, root, states);
          AppliedNext(old(applied), applied, root, blocks, i);
          NotApplied(applied, root, b);
          if b.parent in applied {
            ApplyOutcome(applied, root, states, tips, b);
          }
        }
        GrownNext(applied, root, states, b);
        var _ := ApplyUnchecked(b);
        if Valid() {
          ValidIsGrown(applied, root, states);
        }
      }
      assert blocks[..|blocks|] == blocks;
    }

    /** Lists the branches, longest first; with nothing collected every tip stays. */
    method Tips() returns (branches: seq<State>)
      requires Valid()
      modifies this
      ensures Valid() && states == old(states) && tips == old(tips) && applied == old(applied)
      ensures forall i, j :: 0 <= i < j < |tips| ==>
                tips[i].0 < tips[j].0 || (tips[i].0 == tips[j].0 && tips[i].1 < tips[j].1)
      ensures |branches| == |tips| && forall j :: 0 <= j < |tips| ==>
              tips[j].1 in states && branches[|tips| - 1 - j] == states[tips[j].1]
      ensures forall s :: s in branches ==> Truthful(s, applied)
      ensures forall h :: h in applied ==>
                applied[h].id == h && exists i :: 0 <= i < |branches| && Finds(branches[i], applied[h])
    {
      hide HasStates, CoversLeaves, Truthful, Finds, OrderedSet.Sorted;
      TipsAreStored(applied, root, states, tips);
      TipOrder(tips);
      var newTips;
      branches, newTips := ListTips(states, tips);
      tips := newTips;
      forall s | s in branches
        ensures Truthful(s, applied)
      {
        var k :| 0 <= k < |branches| && branches[k] == s;
        assert branches[|tips| - 1 - (|tips| - 1 - k)] == states[tips[|tips| - 1 - k].1];
      }
      FoundInBranches(applied, root, states, tips, branches);
    }

    method GetBlock(id: HeaderHash) returns (r: Option<Block>)
      requires Valid()
      modifies this
      ensures Valid() && states == old(states) && tips == old(tips) && applied == old(applied)
      ensures r == if id in applied then Some(applied[id]) else None
    {
      hide HasStates, CoversLeaves;
      var branches := Tips();
      for i := 0 to |branches|
        modifies {}
        invariant forall j :: 0 <= j < i ==> id !in branches[j].blocks
      {
        assert branches[i] in branches;
        if id in branches[i].blocks {
          return Some(branches[i].blocks[id]);
        }
      }
      r := None;
    }

    /** The hashes come back sorted and without duplicates. */
    method FindBlocksByChainLength(length: nat) returns (hashes: seq<HeaderHash>)
      requires Valid()
      modifies this
      ensures Valid() && states == old(states) && tips == old(tips) && applied == old(applied)
      ensures forall i, j :: 0 <= i < j < |hashes| ==> hashes[i] < hashes[j]
      ensures forall h :: h in hashes <==> h in applied && applied[h].length == length
    {
      hide HasStates, CoversLeaves;
      var branches := Tips();
      var found: seq<HeaderHash> := [];
      for i := 0 to |branches|
        modifies {}
        invariant forall h :: h in found ==> h in applied && applied[h].length == length
        invariant forall j :: 0 <= j < i && length in branches[j].chainLengths ==>
                  branches[j].chainLengths[length] in found
      {
        assert branches[i] in branches;
        if length in branches[i].chainLengths {
          found := found + [branches[i].chainLengths[length]];
        }
      }
      hashes := SortDedup(found);
    }

    method FindBlocksByTransaction(tx: FragmentId) returns (hashes: seq<HeaderHash>)
      requires Valid()
      modifies this
      ensures Valid() && states == old(states) && tips == old(tips) && applied == old(applied)
      ensures forall i, j :: 0 <= i < j < |hashes| ==> hashes[i] < hashes[j]
      ensures forall h :: h in hashes <==> h in applied && tx in applied[h].txs
    {
      hide HasStates, CoversLeaves;
      var branches := Tips();
      var found: seq<HeaderHash> := [];
      for i := 0 to |branches|
        modifies {}
        invariant forall h :: h in found ==> h in applied && tx in applied[h].txs
        invariant forall j :: 0 <= j < i && tx in branches[j].transactions ==> branches[j].transactions[tx] in found
      {
        assert branches[i] in branches;
        if tx in branches[i].transactions {
          found := found + [branches[i].transactions[tx]];
        }
      }
      hashes := SortDedup(found);
    }
  }

  /** By length, and by hash for the same length. */
  lemma TipOrder(tips: seq<Tip>)
    requires OrderedSet.Sorted(tips, TipBefore)
    ensures forall i, j :: 0 <= i < j < |tips| ==>
              tips[i].0 < tips[j].0 || (tips[i].0 == tips[j].0 && tips[i].1 < tips[j].1)
    ensures OrderedSet.Sorted([], TipBefore)
  {
  }

  lemma TipsAreStored(applied: map<HeaderHash, Block>, root: HeaderHash, states: map<HeaderHash, State>, tips: seq<Tip>)
    requires HasStates(applied, root, states) && CoversLeaves(applied, tips)
    ensures OrderedSet.Sorted(tips, TipBefore) && forall h :: h in applied ==> applied[h].id == h
    ensures forall j :: 0 <= j < |tips| ==> tips[j].1 in states && Truthful(states[tips[j].1], applied)
  {
    hide Path, StateOf, Truthful, Indexes;
    forall j | 0 <= j < |tips|
      ensures tips[j].1 in states && Truthful(states[tips[j].1], applied)
    {
      assert tips[j] in tips;
      IndexesAreTruthful(applied, root, states, tips[j].1);
    }
  }

  /** `sort_unstable` followed by `dedup`. */
  function SortDedup(s: seq<HeaderHash>): (r: seq<HeaderHash>)
    ensures OrderedSet.Sorted(r, HashBefore) && forall h :: h in r <==> h in s
  {
    if s == [] then []
    else
      var tail := SortDedup(s[1..]);
      Orders();
      OrderedSet.InsertIntoSorted(tail, s[0], HashBefore);
      assert s == [s[0]] + s[1..];
      OrderedSet.Insert(tail, s[0], HashBefore)
  }
}
