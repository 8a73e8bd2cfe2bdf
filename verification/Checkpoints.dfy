/** The spaced-out list of ancestors a node sends to its peers. */
module Checkpoints {
  import opened Base
  import opened Store
  import opened Chain

  /** A reference followed by the last references of the epochs before it. */
  ghost function Links(r: Ref): (links: seq<Ref>)
    ensures |links| >= 1 && links[0] == r
  {
    [r] + match r.previousEpoch case None => [] case Some(q) => Links(q)
  }

  function Triangle(k: nat): nat {
    if k == 0 then 0 else Triangle(k - 1) + k
  }

  lemma {:induction false} TriangleIs(k: nat)
    ensures 2 * Triangle(k) == k * (k + 1)
  {
    if k > 0 {
      TriangleIs(k - 1);
    }
  }

  function Min(a: nat, b: nat): nat {
    if a < b then a else b
  }

  lemma {:induction false} LinkAfter(r: Ref, i: nat)
    requires i < |Links(r)|
    ensures match Links(r)[i].previousEpoch
            case None => i == |Links(r)| - 1
            case Some(q) => i + 1 < |Links(r)| && Links(r)[i + 1] == q
  {
    if i > 0 {
      LinkAfter(r.previousEpoch.value, i - 1);
    }
  }

  /** Links lead to ever shorter ancestors. */
  lemma {:induction false} LinksAreAncestors(history: History, block0: HeaderHash, r: Ref, i: nat)
    requires IsHistory(history, block0) && IsSound(history, block0, r) && i < |Links(r)|
    ensures IsSound(history, block0, Links(r)[i])
    ensures IsAncestor(Tree(history), block0, Links(r)[i].header.hash, r.header.hash)
    ensures i > 0 ==> Links(r)[i].header.length < r.header.length
  {
    if i == 0 {
      SelfAncestor(Tree(history), block0, r.header.hash);
    } else {
      var q := r.previousEpoch.value;
      LinksAreAncestors(history, block0, q, i - 1);
      EveryRef(history, block0, r);
      AncestorTransitive(Tree(history), block0, Links(r)[i].header.hash, q.header.hash, r.header.hash);
      ProperIsShorter(Tree(history), block0, q.header.hash, r.header.hash);
    }
  }

  lemma ProperIsShorter(tree: Store, block0: HeaderHash, a: HeaderHash, h: HeaderHash)
    requires IsTree(tree, block0) && IsAncestor(tree, block0, a, h) && a != h
    ensures tree[a].length < tree[h].length
  {
  }

  lemma LinksTail(history: History, block0: HeaderHash, r: Ref)
    requires IsHistory(history, block0) && IsSound(history, block0, r) && |Links(r)| > 1
    ensures r.previousEpoch.Some? && IsSound(history, block0, r.previousEpoch.value)
    ensures Links(r) == [r] + Links(r.previousEpoch.value)
  {
    hide IsHistory, NearestBefore;
  }

  lemma {:induction false} LinksShorten(history: History, block0: HeaderHash, r: Ref, i: nat, j: nat)
    requires IsHistory(history, block0) && IsSound(history, block0, r) && i < j < |Links(r)|
    ensures Links(r)[j].header.length < Links(r)[i].header.length
    ensures Links(r)[j].header.hash != Links(r)[i].header.hash
    decreases i
  {
    hide IsHistory, IsSound, IsAncestor, Links;
    LinksAreAncestors(history, block0, r, i);
    LinksAreAncestors(history, block0, r, j);
    SoundHeader(history, block0, Links(r)[i]);
    SoundHeader(history, block0, Links(r)[j]);
    if i > 0 {
      LinksTail(history, block0, r);
      LinksShorten(history, block0, r.previousEpoch.value, i - 1, j - 1);
    }
  }

  /** 1 when the parent is itself the last block of the previous epoch. */
  ghost function Shift(from: Ref): nat {
    if |Links(from)| > 1 && Links(from)[1].header.hash == from.header.parent then 1 else 0
  }

  /** How many links back the k-th epoch checkpoint is. */
  ghost function Position(from: Ref, k: nat): (p: nat)
    ensures p < |Links(from)|
  {
    Min(|Links(from)| - 1, Triangle(k) + Shift(from))
  }

  /** The hash and the parent, the epoch ends 1, 3, 6, 10, ... links back (all one further with a
      shift, the last one clamped to the first epoch), then block0 unless it is the parent. */
  ghost predicate IsCheckpointList(from: Ref, block0: HeaderHash, checkpoints: seq<HeaderHash>, m: nat) {
    var links, shift, n := Links(from), Shift(from), |Links(from)| - 1;
    && |checkpoints| == 2 + m + (if block0 != from.header.parent then 1 else 0)
    && checkpoints[0] == from.header.hash && checkpoints[1] == from.header.parent
    && (forall k :: 1 <= k <= m ==> checkpoints[1 + k] == links[Position(from, k)].header.hash)
    && (block0 != from.header.parent ==> checkpoints[2 + m] == block0)
    && n <= Triangle(m) + shift && (m > 0 ==> Triangle(m - 1) + shift < n)
  }

  /** Follows up to `count` more links. */
  method SkipBack(start: Ref, count: nat, ghost from: Ref, ghost c0: nat) returns (r: Ref, ghost c: nat)
    requires c0 < |Links(from)| && Links(from)[c0] == start
    ensures r == Links(from)[Min(|Links(from)| - 1, c0 + count)] && c == Min(|Links(from)| - 1, c0 + count)
  {
    r, c := start, c0;
    for j := 0 to count
      invariant c == Min(|Links(from)| - 1, c0 + j) && Links(from)[c] == r
    {
      LinkAfter(from, c);
      if r.previousEpoch.Some? {
        r, c := r.previousEpoch.value, c + 1;
      } else {
        break;
      }
    }
  }

  /** The list after `k` epoch checkpoints, with the walk at link `c`. */
  ghost predicate IsPartialList(from: Ref, checkpoints: seq<HeaderHash>, c: nat, k: nat) {
    && c < |Links(from)| && |checkpoints| == 2 + k
    && checkpoints[0] == from.header.hash && checkpoints[1] == from.header.parent
    && (if k == 0 then c == 0 || c == Shift(from) == 1
        else c == Position(from, k) && Triangle(k - 1) + Shift(from) < |Links(from)| - 1)
    && (forall j :: 1 <= j <= k ==> checkpoints[1 + j] == Links(from)[Position(from, j)].header.hash)
  }

  lemma NextCheckpoint(history: History, block0: HeaderHash, from: Ref, checkpoints: seq<HeaderHash>, c0: nat, k: nat,
                       c: nat)
    requires IsHistory(history, block0) && IsSound(history, block0, from)
    requires IsPartialList(from, checkpoints, c0, k) && c0 < |Links(from)| - 1 &&
             c == Min(|Links(from)| - 1, c0 + 1 + k)
    ensures var hash := Links(from)[c].header.hash;
            if checkpoints[|checkpoints| - 1] != hash then IsPartialList(from, checkpoints + [hash], c, k + 1)
            else IsPartialList(from, checkpoints, c, k)
  {
    hide IsHistory, IsSound, Links;
    LinksShorten(history, block0, from, c0, c);
    if c > 1 {
      LinksShorten(history, block0, from, 1, c);
    }
    if k > 0 {
      assert checkpoints[1 + k] == Links(from)[c0].header.hash;
    }
  }

  method NewFrom(from: Ref, block0: HeaderHash, ghost history: History) returns (checkpoints: seq<HeaderHash>)
    requires IsHistory(history, block0) && IsSound(history, block0, from)
    ensures exists m: nat :: IsCheckpointList(from, block0, checkpoints, m)
  {
    hide IsHistory, IsSound, Links, IsPartialList, IsCheckpointList;
    checkpoints := [from.header.hash, from.header.parent];
    var ignorePrev := 0;
    var currentRef := from;
    ghost var c: nat := 0;
    StartOfList(from);
    while currentRef.previousEpoch.Some?
      invariant c < |Links(from)| && Links(from)[c] == currentRef
      invariant IsPartialList(from, checkpoints, c, ignorePrev) && |checkpoints| == 2 + ignorePrev &&
                checkpoints[1] == from.header.parent
      decreases |Links(from)| - c
    {
      LinkAfter(from, c);
      ghost var c0 := c;
      currentRef, c := SkipBack(currentRef.previousEpoch.value, ignorePrev, from, c + 1);
      NextCheckpoint(history, block0, from, checkpoints, c0, ignorePrev, c);
      var hash := currentRef.header.hash;
      if checkpoints[|checkpoints| - 1] != hash {
        ignorePrev := ignorePrev + 1;
        checkpoints := checkpoints + [hash];
      }
    }
    LinkAfter(from, c);
    EndOfList(from, block0, checkpoints, ignorePrev);
    if block0 != checkpoints[1] {
      checkpoints := checkpoints + [block0];
    }
    assert IsCheckpointList(from, block0, checkpoints, ignorePrev);
  }

  lemma StartOfList(from: Ref)
    ensures IsPartialList(from, [from.header.hash, from.header.parent], 0, 0)
  {
  }

  lemma EndOfList(from: Ref, block0: HeaderHash, checkpoints: seq<HeaderHash>, m: nat)
    requires IsPartialList(from, checkpoints, |Links(from)| - 1, m)
    ensures IsCheckpointList(from, block0,
                             if block0 != from.header.parent then checkpoints + [block0] else checkpoints, m)
  {
    hide Links, Shift;
    assert m > 0 ==> Position(from, m) == |Links(from)| - 1;
  }

  lemma {:induction false} TriangleGrows(j: nat, k: nat)
    requires j < k
    ensures Triangle(j) < Triangle(k)
  {
    if j < k - 1 {
      TriangleGrows(j, k - 1);
    }
  }

  /** The epoch checkpoints lie ever further back, all behind the parent. */
  lemma PositionsGrow(from: Ref, block0: HeaderHash, checkpoints: seq<HeaderHash>, m: nat, j: nat, k: nat)
    requires IsCheckpointList(from, block0, checkpoints, m) && j < k <= m
    ensures Shift(from) < Position(from, k)
    ensures j > 0 ==> Position(from, j) < Position(from, k)
  {
    TriangleGrows(j, k);
    TriangleGrows(0, k);
    if m > 1 {
      TriangleGrows(0, m - 1);
    }
    if j < m - 1 {
      TriangleGrows(j, m - 1);
    }
  }

  /** Ancestors of one block are told apart by their length. */
  lemma SameLengthSameBlock(history: History, block0: HeaderHash, a: HeaderHash, b: HeaderHash, h: HeaderHash)
    requires IsHistory(history, block0)
    requires IsAncestor(Tree(history), block0, a, h) && IsAncestor(Tree(history), block0, b, h)
    ensures history[a].length == history[b].length ==> a == b
  {
  }

  lemma ListEntry(from: Ref, block0: HeaderHash, checkpoints: seq<HeaderHash>, m: nat, i: nat)
    requires IsCheckpointList(from, block0, checkpoints, m) && i < |checkpoints|
    ensures |checkpoints| >= 2 + m
    ensures checkpoints[i] == if i == 0 then from.header.hash
                              else if i == 1 then from.header.parent
                              else if i <= 1 + m then Links(from)[Position(from, i - 1)].header.hash
                              else block0
  {
    hide Links, Triangle, Shift, Position;
    if 2 <= i <= 1 + m {
      assert checkpoints[1 + (i - 1)] == Links(from)[Position(from, i - 1)].header.hash;
    }
  }

  /** A link other than the parent itself is an ancestor strictly shorter than the parent. */
  lemma LinkBehindParent(history: History, block0: HeaderHash, from: Ref, i: nat)
    requires IsHistory(history, block0) && IsSound(history, block0, from) && from.header.hash != block0
    requires Shift(from) < i < |Links(from)|
    ensures from.header.parent in history
    ensures var c := Links(from)[i].header;
            && c.hash in history && history[c.hash] == c && IsAncestor(Tree(history), block0, c.hash, from.header.hash)
            && c.length < history[from.header.parent].length
  {
    var links := Links(from);
    hide IsTree, IsHistory, IsAncestor, Links, IsSound;
    LinksAreAncestors(history, block0, from, i);
    SoundHeader(history, block0, links[i]);
    ParentOf(history, block0, from);
    if i > 1 {
      LinksShorten(history, block0, from, 1, i);
    }
    LinksAreAncestors(history, block0, from, 1);
    SoundHeader(history, block0, links[1]);
    SameLengthSameBlock(history, block0, links[1].header.hash, from.header.parent, from.header.hash);
  }

  lemma ParentOf(history: History, block0: HeaderHash, r: Ref)
    requires IsHistory(history, block0) && IsSound(history, block0, r) && r.header.hash != block0
    ensures r.header.parent in history && IsAncestor(Tree(history), block0, r.header.parent, r.header.hash)
    ensures history[r.header.parent].length + 1 == r.header.length
  {
    var h := r.header.hash;
    assert Tree(history)[h].parent == r.header.parent;
    ParentIsAncestor(Tree(history), block0, h);
  }

  lemma ShortestIsBlock0(history: History, block0: HeaderHash, h: HeaderHash)
    requires IsHistory(history, block0) && h in history
    ensures block0 in history && history[block0].length == 0
    ensures IsAncestor(Tree(history), block0, block0, h) && IsAncestor(Tree(history), block0, h, h)
  {
    assert Tree(history)[block0].length == 0;
    RootIsAncestor(Tree(history), block0, h);
    SelfAncestor(Tree(history), block0, h);
  }

  lemma ListedIsAncestor(history: History, block0: HeaderHash, from: Ref, checkpoints: seq<HeaderHash>, m: nat, i: nat)
    requires IsHistory(history, block0) && IsSound(history, block0, from) && from.header.hash != block0
    requires IsCheckpointList(from, block0, checkpoints, m) && i < |checkpoints|
    ensures checkpoints[i] in history && IsAncestor(Tree(history), block0, checkpoints[i], from.header.hash)
  {
    hide IsTree, IsHistory, IsAncestor, Links, IsSound, IsCheckpointList, Position;
    ListEntry(from, block0, checkpoints, m, i);
    SoundHeader(history, block0, from);
    ShortestIsBlock0(history, block0, from.header.hash);
    ParentOf(history, block0, from);
    if 2 <= i <= 1 + m {
      PositionsGrow(from, block0, checkpoints, m, 0, i - 1);
      LinkBehindParent(history, block0, from, Position(from, i - 1));
    }
  }

  /** No entry is longer than one before it, and up to the final block0 each is strictly shorter. */
  lemma ListedShorten(history: History, block0: HeaderHash, from: Ref, checkpoints: seq<HeaderHash>, m: nat, i: nat,
                      j: nat)
    requires IsHistory(history, block0) && IsSound(history, block0, from) && from.header.hash != block0
    requires IsCheckpointList(from, block0, checkpoints, m) && i < j < |checkpoints|
    ensures checkpoints[i] in history && checkpoints[j] in history
    ensures history[checkpoints[j]].length <= history[checkpoints[i]].length
    ensures j <= 1 + m ==> history[checkpoints[j]].length < history[checkpoints[i]].length
  {
    hide IsTree, IsHistory, IsAncestor, Links, IsSound, IsCheckpointList, Position;
    ListedIsAncestor(history, block0, from, checkpoints, m, i);
    ListEntry(from, block0, checkpoints, m, i);
    ListEntry(from, block0, checkpoints, m, j);
    SoundHeader(history, block0, from);
    ShortestIsBlock0(history, block0, from.header.hash);
    ParentOf(history, block0, from);
    if 2 <= j <= 1 + m {
      PositionsGrow(from, block0, checkpoints, m, 0, j - 1);
      LinkBehindParent(history, block0, from, Position(from, j - 1));
      if i >= 2 {
        PositionsGrow(from, block0, checkpoints, m, 0, i - 1);
        PositionsGrow(from, block0, checkpoints, m, i - 1, j - 1);
        LinkBehindParent(history, block0, from, Position(from, i - 1));
        LinksShorten(history, block0, from, Position(from, i - 1), Position(from, j - 1));
      }
    }
  }

  /** Every entry is the reference itself or an ancestor of it, no entry is longer than the one
      before it, and block0 is always there. */
  lemma CheckpointsAreAncestors(history: History, block0: HeaderHash, from: Ref, checkpoints: seq<HeaderHash>, m: nat)
    requires IsHistory(history, block0) && IsSound(history, block0, from) && from.header.hash != block0
    requires IsCheckpointList(from, block0, checkpoints, m)
    ensures forall i :: 0 <= i < |checkpoints| ==>
              checkpoints[i] in history && IsAncestor(Tree(history), block0, checkpoints[i], from.header.hash)
    ensures forall i, j :: 0 <= i < j < |checkpoints| ==>
              history[checkpoints[j]].length <= history[checkpoints[i]].length
    ensures block0 in checkpoints
  {
    hide IsTree, IsSound, IsAncestor, Links;
    forall i | 0 <= i < |checkpoints|
      ensures checkpoints[i] in history && IsAncestor(Tree(history), block0, checkpoints[i], from.header.hash)
    {
      ListedIsAncestor(history, block0, from, checkpoints, m, i);
    }
    forall i, j | 0 <= i < j < |checkpoints|
      ensures history[checkpoints[j]].length <= history[checkpoints[i]].length
    {
      ListedShorten(history, block0, from, checkpoints, m, i, j);
    }
    ListEntry(from, block0, checkpoints, m, |checkpoints| - 1);
  }

  /** At most one link for each epoch before. */
  lemma {:induction false} LinksPerEpoch(history: History, block0: HeaderHash, r: Ref)
    requires IsHistory(history, block0) && IsSound(history, block0, r)
    ensures |Links(r)| <= r.header.date.epoch + 1
  {
    if r.previousEpoch.Some? {
      EveryRef(history, block0, r);
      LinksPerEpoch(history, block0, r.previousEpoch.value);
    }
  }

  /** With n links back there are about sqrt(2n) epoch checkpoints, and n is at most the epoch. */
  lemma ListLength(history: History, block0: HeaderHash, from: Ref, checkpoints: seq<HeaderHash>, m: nat)
    requires IsHistory(history, block0) && IsSound(history, block0, from)
    requires IsCheckpointList(from, block0, checkpoints, m)
    ensures var n := |Links(from)| - 1;
            && (m > 0 ==> (m - 1) * m < 2 * n) && 2 * n <= m * (m + 1) + 2
            && n <= from.header.date.epoch
    ensures m + 2 <= |checkpoints| <= m + 3
  {
    hide IsHistory, IsSound, Links;
    LinksPerEpoch(history, block0, from);
    TriangleIs(m);
    if m > 0 {
      TriangleIs(m - 1);
    }
  }

  ghost predicate HasRepeat(checkpoints: seq<HeaderHash>) {
    exists i, j :: 0 <= i < j < |checkpoints| && checkpoints[i] == checkpoints[j]
  }

  /** Block0 is listed twice exactly when the last link already leads to it and it is not the parent. */
  lemma RepeatsIff(history: History, block0: HeaderHash, from: Ref, checkpoints: seq<HeaderHash>, m: nat)
    requires IsHistory(history, block0) && IsSound(history, block0, from) && from.header.hash != block0
    requires IsCheckpointList(from, block0, checkpoints, m)
    ensures HasRepeat(checkpoints) <==>
            block0 != from.header.parent && Links(from)[|Links(from)| - 1].header.hash == block0
  {
    hide IsTree, IsHistory, IsSound, IsAncestor, Links, Triangle;
    var last := Links(from)[|Links(from)| - 1].header.hash;
    if m > 0 {
      assert Position(from, m) == |Links(from)| - 1;
      assert checkpoints[1 + m] == Links(from)[Position(from, m)].header.hash;
    }
    if HasRepeat(checkpoints) {
      var i, j :| 0 <= i < j < |checkpoints| && checkpoints[i] == checkpoints[j];
      ListedShorten(history, block0, from, checkpoints, m, i, j);
      assert j == 2 + m;
      if i <= m {
        ListedShorten(history, block0, from, checkpoints, m, i, m + 1);
        ShortestIsBlock0(history, block0, checkpoints[1 + m]);
      }
    }
    if block0 != from.header.parent && last == block0 {
      LastLinkIsListed(from, block0, checkpoints, m);
      assert checkpoints[1 + m] == checkpoints[2 + m];
    }
  }

  /** Block0 in epoch 0, then blocks 1 and 2 in epoch 1. */
  const TWO_EPOCHS: History := map[
    0 := Header(0, 99, 0, BlockDate(0, 0)),
    1 := Header(1, 0, 1, BlockDate(1, 0)),
    2 := Header(2, 1, 2, BlockDate(1, 1))]

  const REF0: Ref := Ref(TWO_EPOCHS[0], 0, None)
  const REF2: Ref := Ref(TWO_EPOCHS[2], 1, Some(REF0))

  lemma TwoEpochsIsHistory()
    ensures IsHistory(TWO_EPOCHS, 0)
  {
    hide IsHistory;
    var h0, h1, h2 := TWO_EPOCHS[0], TWO_EPOCHS[1], TWO_EPOCHS[2];
    Block0IsHistory(h0);
    HistoryGrows(map[0 := h0], 0, h1);
    HistoryGrows(map[0 := h0, 1 := h1], 0, h2);
    assert map[0 := h0][1 := h1] == map[0 := h0, 1 := h1];
    assert map[0 := h0, 1 := h1][2 := h2] == TWO_EPOCHS;
  }

  lemma Block0IsHistory(h0: Header)
    requires h0.length == 0
    ensures IsHistory(map[h0.hash := h0], h0.hash)
  {
  }

  lemma Ref2IsSound()
    ensures IsHistory(TWO_EPOCHS, 0) && IsSound(TWO_EPOCHS, 0, REF2)
  {
    TwoEpochsIsHistory();
    hide IsHistory, IsTree;
    assert NearestBefore(TWO_EPOCHS, 0, 0, 0) == None;
    assert NearestBefore(TWO_EPOCHS, 0, 1, 1) == Some(0);
    assert NearestBefore(TWO_EPOCHS, 0, 2, 1) == Some(0);
    assert IsSound(TWO_EPOCHS, 0, REF0);
  }

  /** The list made for block 2 ends with block0 twice. */
  lemma Block0IsRepeated()
    ensures IsHistory(TWO_EPOCHS, 0) && IsSound(TWO_EPOCHS, 0, REF2)
    ensures IsCheckpointList(REF2, 0, [2, 1, 0, 0], 1) && HasRepeat([2, 1, 0, 0])
  {
    Ref2IsSound();
    hide IsHistory, IsSound;
    assert Links(REF0) == [REF0] && Links(REF2) == [REF2, REF0];
    assert Triangle(0) == 0 && Triangle(1) == 1 && Position(REF2, 1) == 1;
    assert [2, 1, 0, 0][2] == [2, 1, 0, 0][3];
  }

  /** Unless the only link is to the parent, the oldest link is among the epoch checkpoints. */
  lemma LastLinkIsListed(from: Ref, block0: HeaderHash, checkpoints: seq<HeaderHash>, m: nat)
    requires IsCheckpointList(from, block0, checkpoints, m)
    ensures var last := Links(from)[|Links(from)| - 1].header.hash;
            m > 0 || last == from.header.hash || last == from.header.parent
  {
  }
}
