/** Streaming to a watch client every block it does not know above the last stable one. */
module Sync {
  import opened Base
  import opened Store

  /** The checkpoints the store knows, with their lengths, in the order sent. */
  function Known(checkpoints: seq<Option<HeaderHash>>, store: Store): (r: seq<(nat, HeaderHash)>) {
    if checkpoints == [] then []
    else (if checkpoints[0].Some? && checkpoints[0].value in store
          then [(store[checkpoints[0].value].length, checkpoints[0].value)] else [])
         + Known(checkpoints[1..], store)
  }

  predicate IsFirstMinimum(known: seq<(nat, HeaderHash)>, k: nat) {
    && k < |known|
    && (forall i :: 0 <= i < |known| ==> known[k].0 <= known[i].0)
    && (forall i :: 0 <= i < k ==> known[k].0 < known[i].0)
  }

  lemma {:induction false} KnownAppend(checkpoints: seq<Option<HeaderHash>>, c: Option<HeaderHash>, store: Store)
    ensures Known(checkpoints + [c], store) ==
            Known(checkpoints, store) + if c.Some? && c.value in store then [(store[c.value].length, c.value)] else []
  {
    if checkpoints != [] {
      assert (checkpoints + [c])[1..] == checkpoints[1..] + [c];
      KnownAppend(checkpoints[1..], c, store);
    }
  }

  lemma KnownOfNone(store: Store)
    ensures Known([], store) == []
  {
  }

  /** Keeps the known checkpoints and finds the shortest; a malformed id is an error. */
  method FilterCheckpoints(checkpoints: seq<Option<HeaderHash>>, store: Store, ghost block0: HeaderHash)
    returns (ok: bool, filtered: seq<(nat, HeaderHash)>, minIndex: Option<nat>)
    requires IsTree(store, block0)
    ensures ok <==> None !in checkpoints
    ensures ok ==> filtered == Known(checkpoints, store)
    ensures ok ==>
              if filtered == [] then minIndex == None else minIndex.Some? && IsFirstMinimum(filtered, minIndex.value)
  {
    hide Known;
    filtered, minIndex := [], None;
    assert Known([], store) == [] by { KnownOfNone(store); }
    assert checkpoints[..0] == [];
    var minLength := U32_MAX;
    for i := 0 to |checkpoints|
      invariant None !in checkpoints[..i]
      invariant filtered == Known(checkpoints[..i], store)
      invariant forall j :: 0 <= j < |filtered| ==> filtered[j].0 < U32_MAX
      invariant if filtered == [] then minIndex == None && minLength == U32_MAX
                else
                  && minIndex.Some? && IsFirstMinimum(filtered, minIndex.value)
                  && minLength == filtered[minIndex.value].0
    {
      assert checkpoints[..i + 1] == checkpoints[..i] + [checkpoints[i]];
      KnownAppend(checkpoints[..i], checkpoints[i], store);
      if checkpoints[i] == None {
        assert checkpoints[i] in checkpoints;
        return false, filtered, minIndex;
      }
      var id := checkpoints[i].value;
      if id in store {
        var chainLength := store[id].length;
        filtered := filtered + [(chainLength, id)];
        if chainLength < minLength {
          minLength := chainLength;
          minIndex := Some(|filtered| - 1);
        }
      }
    }
    assert checkpoints[..|checkpoints|] == checkpoints;
    ok := true;
  }

  /** `x` lies on the path from `c` down to, and excluding, the last stable block. */
  ghost predicate OnPath(store: Store, block0: HeaderHash, lsb: HeaderHash, c: HeaderHash, x: HeaderHash)
    requires IsTree(store, block0)
  {
    x != lsb && IsAncestor(store, block0, lsb, x) && IsAncestor(store, block0, x, c)
  }

  /** Everything on the paths from the given checkpoints. */
  ghost function Covered(store: Store, block0: HeaderHash, lsb: HeaderHash, cs: seq<HeaderHash>): set<HeaderHash>
    requires IsTree(store, block0)
  {
    set x | x in store && exists c :: c in cs && OnPath(store, block0, lsb, c, x)
  }

  /** The ancestors-or-self of `c` longer than `n`. */
  ghost function Above(store: Store, block0: HeaderHash, c: HeaderHash, n: int): set<HeaderHash>
    requires IsTree(store, block0)
  {
    set x | x in store && IsAncestor(store, block0, x, c) && store[x].length > n
  }

  lemma AboveStep(store: Store, block0: HeaderHash, c: HeaderHash, current: HeaderHash)
    requires IsTree(store, block0) && IsAncestor(store, block0, current, c)
    ensures Above(store, block0, c, store[current].length - 1) ==
            Above(store, block0, c, store[current].length) + {current}
  {
    hide At, IsTree;
    var n: int := store[current].length;
    var before, after := Above(store, block0, c, n), Above(store, block0, c, n - 1);
    assert forall x :: x in after ==> x in before || store[x].length == n;
  }

  /** The walk from a checkpoint reached the last stable block. */
  lemma WalkEnds(store: Store, block0: HeaderHash, lsb: HeaderHash, cs: seq<HeaderHash>, c: HeaderHash)
    requires IsTree(store, block0) && IsAncestor(store, block0, lsb, c)
    ensures Covered(store, block0, lsb, cs + [c]) ==
            Covered(store, block0, lsb, cs) + Above(store, block0, c, store[lsb].length)
  {
    forall x | x in Above(store, block0, c, store[lsb].length)
      ensures OnPath(store, block0, lsb, c, x)
    {
      AncestorsOnPath(store, block0, lsb, x, c);
    }
    assert forall d :: d in cs + [c] <==> d in cs || d == c;
  }

  /** The walk met a block of an earlier path: everything further down is there already. */
  lemma WalkMeets(store: Store, block0: HeaderHash, lsb: HeaderHash, cs: seq<HeaderHash>, c: HeaderHash,
                  current: HeaderHash)
    requires IsTree(store, block0) && IsAncestor(store, block0, current, c)
    requires current in Covered(store, block0, lsb, cs)
    ensures IsAncestor(store, block0, lsb, c)
    ensures Covered(store, block0, lsb, cs + [c]) ==
            Covered(store, block0, lsb, cs) + Above(store, block0, c, store[current].length)
  {
    hide At, IsAncestor;
    var c' :| c' in cs && OnPath(store, block0, lsb, c', current);
    AncestorTransitive(store, block0, lsb, current, c);
    WalkEnds(store, block0, lsb, cs, c);
    forall x | x in Above(store, block0, c, store[lsb].length) && store[x].length <= store[current].length
      ensures x in Covered(store, block0, lsb, cs)
    {
      AncestorsOnPath(store, block0, x, current, c);
      AncestorTransitive(store, block0, x, current, c');
      AncestorsOnPath(store, block0, lsb, x, c);
      LongerIsOther(store, lsb, x);
      assert OnPath(store, block0, lsb, c', x);
    }
    ShorterAncestor(store, block0, lsb, current);
  }

  lemma LongerIsOther(store: Store, a: HeaderHash, b: HeaderHash)
    requires a in store && b in store && store[a].length != store[b].length
    ensures a != b
  {
  }

  lemma ShorterAncestor(store: Store, block0: HeaderHash, a: HeaderHash, b: HeaderHash)
    requires IsTree(store, block0) && IsAncestor(store, block0, a, b)
    ensures store[a].length <= store[b].length
  {
  }

  /** Walks from one checkpoint towards the last stable block, stopping early at a block already seen. */
  method WalkDown(store: Store, block0: HeaderHash, lsb: HeaderHash, c: HeaderHash, seen: set<HeaderHash>,
                  ghost cs: seq<HeaderHash>)
    returns (ok: bool, known: set<HeaderHash>)
    requires IsTree(store, block0) && lsb in store && c in store && store[lsb].length <= store[c].length
    requires seen == Covered(store, block0, lsb, cs)
    ensures ok <==> IsAncestor(store, block0, lsb, c)
    ensures ok ==> known == Covered(store, block0, lsb, cs + [c])
  {
    hide Covered, At;
    known := seen;
    var current, currentLength := c, store[c].length;
    SelfAncestor(store, block0, c);
    assert known == seen + Above(store, block0, c, currentLength);
    while current != lsb
      invariant IsAncestor(store, block0, current, c) && currentLength == store[current].length
      invariant known == seen + Above(store, block0, c, currentLength)
      invariant lsb !in Above(store, block0, c, currentLength)
      decreases currentLength
    {
      if currentLength < store[lsb].length {
        return false, known;
      }
      if current in known {
        WalkMeets(store, block0, lsb, cs, c, current);
        return true, known;
      }
      known := known + {current};
      AboveStep(store, block0, c, current);
      ParentIsAncestor(store, block0, current);
      AncestorTransitive(store, block0, store[current].parent, current, c);
      current := store[current].parent;
      currentLength := currentLength - 1;
    }
    WalkEnds(store, block0, lsb, cs, c);
    ok := true;
  }

  function Hashes(known: seq<(nat, HeaderHash)>): (r: seq<HeaderHash>)
    ensures |r| == |known| && forall i :: 0 <= i < |r| ==> r[i] == known[i].1
  {
    seq(|known|, i requires 0 <= i < |known| => known[i].1)
  }

  method WalkAll(store: Store, block0: HeaderHash, lsb: HeaderHash, checkpoints: seq<HeaderHash>)
    returns (ok: bool, known: set<HeaderHash>)
    requires IsTree(store, block0) && lsb in store
    requires forall c :: c in checkpoints ==> c in store && store[lsb].length <= store[c].length
    ensures ok <==> forall c :: c in checkpoints ==> IsAncestor(store, block0, lsb, c)
    ensures ok ==> known == Covered(store, block0, lsb, checkpoints)
  {
    hide IsAncestor;
    known := {};
    for i := 0 to |checkpoints|
      invariant known == Covered(store, block0, lsb, checkpoints[..i])
      invariant forall c :: c in checkpoints[..i] ==> IsAncestor(store, block0, lsb, c)
    {
      assert checkpoints[..i + 1] == checkpoints[..i] + [checkpoints[i]];
      ok, known := WalkDown(store, block0, lsb, checkpoints[i], known, checkpoints[..i]);
      if !ok {
        return;
      }
    }
    assert checkpoints[..|checkpoints|] == checkpoints;
    ok := true;
  }

  /** `get_blocks_by_chain_length`: the blocks of each length, in no particular order. */
  ghost predicate IsLayering(store: Store, layer: nat -> seq<HeaderHash>) {
    forall n: nat :: NoDup(layer(n)) && forall h :: h in layer(n) <==> h in store && store[h].length == n
  }

  ghost predicate NoDup(s: seq<HeaderHash>) {
    forall i, j :: 0 <= i < j < |s| ==> s[i] != s[j]
  }

  /** An empty layer has no layer above it. */
  lemma EmptyLayerIsLast(store: Store, block0: HeaderHash, n: nat, h: HeaderHash)
    requires IsTree(store, block0) && h in store && store[h].length >= n
    ensures exists x :: x in store && store[x].length == n
  {
    assert store[At(store, block0, h, n)].length == n;
  }

  /** The blocks sent: each once, no shorter block after a longer one. */
  ghost predicate Ordered(store: Store, sent: seq<HeaderHash>) {
    && NoDup(sent)
    && (forall i :: 0 <= i < |sent| ==> sent[i] in store)
    && (forall i, j :: 0 <= i < j < |sent| ==> store[sent[i]].length <= store[sent[j]].length)
  }

  /** `sent` holds the blocks of lengths `from` up to, excluding, `to` that the client does not know. */
  ghost predicate Sends(store: Store, known: set<HeaderHash>, from: nat, to: nat, sent: seq<HeaderHash>) {
    && Ordered(store, sent)
    && (forall h :: h in sent <==> h in store && from <= store[h].length < to && h !in known)
  }

  lemma SendOne(store: Store, sent: seq<HeaderHash>, h: HeaderHash)
    requires Ordered(store, sent) && h in store && h !in sent
    requires forall x :: x in sent ==> store[x].length <= store[h].length
    ensures Ordered(store, sent + [h])
  {
  }

  method SendLayer(store: Store, known: set<HeaderHash>, blocks: seq<HeaderHash>, ghost from: nat, ghost n: nat,
                   before: seq<HeaderHash>)
    returns (sent: seq<HeaderHash>)
    requires from <= n && Sends(store, known, from, n, before)
    requires NoDup(blocks) && forall h :: h in blocks <==> h in store && store[h].length == n
    ensures Sends(store, known, from, n + 1, sent)
  {
    hide Ordered;
    sent := before;
    for i := 0 to |blocks|
      invariant Ordered(store, sent)
      invariant forall h :: h in sent <==> h in before || (h in blocks[..i] && h !in known)
    {
      assert blocks[..i + 1] == blocks[..i] + [blocks[i]];
      assert blocks[i] in blocks;
      if blocks[i] !in known {
        assert blocks[i] !in blocks[..i];
        SendOne(store, sent, blocks[i]);
        sent := sent + [blocks[i]];
      }
    }
    assert blocks[..|blocks|] == blocks;
  }

  method SendLayers(store: Store, block0: HeaderHash, layer: nat -> seq<HeaderHash>, known: set<HeaderHash>,
                    lsbLength: nat)
    returns (sent: seq<HeaderHash>)
    requires IsTree(store, block0) && IsLayering(store, layer) && lsbLength + 1 < U32_MAX
    ensures Sends(store, known, lsbLength + 1, U32_MAX, sent)
  {
    sent := [];
    var currentLength := lsbLength + 1;
    while true
      invariant lsbLength < currentLength < U32_MAX
      invariant Sends(store, known, lsbLength + 1, currentLength, sent)
      decreases U32_MAX - currentLength
    {
      var blocks := layer(currentLength);
      ghost var n := currentLength;
      currentLength := currentLength + 1;
      assert currentLength <= U32_MAX;  // the increment does not overflow
      if blocks == [] {
        forall h | h in store
          ensures store[h].length < n
        {
          if store[h].length >= n {
            EmptyLayerIsLast(store, block0, n, h);
            assert false;
          }
        }
        break;
      }
      assert blocks[0] in blocks;
      sent := SendLayer(store, known, blocks, lsbLength + 1, n, sent);
    }
  }

  /** The position of the first of the shortest known checkpoints. */
  function Shortest(known: seq<(nat, HeaderHash)>): (k: nat)
    requires known != []
    ensures IsFirstMinimum(known, k)
  {
    var n := |known| - 1;
    if n == 0 then 0
    else
      var k := Shortest(known[..n]);
      if known[n].0 < known[k].0 then n else k
  }

  /** The last stable block the checkpoints stand for; block0 when none is known. */
  function LastStable(known: seq<(nat, HeaderHash)>, block0: HeaderHash): HeaderHash {
    if known == [] then block0 else known[Shortest(known)].1
  }

  lemma {:induction false} KnownAreStored(checkpoints: seq<Option<HeaderHash>>, store: Store)
    ensures forall i :: 0 <= i < |Known(checkpoints, store)| ==>
              var c := Known(checkpoints, store)[i]; c.1 in store && c.0 == store[c.1].length
  {
    if checkpoints != [] {
      KnownAreStored(checkpoints[1..], store);
    }
  }

  /** `Vec::swap_remove`: the last element takes the place of the removed one. */
  function SwapRemove<T>(s: seq<T>, k: nat): (r: seq<T>)
    requires k < |s|
  {
    if k == |s| - 1 then s[..k] else s[k := s[|s| - 1]][..|s| - 1]
  }

  lemma SwapRemoveElements<T>(s: seq<T>, k: nat)
    requires k < |s|
    ensures forall x :: x in s <==> x == s[k] || x in SwapRemove(s, k)
  {
    var r := SwapRemove(s, k);
    forall i | 0 <= i < |s| && i != k
      ensures s[i] in r
    {
      assert r[if i < |s| - 1 then i else k] == s[i];
    }
    assert forall i :: 0 <= i < |r| ==> r[i] in s;
  }

  /** The last stable block itself adds nothing to the paths. */
  lemma LastStableAddsNothing(store: Store, block0: HeaderHash, lsb: HeaderHash, cs: seq<HeaderHash>,
                              cs': seq<HeaderHash>)
    requires IsTree(store, block0)
    requires forall c :: c in cs ==> c == lsb || c in cs'
    requires forall c :: c in cs' ==> c in cs
    ensures Covered(store, block0, lsb, cs) == Covered(store, block0, lsb, cs')
  {
    forall x
      ensures !OnPath(store, block0, lsb, lsb, x)
    {
    }
  }

  /** Splits the known checkpoints into the last stable block and the others. */
  method ChooseLastStable(checkpoints: seq<Option<HeaderHash>>, store: Store, block0: HeaderHash)
    returns (ok: bool, others: seq<HeaderHash>, lsb: HeaderHash, lsbLength: nat)
    requires IsTree(store, block0)
    ensures ok <==> None !in checkpoints
    ensures ok ==>
              var usable := Known(checkpoints, store);
              && lsb == LastStable(usable, block0) && lsb in store && lsbLength == store[lsb].length
              && (forall c :: c in others ==> c in store && lsbLength <= store[c].length)
              && (forall c :: c in Hashes(usable) ==> c == lsb || c in others)
              && (forall c :: c in others ==> c in Hashes(usable))
              && |others| == if usable == [] then 0 else |usable| - 1
  {
    var filtered, minIndex;
    ok, filtered, minIndex := FilterCheckpoints(checkpoints, store, block0);
    others, lsb, lsbLength := [], block0, 0;
    if ok {
      KnownAreStored(checkpoints, store);
      hide Known;
      if minIndex.Some? {
        var k := minIndex.value;
        lsbLength, lsb := filtered[k].0, filtered[k].1;
        SwapRemoveElements(Hashes(filtered), k);
        others := SwapRemove(Hashes(filtered), k);
        assert k == Shortest(filtered);
      }
    }
  }

  datatype Outcome = Done | InvalidId | NotASuccessor

  /** The blocks that make a sync complete for a client knowing `known` and everything up to `lsb`. */
  ghost predicate Completes(store: Store, block0: HeaderHash, lsb: HeaderHash, known: set<HeaderHash>,
                            withBlock0: bool, sent: seq<HeaderHash>)
    requires lsb in store
  {
    && Ordered(store, sent)
    && forall h :: h in sent <==>
         h in store && ((store[h].length > store[lsb].length && h !in known) || (h == block0 && withBlock0))
  }

  lemma PrependBlock0(store: Store, block0: HeaderHash, lsb: HeaderHash, known: set<HeaderHash>, sent: seq<HeaderHash>)
    requires IsTree(store, block0) && lsb in store && Sends(store, known, store[lsb].length + 1, U32_MAX, sent)
    ensures Completes(store, block0, lsb, known, false, sent)
    ensures Completes(store, block0, lsb, known, true, [block0] + sent)
  {
    hide Ordered;
    PrependShortest(store, block0, sent);
    assert forall h :: h in [block0] + sent <==> h == block0 || h in sent;
  }

  lemma PrependShortest(store: Store, h: HeaderHash, sent: seq<HeaderHash>)
    requires Ordered(store, sent) && h in store && h !in sent && store[h].length == 0
    ensures Ordered(store, [h] + sent)
  {
    assert forall i :: 0 <= i < |sent| ==> sent[i] in sent;
  }

  method HandleSyncMultiverse(checkpoints: seq<Option<HeaderHash>>, store: Store, block0: HeaderHash,
                              layer: nat -> seq<HeaderHash>)
    returns (outcome: Outcome, sent: seq<HeaderHash>, known: set<HeaderHash>)
    requires IsTree(store, block0) && IsLayering(store, layer)
    ensures outcome == InvalidId <==> None in checkpoints
    ensures outcome != Done ==> sent == []
    ensures None !in checkpoints ==>
              var usable := Known(checkpoints, store);
              var lsb := LastStable(usable, block0);
              && lsb in store
              && (outcome == Done <==> forall c :: c in Hashes(usable) ==> IsAncestor(store, block0, lsb, c))
              && (outcome == Done ==>
                    && known == Covered(store, block0, lsb, Hashes(usable))
                    && Completes(store, block0, lsb, known, |usable| <= 1, sent))
  {
    hide IsAncestor, Covered, Known, LastStable, Sends, Completes;
    sent, known := [], {};
    var ok, others, lsb, lsbLength := ChooseLastStable(checkpoints, store, block0);
    if !ok {
      return InvalidId, sent, known;
    }
    if others == [] {
      sent := [block0];
    }
    SelfAncestor(store, block0, lsb);
    ok, known := WalkAll(store, block0, lsb, others);
    if !ok {
      return NotASuccessor, sent, known;
    }
    LastStableAddsNothing(store, block0, lsb, Hashes(Known(checkpoints, store)), others);
    var layers := SendLayers(store, block0, layer, known, lsbLength);
    PrependBlock0(store, block0, lsb, known, layers);
    assert [] + layers == layers;
    sent := sent + layers;
    outcome := Done;
  }

  /** The client can attach the i-th block: it has the parent already. */
  ghost predicate Attaches(store: Store, block0: HeaderHash, lsb: HeaderHash, known: set<HeaderHash>,
                           sent: seq<HeaderHash>, i: nat)
    requires i < |sent| && sent[i] in store
  {
    var parent := store[sent[i]].parent;
    sent[i] == block0 || parent == lsb || parent in known || parent in sent[..i]
  }

  /** Every surviving branch leaves the main chain at or above the last stable block. */
  ghost predicate IsStable(store: Store, lsb: HeaderHash)
    requires lsb in store
  {
    forall h :: h in store && store[h].length == store[lsb].length + 1 ==> store[h].parent == lsb
  }

  lemma CoveredAbove(store: Store, block0: HeaderHash, lsb: HeaderHash, cs: seq<HeaderHash>, x: HeaderHash)
    requires IsTree(store, block0) && lsb in store && x in Covered(store, block0, lsb, cs)
    ensures x in store && store[x].length > store[lsb].length
    ensures store[x].length == store[lsb].length + 1 ==> store[x].parent == lsb
  {
    var n := store[lsb].length;
    if store[x].length == n + 1 {
      assert At(store, block0, x, n) == At(store, block0, store[x].parent, n);
    }
  }

  /** Blocks arrive after their parents exactly when no branch forks below the last stable block. */
  lemma ParentsFirst(store: Store, block0: HeaderHash, lsb: HeaderHash, cs: seq<HeaderHash>, withBlock0: bool,
                     sent: seq<HeaderHash>)
    requires IsTree(store, block0) && lsb in store
    requires Completes(store, block0, lsb, Covered(store, block0, lsb, cs), withBlock0, sent)
    ensures (forall i :: 0 <= i < |sent| ==> Attaches(store, block0, lsb, Covered(store, block0, lsb, cs), sent, i))
            <==> IsStable(store, lsb)
  {
    hide Covered;
    var known, n := Covered(store, block0, lsb, cs), store[lsb].length;
    if IsStable(store, lsb) {
      forall i | 0 <= i < |sent|
        ensures Attaches(store, block0, lsb, known, sent, i)
      {
        StableAttaches(store, block0, lsb, known, withBlock0, sent, i);
      }
    } else {
      var h :| h in store && store[h].length == n + 1 && store[h].parent != lsb;
      if h in known {
        CoveredAbove(store, block0, lsb, cs, h);
        assert false;
      }
      assert h in sent;
      var i :| 0 <= i < |sent| && sent[i] == h;
      var parent := store[h].parent;
      if parent in known {
        CoveredAbove(store, block0, lsb, cs, parent);
      }
      assert forall x :: x in sent[..i] ==> x in sent;
      assert !Attaches(store, block0, lsb, known, sent, i);
    }
  }

  /** Blocks 1 and 2 on block0, and 3 on 2. */
  const FORKED: Store := map[0 := BlockInfo(99, 0), 1 := BlockInfo(0, 1), 2 := BlockInfo(0, 1), 3 := BlockInfo(2, 2)]

  lemma ForkedIsTree()
    ensures IsTree(FORKED, 0) && Covered(FORKED, 0, 1, [1]) == {} && IsAncestor(FORKED, 0, 1, 1)
  {
    hide At;
    LastStableAddsNothing(FORKED, 0, 1, [1], []);
    SelfAncestor(FORKED, 0, 1);
  }

  /** A client that knows block 1 only is sent block 3, whose parent 2 forks off below 1 and is never sent. */
  lemma ForkIsSentWithoutItsParent()
    ensures IsTree(FORKED, 0) && IsAncestor(FORKED, 0, 1, 1)
    ensures Known([Some(1)], FORKED) == [(1, 1)] && LastStable([(1, 1)], 0) == 1
    ensures var known := Covered(FORKED, 0, 1, [1]);
            && Completes(FORKED, 0, 1, known, true, [0, 3])
            && !IsStable(FORKED, 1) && !Attaches(FORKED, 0, 1, known, [0, 3], 1)
  {
    ForkedIsTree();
    hide IsTree, IsAncestor, Covered, At;
    var none: seq<Option<HeaderHash>> := [];
    assert [Some(1)][1..] == none && Known(none, FORKED) == [];
    assert FORKED[3].parent == 2 && [0, 3][..1] == [0];
  }

  lemma StableAttaches(store: Store, block0: HeaderHash, lsb: HeaderHash, known: set<HeaderHash>, withBlock0: bool,
                       sent: seq<HeaderHash>, i: nat)
    requires IsTree(store, block0) && lsb in store && IsStable(store, lsb) && i < |sent|
    requires Completes(store, block0, lsb, known, withBlock0, sent)
    ensures Attaches(store, block0, lsb, known, sent, i)
  {
    var h := sent[i];
    assert h in sent;
    if h != block0 && store[h].length != store[lsb].length + 1 {
      var parent := store[h].parent;
      if parent !in known {
        assert parent in sent;
        var j :| 0 <= j < |sent| && sent[j] == parent;
        assert j < i;
        assert sent[..i][j] == parent;
      }
    }
  }

  /** Without a known checkpoint the whole store is streamed, each block after its parent. */
  lemma StreamsEverything(store: Store, block0: HeaderHash, sent: seq<HeaderHash>)
    requires IsTree(store, block0) && Completes(store, block0, block0, Covered(store, block0, block0, []), true, sent)
    ensures forall h :: h in sent <==> h in store
    ensures forall i :: 0 <= i < |sent| ==> sent[i] == block0 || store[sent[i]].parent in sent[..i]
  {
    hide At, IsAncestor;
    assert Covered(store, block0, block0, []) == {};
    assert IsStable(store, block0);
    ParentsFirst(store, block0, block0, [], true, sent);
    forall i | 0 <= i < |sent| && sent[i] != block0
      ensures store[sent[i]].parent in sent[..i]
    {
      assert Attaches(store, block0, block0, {}, sent, i);
      var k :| 0 <= k < |sent| && sent[k] == block0;
      assert k < i ==> sent[..i][k] == block0;
    }
  }
}
