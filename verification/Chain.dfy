/** Block references: how each accepted block is linked to its parent and to the previous epoch. */
module Chain {
  import opened Base
  import opened Store

  datatype Header = Header(hash: HeaderHash, parent: HeaderHash, length: nat, date: BlockDate)

  /** `leadership` is the epoch the reference's leadership schedule was computed for. */
  datatype Ref = Ref(header: Header, leadership: nat, previousEpoch: Option<Ref>)

  datatype LinkError = BlockDateBeforeParent | ChainLengthNotIncremental

  function PreVerifyLink(header: Header, parent: Header): (r: Option<LinkError>)
    ensures r == Some(BlockDateBeforeParent) <==> !IsLater(header.date, parent.date)
    ensures r == Some(ChainLengthNotIncremental) <==>
            IsLater(header.date, parent.date) && header.length - parent.length != 1
    ensures r == None <==> IsLater(header.date, parent.date) && header.length - parent.length == 1
  {
    if !parent.date.Before(header.date) then Some(BlockDateBeforeParent)
    else if header.length != parent.length + 1 then Some(ChainLengthNotIncremental)
    else None
  }

  datatype EpochLeadership = EpochLeadership(leadership: nat, previousEpoch: Option<Ref>)

  function NewEpochLeadershipFrom(epoch: nat, parent: Ref): EpochLeadership {
    if parent.header.date.epoch < epoch then EpochLeadership(epoch, Some(parent))
    else EpochLeadership(parent.leadership, parent.previousEpoch)
  }

  /** Every header a reference was ever created for. */
  type History = map<HeaderHash, Header>

  ghost function Tree(history: History): Store {
    map h | h in history :: BlockInfo(history[h].parent, history[h].length)
  }

  /** A tree in which every block is dated after its parent. */
  ghost predicate IsHistory(history: History, block0: HeaderHash) {
    && IsTree(Tree(history), block0)
    && (forall h :: h in history ==> history[h].hash == h)
    && (forall h {:trigger history[h].parent} :: h in history && h != block0 ==>
          history[h].parent in history && history[history[h].parent].date.Before(history[h].date))
  }

  /** Walks up from `h` to the first ancestor in an epoch before the given one. */
  ghost function NearestBefore(history: History, block0: HeaderHash, h: HeaderHash, epoch: nat): (r: Option<HeaderHash>)
    requires IsHistory(history, block0) && h in history
    decreases history[h].length
  {
    if h == block0 then None
    else
      var p := history[h].parent;
      assert Tree(history)[h].parent == p;
      if history[p].date.epoch < epoch then Some(p) else NearestBefore(history, block0, p, epoch)
  }

  /** The reference says of its block what the history says. */
  ghost predicate IsSound(history: History, block0: HeaderHash, r: Ref)
    requires IsHistory(history, block0)
  {
    var h := r.header.hash;
    && h in history && history[h] == r.header
    && r.leadership == r.header.date.epoch
    && match r.previousEpoch
       case None => NearestBefore(history, block0, h, r.header.date.epoch) == None
       case Some(q) =>
         && NearestBefore(history, block0, h, r.header.date.epoch) == Some(q.header.hash)
         && IsSound(history, block0, q)
  }

  /** The nearest one is an ancestor, in an earlier epoch, and nothing between is. */
  lemma {:induction false} NearestIsNearest(history: History, block0: HeaderHash, h: HeaderHash, epoch: nat)
    requires IsHistory(history, block0) && h in history
    ensures match NearestBefore(history, block0, h, epoch)
            case None =>
              forall a :: IsAncestor(Tree(history), block0, a, h) && a != h ==> history[a].date.epoch >= epoch
            case Some(n) =>
              && IsAncestor(Tree(history), block0, n, h) && n != h && history[n].date.epoch < epoch
              && forall a :: IsAncestor(Tree(history), block0, a, h) && a != h && history[a].length > history[n].length
                             ==> history[a].date.epoch >= epoch
    decreases history[h].length
  {
    var tree := Tree(history);
    if h != block0 {
      var p := tree[h].parent;
      ParentIsAncestor(tree, block0, h);
      forall a | IsAncestor(tree, block0, a, h) && a != h
        ensures IsAncestor(tree, block0, a, p)
      {
        ProperAncestor(tree, block0, a, h);
      }
      if history[p].date.epoch >= epoch {
        NearestIsNearest(history, block0, p, epoch);
        var n := NearestBefore(history, block0, p, epoch);
        if n.Some? {
          AncestorTransitive(tree, block0, n.value, p, h);
        }
      }
    }
  }

  lemma ProperAncestor(tree: Store, block0: HeaderHash, a: HeaderHash, h: HeaderHash)
    requires IsTree(tree, block0) && IsAncestor(tree, block0, a, h) && a != h
    ensures h != block0 && IsAncestor(tree, block0, a, tree[h].parent)
  {
  }

  /** A header that may be added: linked to a known block, later, one longer, and not another block's hash. */
  ghost predicate Extends(history: History, header: Header) {
    && header.parent in history
    && PreVerifyLink(header, history[header.parent]) == None
    && header.length + 1 < U32_MAX
    && (header.hash in history ==> history[header.hash] == header)
  }

  lemma HistoryGrows(history: History, block0: HeaderHash, header: Header)
    requires IsHistory(history, block0) && Extends(history, header)
    ensures IsHistory(history[header.hash := header], block0)
  {
    hide IsTree;
    var history', info := history[header.hash := header], BlockInfo(header.parent, header.length);
    TreeGrows(Tree(history), block0, header.hash, info);
    assert Tree(history') == Tree(history)[header.hash := info];
    assert header.hash in history ==> history' == history;
  }

  lemma {:induction false} NearestUnchanged(history: History, block0: HeaderHash, header: Header, h: HeaderHash,
                                            epoch: nat)
    requires IsHistory(history, block0) && Extends(history, header) && h in history
    requires IsHistory(history[header.hash := header], block0)
    ensures NearestBefore(history[header.hash := header], block0, h, epoch) == NearestBefore(history, block0, h, epoch)
    decreases history[h].length
  {
    if h != block0 {
      assert Tree(history)[h].parent in Tree(history);
      NearestUnchanged(history, block0, header, history[h].parent, epoch);
    }
  }

  lemma {:induction false} SoundStays(history: History, block0: HeaderHash, header: Header, r: Ref)
    requires IsHistory(history, block0) && Extends(history, header) && IsSound(history, block0, r)
    requires IsHistory(history[header.hash := header], block0)
    ensures IsSound(history[header.hash := header], block0, r)
  {
    NearestUnchanged(history, block0, header, r.header.hash, r.header.date.epoch);
    if r.previousEpoch.Some? {
      SoundStays(history, block0, header, r.previousEpoch.value);
    }
  }

  /** The reference made for a block on top of a sound parent. */
  function MakeRef(header: Header, el: EpochLeadership): Ref {
    Ref(header, el.leadership, el.previousEpoch)
  }

  lemma NewRefIsSound(history: History, block0: HeaderHash, header: Header, parent: Ref)
    requires IsHistory(history, block0) && Extends(history, header)
    requires IsSound(history, block0, parent) && parent.header.hash == header.parent
    ensures IsHistory(history[header.hash := header], block0)
    ensures IsSound(history[header.hash := header], block0,
                    MakeRef(header, NewEpochLeadershipFrom(header.date.epoch, parent)))
  {
    HistoryGrows(history, block0, header);
    SoundStays(history, block0, header, parent);
  }

  datatype PreChecked =
    | AlreadyPresent(cached: Ref)
    | MissingParent
    | HeaderWithCache(parent: Ref)
    | LinkRefused(error: LinkError)

  datatype Outcome =
    | New(ref: Ref)
    | Existing(ref: Ref)
    | Skipped                 // already present, nothing to do
    | MissingParentBlock
    | BadLink(error: LinkError)
    | Refused                 // by the leadership schedule, the ledger, the rewards or the storage

  /** What the parts left out decide about a block. */
  datatype Verdicts = Verdicts(leaderOk: bool, ledgerOk: bool, rewardsOk: bool)

  datatype Op =
    | NetworkBlock(header: Header, v: Verdicts)
    | BootstrapBlock(header: Header, fromStorage: bool, v: Verdicts)
    | OwnBlock(tip: Ref, hash: HeaderHash, date: BlockDate, v: Verdicts)
    | Forgetting(cached: set<HeaderHash>, stored: set<HeaderHash>)

  /** A header under its own hash, with a length that leaves room in 32 bits. */
  predicate IsGenuine(header: Header, headerOf: HeaderHash -> Header) {
    headerOf(header.hash) == header && header.length + 1 < U32_MAX
  }

  /** The references made so far, and what the cache and the storage hold. */
  datatype ChainState = ChainState(history: History, refs: set<Ref>, cache: map<HeaderHash, Ref>,
                                   storage: set<HeaderHash>) {

    ghost function With(header: Header, ref: Ref): ChainState {
      ChainState(history[header.hash := header], refs + {ref}, cache[header.hash := ref], storage + {header.hash})
    }

    /** A reference for a later and one longer block on top of a parent, if the block or its parent is stored. */
    ghost function OnTop(parent: Ref, header: Header): ChainState {
      if && IsLater(header.date, parent.header.date) && header.length - parent.header.length == 1
         && (header.hash in storage || header.parent in storage)
      then With(header, MakeRef(header, NewEpochLeadershipFrom(header.date.epoch, parent)))
      else this
    }

    ghost function Next(op: Op, headerOf: HeaderHash -> Header): ChainState {
      match op
      case NetworkBlock(header, v) =>
        if && IsGenuine(header, headerOf) && header.hash !in cache && header.parent in cache
           && v.leaderOk && v.ledgerOk && v.rewardsOk
        then OnTop(cache[header.parent], header) else this
      case BootstrapBlock(header, fromStorage, v) =>
        if && IsGenuine(header, headerOf) && header.parent in cache
           && (fromStorage || v.leaderOk) && v.ledgerOk && v.rewardsOk
        then OnTop(cache[header.parent], header) else this
      case OwnBlock(tip, hash, date, v) =>
        var header := Header(hash, tip.header.hash, tip.header.length + 1, date);
        if tip in refs && IsGenuine(header, headerOf) && v.rewardsOk then OnTop(tip, header) else this
      case Forgetting(cached, stored) => ChainState(history, refs, cache - cached, storage - stored)
    }
  }

  ghost function AfterOps(s: ChainState, ops: seq<Op>, headerOf: HeaderHash -> Header): ChainState {
    if ops == [] then s else AfterOps(s, ops[..|ops| - 1], headerOf).Next(ops[|ops| - 1], headerOf)
  }

  class Blockchain {
    const block0: HeaderHash
    const headerOf: HeaderHash -> Header   // the header each hash stands for: hashes do not collide
    var refCache: map<HeaderHash, Ref>
    var storage: set<HeaderHash>
    ghost var history: History
    var refs: set<Ref>   // every reference ever created; tasks may still hold one that left the cache

    ghost predicate Valid()
      reads this
    {
      && IsHistory(history, block0)
      && (forall h :: h in history ==> history[h] == headerOf(h))
      && (forall r :: r in refs ==> IsSound(history, block0, r))
      && (forall h :: h in refCache ==> refCache[h] in refs && refCache[h].header.hash == h)
    }

    predicate Genuine(header: Header) {
      IsGenuine(header, headerOf)
    }

    /** After a restart the storage is already filled; otherwise `stored` is empty. */
    constructor (header0: Header, headerOf: HeaderHash -> Header, stored: set<HeaderHash>)
      requires header0.length == 0 && headerOf(header0.hash) == header0
      ensures Valid() && block0 == header0.hash && history == map[header0.hash := header0]
      ensures storage == stored + {header0.hash} && refs == {Ref(header0, header0.date.epoch, None)}
      ensures refCache == map[header0.hash := Ref(header0, header0.date.epoch, None)] && this.headerOf == headerOf
    {
      var r := Ref(header0, header0.date.epoch, None);
      this.headerOf := headerOf;
      block0 := header0.hash;
      refCache, storage := map[header0.hash := r], stored + {header0.hash};
      history, refs := map[header0.hash := header0], {r};
    }

    function PreCheckHeader(header: Header, force: bool): (r: PreChecked)
      requires Valid()
      reads this
      ensures r.AlreadyPresent? <==> !force && header.hash in refCache
      ensures r.AlreadyPresent? ==> r.cached == refCache[header.hash] && r.cached.header.hash == header.hash
      ensures r.MissingParent? <==> (force || header.hash !in refCache) && header.parent !in refCache
      ensures force || header.hash !in refCache ==> header.parent in refCache ==>
                var parent := refCache[header.parent];
                && (r == LinkRefused(BlockDateBeforeParent) <==> !IsLater(header.date, parent.header.date))
                && (r == LinkRefused(ChainLengthNotIncremental) <==>
                      IsLater(header.date, parent.header.date) && header.length - parent.header.length != 1)
                && (r == HeaderWithCache(parent) <==>
                      IsLater(header.date, parent.header.date) && header.length - parent.header.length == 1)
      ensures r.HeaderWithCache? ==>
                && r.parent in refs && r.parent.header.hash == header.parent
                && PreVerifyLink(header, r.parent.header) == None
    {
      if !force && header.hash in refCache then AlreadyPresent(refCache[header.hash])
      else if header.parent in refCache then
        match PreVerifyLink(header, refCache[header.parent].header)
        case None => HeaderWithCache(refCache[header.parent])
        case Some(e) => LinkRefused(e)
      else MissingParent
    }

    /** The block gets a reference on top of `parent`, whether or not it was stored before. */
    ghost predicate Applied(parent: Ref, header: Header, before: ChainState, r: Outcome)
      reads this
    {
      var ref := MakeRef(header, NewEpochLeadershipFrom(header.date.epoch, parent));
      r == (if header.hash in before.storage then Existing(ref) else New(ref)) && Now() == before.With(header, ref)
    }

    ghost function Now(): ChainState
      reads this
    {
      ChainState(history, refs, refCache, storage)
    }

    /** Stores the block and its reference, unless the storage lacks its parent. */
    method StoreAndApply(header: Header, el: EpochLeadership, ghost parent: Ref) returns (r: Outcome)
      requires Valid() && Genuine(header)
      requires parent in refs && parent.header.hash == header.parent && PreVerifyLink(header, parent.header) == None
      requires el == NewEpochLeadershipFrom(header.date.epoch, parent)
      modifies this
      ensures Valid()
      ensures if header.hash in old(storage) || header.parent in old(storage)
              then Applied(parent, header, old(Now()), r)
              else r == Refused && Now() == old(Now())
    {
      hide IsHistory, IsSound;
      var known := header.hash in storage;
      if !known && header.parent !in storage {
        return Refused;
      }
      SoundHeader(history, block0, parent);
      NewRefIsSound(history, block0, header, parent);
      forall q | q in refs
        ensures IsSound(history[header.hash := header], block0, q)
      {
        SoundStays(history, block0, header, q);
      }
      var ref := MakeRef(header, el);
      history, refs := history[header.hash := header], refs + {ref};
      storage, refCache := storage + {header.hash}, refCache[header.hash := ref];
      r := if known then Existing(ref) else New(ref);
    }

    method CheckAndApply(header: Header, parent: Ref, checkProof: bool, v: Verdicts) returns (r: Outcome)
      requires Valid() && Genuine(header)
      requires parent in refs && parent.header.hash == header.parent && PreVerifyLink(header, parent.header) == None
      modifies this
      ensures Valid()
      ensures if (checkProof ==> v.leaderOk) && v.ledgerOk && v.rewardsOk &&
              (header.hash in old(storage) || header.parent in old(storage))
              then Applied(parent, header, old(Now()), r)
              else r == Refused && Now() == old(Now())
    {
      hide IsHistory, IsSound;
      var el := NewEpochLeadershipFrom(header.date.epoch, parent);
      if (checkProof && !v.leaderOk) || !v.ledgerOk || !v.rewardsOk {
        return Refused;
      }
      r := StoreAndApply(header, el, parent);
    }

    /** What comes of a block whose parent is cached: a bad link, a refusal, or a reference on top of the parent. */
    ghost predicate Linked(header: Header, parent: Ref, accepted: bool, before: ChainState, r: Outcome)
      reads this
    {
      if !IsLater(header.date, parent.header.date)
      then r == BadLink(BlockDateBeforeParent) && Now() == before
      else if header.length - parent.header.length != 1
      then r == BadLink(ChainLengthNotIncremental) && Now() == before
      else if accepted && (header.hash in before.storage || header.parent in before.storage)
      then Applied(parent, header, before, r)
      else r == Refused && Now() == before
    }

    /** A block received from the network. */
    method ProcessNetworkBlock(header: Header, v: Verdicts) returns (r: Outcome)
      requires Valid() && Genuine(header)
      modifies this
      ensures Valid()
      ensures if header.hash in old(refCache)
              then r == Skipped && Now() == old(Now())
              else if header.parent !in old(refCache)
              then r == MissingParentBlock && Now() == old(Now())
              else Linked(header, old(refCache)[header.parent], v.leaderOk && v.ledgerOk && v.rewardsOk,
                          old(Now()), r)
    {
      hide IsHistory, IsSound;
      match PreCheckHeader(header, false)
      case AlreadyPresent(_) => r := Skipped;
      case MissingParent => r := MissingParentBlock;
      case LinkRefused(e) => r := BadLink(e);
      case HeaderWithCache(parent) => r := CheckAndApply(header, parent, true, v);
    }

    /** A block pulled at start-up, from a peer or from the node's own storage: applied even if present. */
    method HandleBootstrapBlock(header: Header, fromStorage: bool, v: Verdicts) returns (r: Outcome)
      requires Valid() && Genuine(header)
      modifies this
      ensures Valid()
      ensures if header.parent !in old(refCache)
              then r == MissingParentBlock && Now() == old(Now())
              else Linked(header, old(refCache)[header.parent],
                          (fromStorage || v.leaderOk) && v.ledgerOk && v.rewardsOk, old(Now()), r)
    {
      hide IsHistory, IsSound;
      match PreCheckHeader(header, true)
      case AlreadyPresent(cached) => r := Existing(cached);
      case MissingParent => r := MissingParentBlock;
      case LinkRefused(e) => r := BadLink(e);
      case HeaderWithCache(parent) => r := CheckAndApply(header, parent, !fromStorage, v);
    }

    /** A block this node built on the tip it knew; its header is not checked again. */
    method ApplyLeadershipBlock(tip: Ref, hash: HeaderHash, date: BlockDate, v: Verdicts) returns (r: Outcome)
      requires Valid() && tip in refs && Genuine(Header(hash, tip.header.hash, tip.header.length + 1, date))
      modifies this
      ensures Valid()
      ensures var header := Header(hash, tip.header.hash, tip.header.length + 1, date);
              if && IsLater(date, tip.header.date) && v.rewardsOk
                 && (hash in old(storage) || header.parent in old(storage))
              then Applied(tip, header, old(Now()), r)
              else
                && r == (if IsLater(date, tip.header.date) then Refused else Skipped)
                && Now() == old(Now())
    {
      hide IsHistory, IsSound;
      if !tip.header.date.Before(date) {
        return Skipped;
      }
      var header := Header(hash, tip.header.hash, tip.header.length + 1, date);
      var el := NewEpochLeadershipFrom(date.epoch, tip);
      if !v.rewardsOk {
        return Refused;
      }
      r := StoreAndApply(header, el, tip);
    }

    /** Cache eviction and storage garbage collection only ever forget. */
    method Forget(cached: set<HeaderHash>, stored: set<HeaderHash>)
      requires Valid()
      modifies this
      ensures Valid() && history == old(history) && refs == old(refs)
      ensures refCache == old(refCache) - cached && storage == old(storage) - stored
    {
      refCache, storage := refCache - cached, storage - stored;
    }

    method Do(op: Op)
      requires Valid()
      modifies this
      ensures Valid() && Now() == old(Now()).Next(op, headerOf)
    {
      hide IsHistory, IsSound;
      match op {
        case NetworkBlock(header, v) =>
          if Genuine(header) {
            var _ := ProcessNetworkBlock(header, v);
          }
        case BootstrapBlock(header, fromStorage, v) =>
          if Genuine(header) {
            var _ := HandleBootstrapBlock(header, fromStorage, v);
          }
        case OwnBlock(tip, hash, date, v) =>
          if tip in refs && Genuine(Header(hash, tip.header.hash, tip.header.length + 1, date)) {
            var _ := ApplyLeadershipBlock(tip, hash, date, v);
          }
        case Forgetting(cached, stored) =>
          Forget(cached, stored);
      }
    }

    /** Whatever blocks arrive, in whatever order and by whatever way, every reference is sound. */
    method Run(ops: seq<Op>)
      requires Valid()
      modifies this
      ensures Valid() && old(refs) <= refs && Now() == AfterOps(old(Now()), ops, headerOf)
      ensures IsHistory(history, block0) && forall r :: r in refs ==> IsSound(history, block0, r)
    {
      hide IsHistory, IsSound;
      ghost var start := Now();
      for i := 0 to |ops|
        invariant Valid() && old(refs) <= refs && Now() == AfterOps(start, ops[..i], headerOf)
      {
        assert ops[..i + 1][..i] == ops[..i];
        Do(ops[i]);
      }
      assert ops[..|ops|] == ops;
    }
  }

  lemma SoundHeader(history: History, block0: HeaderHash, r: Ref)
    requires IsHistory(history, block0) && IsSound(history, block0, r)
    ensures r.header.hash in history && history[r.header.hash] == r.header
  {
  }

  /** What holds of every reference, in words of the block tree. */
  lemma EveryRef(history: History, block0: HeaderHash, r: Ref)
    requires IsHistory(history, block0) && IsSound(history, block0, r)
    ensures r.header.hash != block0 ==>
              && r.header.parent in history
              && r.header.length == history[r.header.parent].length + 1
              && history[r.header.parent].date.Before(r.header.date)
    ensures r.leadership == r.header.date.epoch
    ensures match r.previousEpoch
            case None =>
              forall a :: IsAncestor(Tree(history), block0, a, r.header.hash) ==>
                history[a].date.epoch >= r.header.date.epoch
            case Some(q) =>
              && IsAncestor(Tree(history), block0, q.header.hash, r.header.hash)
              && history[q.header.hash] == q.header && q.header.date.epoch < r.header.date.epoch
              && forall a :: IsAncestor(Tree(history), block0, a, r.header.hash) && history[a].length > q.header.length
                             ==> history[a].date.epoch >= r.header.date.epoch
  {
    var h := r.header.hash;
    assert h != block0 ==> Tree(history)[h].parent in Tree(history);
    NearestIsNearest(history, block0, h, r.header.date.epoch);
  }
}
