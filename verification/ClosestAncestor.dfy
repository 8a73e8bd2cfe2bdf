/** How a peer finds where its chain and a checkpoint list meet. */
module ClosestAncestor {
  import opened Base
  import opened Store
  import opened Chain
  import opened Checkpoints

  /** The storage's answer to "is this checkpoint an ancestor of the block". */
  datatype Reply = NotAncestor | Distance(distance: nat) | BlockNotFound | Failure

  datatype Closest = Found(hash: HeaderHash, distance: nat) | NoneFound | Failed

  predicate IsCandidate(r: Reply) {
    r.Distance? && r.distance < U32_MAX
  }

  /** The first of the nearest checkpoints that are ancestors. */
  ghost predicate IsClosest(checkpoints: seq<HeaderHash>, reply: HeaderHash -> Reply, r: Closest) {
    match r
    case Failed => exists i :: 0 <= i < |checkpoints| && reply(checkpoints[i]).Failure?
    case NoneFound =>
      forall i :: 0 <= i < |checkpoints| ==> !reply(checkpoints[i]).Failure? && !IsCandidate(reply(checkpoints[i]))
    case Found(hash, distance) =>
      && (forall i :: 0 <= i < |checkpoints| ==> !reply(checkpoints[i]).Failure?)
      && exists k ::
           && 0 <= k < |checkpoints| && hash == checkpoints[k]
           && reply(hash) == Distance(distance) && distance < U32_MAX
           && (forall i :: 0 <= i < |checkpoints| && IsCandidate(reply(checkpoints[i])) ==>
               distance <= reply(checkpoints[i]).distance)
           && (forall i :: 0 <= i < k && IsCandidate(reply(checkpoints[i])) ==>
               distance < reply(checkpoints[i]).distance)
  }

  method FindClosestAncestor(checkpoints: seq<HeaderHash>, reply: HeaderHash -> Reply) returns (r: Closest)
    ensures IsClosest(checkpoints, reply, r)
  {
    var ancestor: Option<HeaderHash> := None;
    var closestFound: nat := U32_MAX;
    ghost var k := 0;
    for i := 0 to |checkpoints|
      invariant forall j :: 0 <= j < i ==> !reply(checkpoints[j]).Failure?
      invariant ancestor == None ==>
                  closestFound == U32_MAX && forall j :: 0 <= j < i ==> !IsCandidate(reply(checkpoints[j]))
      invariant ancestor.Some? ==>
                  && 0 <= k < i && ancestor.value == checkpoints[k]
                  && reply(ancestor.value) == Distance(closestFound) && closestFound < U32_MAX
                  && (forall j :: 0 <= j < i && IsCandidate(reply(checkpoints[j])) ==>
                      closestFound <= reply(checkpoints[j]).distance)
                  && (forall j :: 0 <= j < k && IsCandidate(reply(checkpoints[j])) ==>
                      closestFound < reply(checkpoints[j]).distance)
    {
      match reply(checkpoints[i]) {
        case NotAncestor =>
        case Distance(distance) =>
          if closestFound > distance {
            ancestor, closestFound := Some(checkpoints[i]), distance;
            k := i;
          }
        case BlockNotFound =>
        case Failure =>
          return Failed;
      }
    }
    r := if ancestor.Some? then Found(ancestor.value, closestFound) else NoneFound;
  }

  /** What a sound storage answers. */
  ghost function TreeReply(store: Store, block0: HeaderHash, target: HeaderHash, c: HeaderHash): Reply
    requires IsTree(store, block0)
  {
    if c !in store || target !in store then BlockNotFound
    else if IsAncestor(store, block0, c, target) then Distance(store[target].length - store[c].length)
    else NotAncestor
  }

  /** A peer that stores the target and shares block0 always finds the longest checkpoint on its chain. */
  lemma FindsLongestShared(store: Store, block0: HeaderHash, target: HeaderHash, checkpoints: seq<HeaderHash>,
                           reply: HeaderHash -> Reply, r: Closest)
    requires IsTree(store, block0) && target in store && block0 in checkpoints
    requires forall c :: c in checkpoints ==> reply(c) == TreeReply(store, block0, target, c)
    requires IsClosest(checkpoints, reply, r)
    ensures r.Found? && r.hash in checkpoints && IsAncestor(store, block0, r.hash, target)
    ensures r.distance == store[target].length - store[r.hash].length
    ensures forall c :: c in checkpoints && IsAncestor(store, block0, c, target) ==>
            store[c].length <= store[r.hash].length
  {
    RootIsAncestor(store, block0, target);
    var b :| 0 <= b < |checkpoints| && checkpoints[b] == block0;
    assert IsCandidate(reply(checkpoints[b]));
    forall c | c in checkpoints && IsAncestor(store, block0, c, target)
      ensures IsCandidate(reply(c))
    {
    }
  }

  /** So the list made from any reference serves every peer on the same block0, whatever else it stores. */
  lemma CheckpointsServeEveryPeer(history: History, block0: HeaderHash, from: Ref, checkpoints: seq<HeaderHash>, m: nat,
                                  store: Store, target: HeaderHash, reply: HeaderHash -> Reply, r: Closest)
    requires IsHistory(history, block0) && IsSound(history, block0, from) && from.header.hash != block0
    requires IsCheckpointList(from, block0, checkpoints, m)
    requires IsTree(store, block0) && target in store
    requires forall c :: c in checkpoints ==> reply(c) == TreeReply(store, block0, target, c)
    requires IsClosest(checkpoints, reply, r)
    ensures r.Found? && IsAncestor(store, block0, r.hash, target) && r.hash in checkpoints
    ensures r.hash in history && IsAncestor(Tree(history), block0, r.hash, from.header.hash)
  {
    hide IsClosest, IsCheckpointList, IsAncestor, IsTree, IsSound;
    CheckpointsAreAncestors(history, block0, from, checkpoints, m);
    FindsLongestShared(store, block0, target, checkpoints, reply, r);
  }
}
