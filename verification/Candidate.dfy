/** Picking the blocks to fetch out of a stream of headers. */
module Candidate {
  import opened Base
  import opened Chain

  /** The most block ids asked for in one request. */
  const CHUNK_BLOCKS: nat := 32

  datatype Error =
    | EmptyHeaderStream
    | BlockchainError(link: LinkError)
    | NoParentBlock(parent: HeaderHash)
    | BrokenHeaderChain(parent: HeaderHash)
    | HeaderChainVerificationFailed(link: LinkError)

  datatype Batch = Batch(hashes: seq<HeaderHash>, remainder: Option<seq<Header>>)

  datatype Result = Ok(batch: Batch) | Err(error: Error)

  /** Why a header cannot follow another one in the chain. */
  function FollowError(header: Header, parent: Header): (e: Option<Error>)
    ensures e == Some(BrokenHeaderChain(header.parent)) <==> header.parent != parent.hash
    ensures header.parent == parent.hash ==>
              && (e == Some(HeaderChainVerificationFailed(BlockDateBeforeParent)) <==>
                    !IsLater(header.date, parent.date))
              && (e == Some(HeaderChainVerificationFailed(ChainLengthNotIncremental)) <==>
                    IsLater(header.date, parent.date) && header.length - parent.length != 1)
              && (e == None <==> IsLater(header.date, parent.date) && header.length - parent.length == 1)
  {
    if header.parent != parent.hash then Some(BrokenHeaderChain(header.parent))
    else
      match PreVerifyLink(header, parent)
      case Some(link) => Some(HeaderChainVerificationFailed(link))
      case None => None
  }

  /** Why a header is not a place to start from. */
  function LandingError(checked: PreChecked, header: Header): (e: Option<Error>)
    ensures e == Some(NoParentBlock(header.parent)) <==> checked.MissingParent?
    ensures forall link :: e == Some(BlockchainError(link)) <==> checked == LinkRefused(link)
    ensures e == None <==> checked.AlreadyPresent? || checked.HeaderWithCache?
  {
    match checked
    case MissingParent => Some(NoParentBlock(header.parent))
    case LinkRefused(link) => Some(BlockchainError(link))
    case _ => None
  }

  /** From `k` up to `n` each header follows the one before it. */
  ghost predicate IsLinked(stream: seq<Header>, k: nat, n: nat)
    requires n <= |stream|
  {
    forall i :: k < i < n ==> Follows(stream, i)
  }

  ghost predicate Follows(stream: seq<Header>, i: nat)
    requires 0 < i < |stream|
  {
    FollowError(stream[i], stream[i - 1]) == None
  }

  function Hashes(headers: seq<Header>): (r: seq<HeaderHash>)
    ensures |r| == |headers| && forall i :: 0 <= i < |r| ==> r[i] == headers[i].hash
  {
    seq(|headers|, i requires 0 <= i < |headers| => headers[i].hash)
  }

  /** Skips the blocks already known; the first new one must build on a known block. `answers(i)` is what
      `pre_check_header` says of the i-th header when it is read: the blockchain may change in between. */
  method SkipPresentBlocks(answers: nat -> PreChecked, stream: seq<Header>) returns (error: Option<Error>, k: nat)
    ensures k <= |stream| && forall i :: 0 <= i < k ==> answers(i).AlreadyPresent?
    ensures k < |stream| ==>
              && !answers(k).AlreadyPresent?
              && error == LandingError(answers(k), stream[k])
    ensures k == |stream| ==> error == None
  {
    k := 0;
    while k < |stream|
      invariant k <= |stream| && forall i :: 0 <= i < k ==> answers(i).AlreadyPresent?
    {
      var checked := answers(k);
      if !checked.AlreadyPresent? {
        return LandingError(checked, stream[k]), k;
      }
      k := k + 1;
    }
    error := None;
  }

  /** Checks the following headers one by one, until the stream ends or the batch is full. */
  method ExtendChain(stream: seq<Header>, k: nat) returns (error: Option<Error>, n: nat)
    requires k < |stream|
    ensures k < n <= |stream| && n - k <= CHUNK_BLOCKS && IsLinked(stream, k, n)
    ensures error == if n < |stream| && n - k < CHUNK_BLOCKS then FollowError(stream[n], stream[n - 1]) else None
    ensures error == None ==> n == |stream| || n - k == CHUNK_BLOCKS
  {
    var parentHeader := stream[k];
    n := k + 1;
    while n < |stream| && n - k < CHUNK_BLOCKS
      invariant k < n <= |stream| && n - k <= CHUNK_BLOCKS && parentHeader == stream[n - 1]
      invariant IsLinked(stream, k, n)
    {
      error := FollowError(stream[n], parentHeader);
      if error.Some? {
        return;
      }
      parentHeader := stream[n];
      n := n + 1;
    }
    error := None;
  }

  /** The batch is a stretch of the stream: known blocks before it, a linked chain on a known parent in it. */
  ghost predicate IsStretch(answers: nat -> PreChecked, stream: seq<Header>, k: nat, batch: Batch)
  {
    var n := |batch.hashes|;
    && k + n <= |stream| && n <= 32
    && (forall i :: 0 <= i < k ==> answers(i).AlreadyPresent?)
    && (n > 0 ==> answers(k).HeaderWithCache?)
    && batch.hashes == Hashes(stream[k..k + n]) && IsLinked(stream, k, k + n)
    && batch.remainder == (if n == 32 then Some(stream[k + n..]) else None)
    && (batch.remainder.None? ==> k + n == |stream|)
  }

  /** The first header that is not known does not build on a known block, or a later one breaks the chain. */
  ghost predicate IsFailure(answers: nat -> PreChecked, stream: seq<Header>, k: nat, n: nat, error: Error)
  {
    && k <= n < |stream| && n - k < 32
    && (forall i :: 0 <= i < k ==> answers(i).AlreadyPresent?)
    && !answers(k).AlreadyPresent?
    && IsLinked(stream, k, n)
    && if n == k then Some(error) == LandingError(answers(k), stream[k])
       else
         && LandingError(answers(k), stream[k]) == None
         && Some(error) == FollowError(stream[n], stream[n - 1])
  }

  /** `k` is the first header not yet known, `n` the end of the stretch or the header at fault. */
  method AdvanceBranch(answers: nat -> PreChecked, stream: seq<Header>) returns (r: Result, ghost k: nat, ghost n: nat)
    ensures stream == [] ==> r == Err(EmptyHeaderStream)
    ensures r.Ok? ==> stream != [] && IsStretch(answers, stream, k, r.batch)
    ensures stream != [] && r.Err? ==> IsFailure(answers, stream, k, n, r.error)
  {
    if stream == [] {
      return Err(EmptyHeaderStream), 0, 0;
    }
    var error, start := SkipPresentBlocks(answers, stream);
    k, n := start, start;
    if error.Some? {
      return Err(error.value), k, n;
    }
    if start == |stream| {
      return Ok(Batch([], None)), k, n;
    }
    var end;
    error, end := ExtendChain(stream, start);
    n := end;
    if error.Some? {
      return Err(error.value), k, n;
    }
    assert start + (end - start) == end;
    r := Ok(Batch(Hashes(stream[start..end]), if end - start == CHUNK_BLOCKS then Some(stream[end..]) else None));
  }

  lemma {:induction false} LinkedLengths(stream: seq<Header>, k: nat, n: nat, i: nat, j: nat)
    requires n <= |stream| && IsLinked(stream, k, n) && k <= i <= j < n
    ensures stream[j].length == stream[i].length + (j - i)
    ensures i < j ==> stream[i].date.Before(stream[j].date)
    decreases j
  {
    if i < j {
      LinkedLengths(stream, k, n, i, j - 1);
      assert Follows(stream, j);
    }
  }

  /** The hashes asked for are distinct, and name headers of rising date and length. */
  lemma BatchIsChain(stream: seq<Header>, k: nat, hashes: seq<HeaderHash>, i: nat, j: nat)
    requires k + |hashes| <= |stream| && hashes == Hashes(stream[k..k + |hashes|]) && IsLinked(stream, k, k + |hashes|)
    requires forall x, y :: 0 <= x < |stream| && 0 <= y < |stream| && stream[x].hash == stream[y].hash ==>
             stream[x] == stream[y]
    requires i < j < |hashes|
    ensures hashes[i] == stream[k + i].hash && hashes[i] != hashes[j]
    ensures stream[k + j].length == stream[k + i].length + (j - i) && stream[k + i].date.Before(stream[k + j].date)
  {
    LinkedLengths(stream, k, k + |hashes|, k + i, k + j);
  }

  /** The first one builds on a block of the chain as it was when that header was read, one longer and later. */
  lemma BatchStartsOnKnownBlock(chain: Blockchain, answers: nat -> PreChecked, stream: seq<Header>, k: nat,
                                batch: Batch)
    requires IsStretch(answers, stream, k, batch) && batch.hashes != []
    requires chain.Valid() && answers(k) == chain.PreCheckHeader(stream[k], false)
    ensures stream[k].parent in chain.history && PreVerifyLink(stream[k], chain.history[stream[k].parent]) == None
  {
    hide IsSound;
    var parent := answers(k).parent;
    SoundHeader(chain.history, chain.block0, parent);
  }
}
