/** References and checkpoints of the `modules/blockchain` crate. */
module Reference {
  import opened Base
  import opened Chain

  datatype Reference = Reference(header: Header, previous: Option<Reference>)

  datatype ChainError = NotTheParentBlock | InvalidChainLength | InvalidBlockDate | NotAccepted

  /** A block chained to a reference; the epoch rules and the ledger have the last word. */
  function ChainBlock(r: Reference, header: Header, accepted: bool): (c: (Option<Reference>, Option<ChainError>))
    ensures c.1 == Some(NotTheParentBlock) <==> header.parent != r.header.hash
    ensures c.1 == Some(InvalidChainLength) <==> header.parent == r.header.hash && header.length - r.header.length != 1
    ensures c.1 == Some(InvalidBlockDate) <==>
            && header.parent == r.header.hash && header.length - r.header.length == 1
            && !IsLater(header.date, r.header.date)
    ensures c.0.Some? <==>
            && header.parent == r.header.hash && header.length - r.header.length == 1
            && IsLater(header.date, r.header.date) && accepted
    ensures c.0.Some? <==> c.1.None?
    ensures c.0.Some? ==> c.0.value.header == header && c.0.value.previous == Some(r)
  {
    if r.header.hash != header.parent then (None, Some(NotTheParentBlock))
    else if r.header.length + 1 != header.length then (None, Some(InvalidChainLength))
    else if !r.header.date.Before(header.date) then (None, Some(InvalidBlockDate))
    else if !accepted then (None, Some(NotAccepted))
    else (Some(Reference(header, Some(r))), None)
  }

  /** Made from block0 by chaining blocks. */
  ghost predicate IsBuilt(r: Reference) {
    match r.previous
    case None => r.header.length == 0
    case Some(p) => IsBuilt(p) && ChainBlock(p, r.header, true).0 == Some(r)
  }

  ghost function Links(r: Reference): (links: seq<Reference>)
    ensures |links| >= 1 && links[0] == r
  {
    [r] + match r.previous case None => [] case Some(p) => Links(p)
  }

  lemma {:induction false} LinkAfter(r: Reference, i: nat)
    requires i < |Links(r)|
    ensures match Links(r)[i].previous
            case None => i == |Links(r)| - 1
            case Some(p) => i + 1 < |Links(r)| && Links(r)[i + 1] == p
  {
    if i > 0 {
      LinkAfter(r.previous.value, i - 1);
    }
  }

  /** The previous-epoch link of a chained reference is its parent, whatever the epochs: following
      links walks block by block down to block0. */
  lemma {:induction false} LinksAreParents(r: Reference, i: nat)
    requires IsBuilt(r) && i < |Links(r)|
    ensures IsBuilt(Links(r)[i]) && |Links(r)| == r.header.length + 1
    ensures Links(r)[i].header.length == r.header.length - i
    ensures i > 0 ==> Links(r)[i].header.hash == Links(r)[i - 1].header.parent
  {
    if r.previous.Some? {
      LinksAreParents(r.previous.value, if i > 0 then i - 1 else 0);
    }
  }

  function Pow2(k: nat): (p: nat)
    ensures p >= 1
  {
    if k == 0 then 1 else 2 * Pow2(k - 1)
  }

  /** The references that do not carry the given hash, in their order. */
  ghost function Others(links: seq<Reference>, hash: HeaderHash): seq<Reference> {
    if links == [] then []
    else (if links[0].header.hash == hash then [] else [links[0]]) + Others(links[1..], hash)
  }

  lemma {:induction false} OthersAppend(links: seq<Reference>, r: Reference, hash: HeaderHash)
    ensures Others(links + [r], hash) == Others(links, hash) + if r.header.hash == hash then [] else [r]
  {
    hide Others;
    if links == [] {
      assert links + [r] == [r];
      OthersOne(r, hash);
    } else {
      assert links + [r] == [links[0]] + (links[1..] + [r]) && links == [links[0]] + links[1..];
      OthersCons(links[0], links[1..] + [r], hash);
      OthersCons(links[0], links[1..], hash);
      OthersAppend(links[1..], r, hash);
    }
  }

  lemma OthersOne(r: Reference, hash: HeaderHash)
    ensures Others([], hash) == [] && Others([r], hash) == if r.header.hash == hash then [] else [r]
  {
  }

  lemma OthersCons(r: Reference, links: seq<Reference>, hash: HeaderHash)
    ensures Others([r] + links, hash) == (if r.header.hash == hash then [] else [r]) + Others(links, hash)
  {
    assert ([r] + links)[1..] == links;
  }

  lemma {:induction false} OthersAll(links: seq<Reference>, hash: HeaderHash)
    requires forall r :: r in links ==> r.header.hash != hash
    ensures Others(links, hash) == links
  {
    if links != [] {
      OthersAll(links[1..], hash);
    }
  }

  /** The links further back that are not the parent. */
  ghost function Behind(from: Reference): seq<Reference> {
    Others(Links(from)[1..], from.header.parent)
  }

  /** The hash and the parent, then the references 1, 3, 7, ... behind, for as long as there are that many. */
  ghost predicate IsCheckpointList(from: Reference, checkpoints: seq<HeaderHash>, m: nat) {
    && |checkpoints| == 2 + m
    && checkpoints[0] == from.header.hash && checkpoints[1] == from.header.parent
    && (forall k :: 1 <= k <= m ==>
          Pow2(k) - 1 <= |Behind(from)| && checkpoints[1 + k] == Behind(from)[Pow2(k) - 2].header.hash)
    && |Behind(from)| < Pow2(m + 1) - 1
  }

  /** The walk has passed `c` links, `d` of them other than the parent. */
  ghost predicate HasPassed(from: Reference, c: nat, d: nat) {
    c < |Links(from)| && d == |Others(Links(from)[1..c + 1], from.header.parent)|
  }

  lemma PassNext(from: Reference, c: nat, d: nat)
    requires HasPassed(from, c, d) && c + 1 < |Links(from)|
    ensures var r := Links(from)[c + 1];
            if r.header.hash == from.header.parent then HasPassed(from, c + 1, d)
            else HasPassed(from, c + 1, d + 1) && d < |Behind(from)| && Behind(from)[d] == r
  {
    hide Links;
    var links, parent := Links(from), from.header.parent;
    assert links[1..c + 2] == links[1..c + 1] + [links[c + 1]];
    OthersAppend(links[1..c + 1], links[c + 1], parent);
    assert links[1..] == links[1..c + 2] + links[c + 2..];
    OthersPrefix(links[1..c + 2], links[c + 2..], parent);
  }

  lemma {:induction false} OthersPrefix(a: seq<Reference>, b: seq<Reference>, hash: HeaderHash)
    ensures Others(a, hash) <= Others(a + b, hash)
  {
    if a != [] {
      assert (a + b)[1..] == a[1..] + b;
      OthersPrefix(a[1..], b, hash);
    }
  }

  lemma PassedAll(from: Reference, d: nat)
    requires HasPassed(from, |Links(from)| - 1, d)
    ensures d == |Behind(from)|
  {
    assert Links(from)[1..|Links(from)|] == Links(from)[1..];
  }

  method NewCheckpoints(from: Reference) returns (checkpoints: seq<HeaderHash>)
    ensures |checkpoints| >= 2 && IsCheckpointList(from, checkpoints, |checkpoints| - 2)
  {
    hide Links, HasPassed, Behind;
    checkpoints := [from.header.hash, from.header.parent];
    var cursor, toSkip, skipped := from, 0, 0;
    ghost var c: nat, d: nat, m: nat := 0, 0, 0;
    assert HasPassed(from, 0, 0) by { NothingPassed(from); }
    while cursor.previous.Some?
      invariant c < |Links(from)| && Links(from)[c] == cursor && HasPassed(from, c, d)
      invariant toSkip == Pow2(m) - 1 && 0 <= skipped <= toSkip && d == Pow2(m) - 1 + skipped
      invariant |checkpoints| == 2 + m && checkpoints[0] == from.header.hash && checkpoints[1] == from.header.parent
      invariant forall k :: 1 <= k <= m ==>
                  Pow2(k) - 1 <= |Behind(from)| && checkpoints[1 + k] == Behind(from)[Pow2(k) - 2].header.hash
      decreases |Links(from)| - c
    {
      LinkAfter(from, c);
      PassNext(from, c, d);
      cursor := cursor.previous.value;
      c := c + 1;
      if cursor.header.hash == from.header.parent {
        continue;
      }
      d := d + 1;
      if skipped >= toSkip {
        checkpoints := checkpoints + [cursor.header.hash];
        toSkip := 1 + toSkip * 2;
        skipped := 0;
        m := m + 1;
      } else {
        skipped := skipped + 1;
      }
    }
    LinkAfter(from, c);
    PassedAll(from, d);
  }

  lemma NothingPassed(from: Reference)
    ensures HasPassed(from, 0, 0)
  {
    assert Links(from)[1..1] == [];
  }

  /** Equal hashes stand for equal references. */
  ghost predicate HashesIdentify(a: Reference, b: Reference) {
    forall x, y :: x in Links(a) && y in Links(b) && x.header.hash == y.header.hash ==> x == y
  }

  lemma ParentIsNotRepeated(from: Reference, i: nat)
    requires IsBuilt(from) && HashesIdentify(from, from) && 2 <= i < |Links(from)|
    ensures Links(from)[i].header.hash != from.header.parent
  {
    var links := Links(from);
    hide Links, IsBuilt;
    LinksAreParents(from, 1);
    LinksAreParents(from, i);
    assert links[1] in links && links[i] in links;
  }

  /** What is behind a reference built from block0 is its chain below the parent. */
  lemma BehindIsChain(from: Reference)
    requires IsBuilt(from) && from.previous.Some? && HashesIdentify(from, from)
    ensures Behind(from) == Links(from)[2..] && |Links(from)| == from.header.length + 1 >= 2
  {
    var links := Links(from);
    LinkAfter(from, 0);
    hide Links, IsBuilt, HashesIdentify;
    LinksAreParents(from, 1);
    forall r | r in links[2..]
      ensures r.header.hash != from.header.parent
    {
      var i :| 0 <= i < |links[2..]| && links[2..][i] == r;
      ParentIsNotRepeated(from, i + 2);
    }
    assert links[1..][1..] == links[2..];
    OthersAll(links[2..], from.header.parent);
  }

  /** Along a chain built from block0 the k-th checkpoint is 2^k blocks back, so the list is logarithmic in the chain
      length. */
  lemma CheckpointsOnBuiltChain(from: Reference, checkpoints: seq<HeaderHash>, m: nat, k: nat)
    requires IsBuilt(from) && from.previous.Some? && HashesIdentify(from, from)
    requires IsCheckpointList(from, checkpoints, m) && 1 <= k <= m
    ensures Pow2(k) <= from.header.length < Pow2(m + 1) && Pow2(k) < |Links(from)|
    ensures checkpoints[1 + k] == Links(from)[Pow2(k)].header.hash &&
            Links(from)[Pow2(k)].header.length == from.header.length - Pow2(k)
  {
    hide Links, Behind, IsBuilt, HashesIdentify;
    BehindIsChain(from);
    assert checkpoints[1 + k] == Behind(from)[Pow2(k) - 2].header.hash;
    LinksAreParents(from, Pow2(k));
  }

  lemma {:induction false} LinkedIsShorter(r: Reference, x: Reference)
    requires IsBuilt(r) && x in Links(r)
    ensures IsBuilt(x) && x.header.length <= r.header.length
    ensures x == r || (r.previous.Some? && x in Links(r.previous.value) && x.header.length < r.header.length)
  {
    var i :| 0 <= i < |Links(r)| && Links(r)[i] == x;
    LinksAreParents(r, i);
    if i > 0 {
      assert Links(r.previous.value)[i - 1] == x;
    }
  }

  lemma {:induction false} LinksAreTransitive(r: Reference, p: Reference, x: Reference)
    requires p in Links(r) && x in Links(p)
    ensures x in Links(r)
  {
    if p != r {
      var i :| 0 <= i < |Links(r)| && Links(r)[i] == p;
      assert Links(r.previous.value)[i - 1] == p;
      LinksAreTransitive(r.previous.value, p, x);
      var j :| 0 <= j < |Links(r.previous.value)| && Links(r.previous.value)[j] == x;
      assert Links(r)[j + 1] == x;
    }
  }

  ghost predicate IsCommon(a: Reference, b: Reference, x: Reference) {
    x in Links(a) && x in Links(b)
  }

  /** Moving the longer of two different references down loses no common ancestor. */
  lemma MoveDown(a: Reference, b: Reference, x: Reference)
    requires IsBuilt(a) && IsBuilt(b) && a != b && a.header.length >= b.header.length && IsCommon(a, b, x)
    ensures a.previous.Some? && IsCommon(a.previous.value, b, x)
  {
    LinkedIsShorter(a, x);
    LinkedIsShorter(b, x);
  }

  /** The longest common ancestor, or none because there is none. */
  ghost predicate IsNearest(a: Reference, b: Reference, r: Option<Reference>) {
    match r
    case None => forall x :: !IsCommon(a, b, x)
    case Some(m) => IsCommon(a, b, m) && forall x :: IsCommon(a, b, x) ==> x.header.length <= m.header.length
  }

  /** One of the two is a block0 whose parent hash names the other; the first test comes first. */
  ghost predicate Misled(a: Reference, b: Reference) {
    a != b &&
    if a.header.hash == b.header.parent then b.previous.None?
    else a.header.parent == b.header.hash && a.previous.None?
  }

  /** Despite its name it finds the longest common ancestor, unless the parent hash of a block0 misleads it. */
  method ApproximateCommonAncestor(a: Reference, b: Reference) returns (r: Option<Reference>)
    requires IsBuilt(a) && IsBuilt(b) && HashesIdentify(a, b)
    ensures IsNearest(a, b, r) <==> !Misled(a, b)
  {
    if a.header.hash == b.header.parent {
      ParentIsCommon(b, a, a, b);
      return Some(a);
    }
    if a.header.parent == b.header.hash {
      ParentIsCommon(a, b, a, b);
      return Some(b);
    }
    var index1, index2 := a, b;
    hide Links, IsBuilt;
    while true
      invariant IsBuilt(index1) && IsBuilt(index2) && index1 in Links(a) && index2 in Links(b)
      invariant forall x :: IsCommon(a, b, x) ==> IsCommon(index1, index2, x)
      decreases index1.header.length + index2.header.length
    {
      if index1.header.hash == index2.header.hash {
        Meeting(a, b, index1);
        return Some(index1);
      }
      if index1.header.length < index2.header.length {
        forall x | IsCommon(index1, index2, x)
          ensures index2.previous.Some? && IsCommon(index1, index2.previous.value, x)
        {
          MoveDown(index2, index1, x);
        }
        if index2.previous.None? {
          return None;
        }
        StepDown(b, index2);
        index2 := index2.previous.value;
      } else {
        forall x | IsCommon(index1, index2, x)
          ensures index1.previous.Some? && IsCommon(index1.previous.value, index2, x)
        {
          MoveDown(index1, index2, x);
        }
        if index1.previous.None? {
          return None;
        }
        StepDown(a, index1);
        index1 := index1.previous.value;
      }
    }
  }

  lemma StepDown(r: Reference, p: Reference)
    requires p in Links(r) && IsBuilt(p) && p.previous.Some?
    ensures p.previous.value in Links(r) && IsBuilt(p.previous.value)
    ensures p.previous.value.header.length < p.header.length
  {
    assert Links(p)[1] == p.previous.value;
    LinksAreTransitive(r, p, p.previous.value);
  }

  /** Where the two walks meet is the longest common ancestor. */
  lemma Meeting(a: Reference, b: Reference, m: Reference)
    requires IsBuilt(m) && forall x :: IsCommon(a, b, x) ==> x in Links(m)
    ensures forall x :: IsCommon(a, b, x) ==> x.header.length <= m.header.length
  {
    forall x | IsCommon(a, b, x)
      ensures x.header.length <= m.header.length
    {
      LinkedIsShorter(m, x);
    }
  }

  lemma ParentIsCommon(child: Reference, parent: Reference, a: Reference, b: Reference)
    requires IsBuilt(a) && IsBuilt(b) && HashesIdentify(a, b)
    requires (child == a && parent == b) || (child == b && parent == a)
    requires child.header.parent == parent.header.hash
    ensures IsNearest(a, b, Some(parent)) <==> child.previous.Some? || a == b
  {
    assert parent in Links(parent) && child in Links(child);
    if child.previous.Some? {
      assert Links(child)[1] == child.previous.value;
      assert child.previous.value == parent;
    } else {
      assert Links(child) == [child];
    }
    forall x | IsCommon(a, b, x)
      ensures x.header.length <= parent.header.length
    {
      LinkedIsShorter(parent, x);
    }
  }

  /** Two chains of one block each, the parent hash of the second naming the first. */
  lemma ForeignParentMisleads()
    ensures var a := Reference(Header(1, 99, 0, BlockDate(0, 0)), None);
            var b := Reference(Header(2, 1, 0, BlockDate(0, 0)), None);
            && IsBuilt(a) && IsBuilt(b) && HashesIdentify(a, b)
            && Misled(a, b) && !IsNearest(a, b, Some(a)) && IsNearest(a, b, None)
  {
    var a := Reference(Header(1, 99, 0, BlockDate(0, 0)), None);
    var b := Reference(Header(2, 1, 0, BlockDate(0, 0)), None);
    assert Links(a) == [a] && Links(b) == [b];
  }
}
