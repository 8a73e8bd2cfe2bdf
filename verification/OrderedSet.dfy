/** An ordered set (a `BTreeSet`) as the strictly increasing sequence it iterates over. */
module OrderedSet {

  ghost predicate StrictOrder<T(!new)>(lt: (T, T) -> bool) {
    && (forall x :: !lt(x, x))
    && (forall x, y, z :: lt(x, y) && lt(y, z) ==> lt(x, z))
    && (forall x, y :: lt(x, y) || x == y || lt(y, x))
  }

  ghost predicate Sorted<T>(s: seq<T>, lt: (T, T) -> bool) {
    forall i, j :: 0 <= i < j < |s| ==> lt(s[i], s[j])
  }

  function Insert<T(==)>(s: seq<T>, x: T, lt: (T, T) -> bool): (r: seq<T>) {
    if s == [] then [x]
    else if s[0] == x then s
    else if lt(x, s[0]) then [x] + s
    else [s[0]] + Insert(s[1..], x, lt)
  }

  function Remove<T(==)>(s: seq<T>, x: T): (r: seq<T>) {
    if s == [] then []
    else if s[0] == x then s[1..]
    else [s[0]] + Remove(s[1..], x)
  }

  function TakeWhile<T>(s: seq<T>, p: T -> bool): (r: seq<T>)
    ensures r <= s
  {
    if s == [] || !p(s[0]) then [] else [s[0]] + TakeWhile(s[1..], p)
  }

  lemma Transitive<T(!new)>(lt: (T, T) -> bool, x: T, y: T, z: T)
    requires StrictOrder(lt)
    ensures lt(x, y) && lt(y, z) ==> lt(x, z)
    ensures lt(x, y) || x == y || lt(y, x)
    ensures !lt(x, x)
  {
  }

  lemma SortedCons<T>(x: T, s: seq<T>, lt: (T, T) -> bool)
    requires Sorted(s, lt) && forall y :: y in s ==> lt(x, y)
    ensures Sorted([x] + s, lt)
  {
    assert forall i :: 0 <= i < |s| ==> s[i] in s;
  }

  lemma SortedTail<T>(s: seq<T>, lt: (T, T) -> bool)
    requires Sorted(s, lt) && s != []
    ensures Sorted(s[1..], lt) && forall y :: y in s[1..] ==> lt(s[0], y)
    ensures forall y :: y in s <==> y == s[0] || y in s[1..]
  {
    assert s == [s[0]] + s[1..];
  }

  /** Insertion keeps the order and adds exactly one element. */
  lemma {:induction false} InsertIntoSorted<T(!new)>(s: seq<T>, x: T, lt: (T, T) -> bool)
    requires StrictOrder(lt) && Sorted(s, lt)
    ensures Sorted(Insert(s, x, lt), lt)
    ensures forall y :: y in Insert(s, x, lt) <==> y == x || y in s
  {
    hide StrictOrder, Sorted;
    if s == [] {
      SortedOne(x, lt);
    } else if s[0] == x {
    } else {
      SortedTail(s, lt);
      Transitive(lt, x, s[0], x);
      if lt(x, s[0]) {
        forall y | y in s
          ensures lt(x, y)
        {
          Transitive(lt, x, s[0], y);
        }
        SortedCons(x, s, lt);
      } else {
        InsertIntoSorted(s[1..], x, lt);
        SortedCons(s[0], Insert(s[1..], x, lt), lt);
      }
    }
  }

  lemma SortedOne<T>(x: T, lt: (T, T) -> bool)
    ensures Sorted([x], lt)
  {
  }

  /** Removal keeps the order and takes out exactly one element. */
  lemma {:induction false} RemoveFromSorted<T(!new)>(s: seq<T>, x: T, lt: (T, T) -> bool)
    requires StrictOrder(lt) && Sorted(s, lt)
    ensures Sorted(Remove(s, x), lt)
    ensures forall y :: y in Remove(s, x) <==> y in s && y != x
  {
    hide StrictOrder, Sorted;
    if s != [] {
      SortedTail(s, lt);
      Transitive(lt, x, x, x);
      if s[0] != x {
        RemoveFromSorted(s[1..], x, lt);
        SortedCons(s[0], Remove(s[1..], x), lt);
      }
    }
  }

  /** Stopping at the first element that fails a downward-closed test misses nothing. */
  lemma {:induction false} TakeWhileIsFilter<T(!new)>(s: seq<T>, p: T -> bool, lt: (T, T) -> bool)
    requires Sorted(s, lt)
    requires forall x, y :: lt(x, y) && p(y) ==> p(x)
    ensures forall y :: y in TakeWhile(s, p) <==> y in s && p(y)
  {
    if s == [] {
    } else {
      assert s == [s[0]] + s[1..];
      if p(s[0]) {
        TakeWhileIsFilter(s[1..], p, lt);
      } else {
        assert forall i :: 0 < i < |s| ==> lt(s[0], s[i]);
      }
    }
  }

  /** A strictly increasing sequence is determined by its elements. */
  lemma {:induction false} SortedIsUnique<T(!new)>(s: seq<T>, t: seq<T>, lt: (T, T) -> bool)
    requires StrictOrder(lt) && Sorted(s, lt) && Sorted(t, lt)
    requires forall y :: y in s <==> y in t
    ensures s == t
  {
    hide StrictOrder;
    if s == [] {
      assert forall y :: y !in t;
      assert forall i :: 0 <= i < |t| ==> t[i] in t;
    } else {
      assert s[0] in t;
      assert t[0] in s;
      Transitive(lt, s[0], t[0], s[0]);
      assert s[0] == t[0];
      Transitive(lt, s[0], s[0], s[0]);
      forall y
        ensures y in s[1..] <==> y in t[1..]
      {
        assert s == [s[0]] + s[1..] && t == [t[0]] + t[1..];
        assert s[0] !in s[1..] && t[0] !in t[1..];
        assert y in s <==> y in t;
      }
      SortedIsUnique(s[1..], t[1..], lt);
    }
  }
}
