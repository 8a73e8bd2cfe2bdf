/** Sequences that arise from another one by leaving elements out. */
module Subsequence {

  ghost predicate IsSubsequence<T>(s: seq<T>, t: seq<T>) {
    s == [] || (t != [] && ((s[0] == t[0] && IsSubsequence(s[1..], t[1..])) || IsSubsequence(s, t[1..])))
  }

  lemma {:induction false} Reflexive<T>(s: seq<T>)
    ensures IsSubsequence(s, s)
  {
    if s != [] {
      Reflexive(s[1..]);
    }
  }

  /** The next element of the longer sequence is kept or left out. */
  lemma Extend<T>(x: T, s: seq<T>, t: seq<T>)
    requires IsSubsequence(s, t)
    ensures IsSubsequence([x] + s, [x] + t) && IsSubsequence(s, [x] + t)
  {
    assert ([x] + s)[1..] == s && ([x] + t)[1..] == t;
  }

  lemma {:induction false} Transitive<T>(a: seq<T>, b: seq<T>, c: seq<T>)
    requires IsSubsequence(a, b) && IsSubsequence(b, c)
    ensures IsSubsequence(a, c)
    decreases |c|
  {
    if a != [] {
      if b[0] == c[0] && IsSubsequence(b[1..], c[1..]) {
        if a[0] == b[0] && IsSubsequence(a[1..], b[1..]) {
          Transitive(a[1..], b[1..], c[1..]);
        } else {
          Transitive(a, b[1..], c[1..]);
        }
      } else {
        Transitive(a, b, c[1..]);
      }
    }
  }

  lemma {:induction false} Append<T>(s: seq<T>, t: seq<T>, more: seq<T>)
    requires IsSubsequence(s, t)
    ensures IsSubsequence(s + more, t + more)
    decreases |t|
  {
    if t == [] {
      assert s + more == more && t + more == more;
      Reflexive(more);
    } else {
      assert (t + more)[1..] == t[1..] + more;
      if s != [] && s[0] == t[0] && IsSubsequence(s[1..], t[1..]) {
        assert (s + more)[1..] == s[1..] + more;
        Append(s[1..], t[1..], more);
      } else {
        Append(s, t[1..], more);
      }
    }
  }
}
