/** The block storage as a tree: every block but block0 has its parent in it. */
module Store {
  import opened Base

  datatype BlockInfo = BlockInfo(parent: HeaderHash, length: nat)

  type Store = map<HeaderHash, BlockInfo>

  /** One root, parents present, lengths counting from the root with room in 32 bits for the next two. */
  ghost predicate IsTree(store: Store, block0: HeaderHash) {
    && block0 in store
    && (forall h :: h in store ==> store[h].length + 1 < U32_MAX && (h == block0 <==> store[h].length == 0))
    && (forall h {:trigger store[h].parent} :: h in store && h != block0 ==>
          store[h].parent in store && store[store[h].parent].length + 1 == store[h].length)
  }

  /** The ancestor-or-self of `h` at the given chain length. */
  ghost function At(store: Store, block0: HeaderHash, h: HeaderHash, length: nat): (a: HeaderHash)
    requires IsTree(store, block0) && h in store && length <= store[h].length
    ensures a in store && store[a].length == length
    decreases store[h].length
  {
    if store[h].length == length then h else At(store, block0, store[h].parent, length)
  }

  /** `a` is `h` or one of its ancestors. */
  ghost predicate IsAncestor(store: Store, block0: HeaderHash, a: HeaderHash, h: HeaderHash)
    requires IsTree(store, block0)
  {
    && a in store && h in store
    && store[a].length <= store[h].length
    && At(store, block0, h, store[a].length) == a
  }

  lemma {:induction false} AtAt(store: Store, block0: HeaderHash, h: HeaderHash, m: nat, n: nat)
    requires IsTree(store, block0) && h in store && n <= m <= store[h].length
    ensures At(store, block0, At(store, block0, h, m), n) == At(store, block0, h, n)
    decreases store[h].length
  {
    if store[h].length != m {
      AtAt(store, block0, store[h].parent, m, n);
    }
  }

  lemma AncestorTransitive(store: Store, block0: HeaderHash, a: HeaderHash, b: HeaderHash, c: HeaderHash)
    requires IsTree(store, block0)
    requires IsAncestor(store, block0, a, b) && IsAncestor(store, block0, b, c)
    ensures IsAncestor(store, block0, a, c)
  {
    AtAt(store, block0, c, store[b].length, store[a].length);
  }

  /** Two ancestors of the same block lie on one path. */
  lemma AncestorsOnPath(store: Store, block0: HeaderHash, a: HeaderHash, b: HeaderHash, c: HeaderHash)
    requires IsTree(store, block0)
    requires IsAncestor(store, block0, a, c) && IsAncestor(store, block0, b, c)
    requires store[a].length <= store[b].length
    ensures IsAncestor(store, block0, a, b)
  {
    AtAt(store, block0, c, store[b].length, store[a].length);
  }

  lemma ParentIsAncestor(store: Store, block0: HeaderHash, h: HeaderHash)
    requires IsTree(store, block0) && h in store && h != block0
    ensures IsAncestor(store, block0, store[h].parent, h)
  {
    assert At(store, block0, h, store[h].length - 1) == At(store, block0, store[h].parent, store[h].length - 1);
  }

  lemma SelfAncestor(store: Store, block0: HeaderHash, h: HeaderHash)
    requires IsTree(store, block0) && h in store
    ensures IsAncestor(store, block0, h, h)
  {
  }

  lemma RootIsAncestor(store: Store, block0: HeaderHash, h: HeaderHash)
    requires IsTree(store, block0) && h in store
    ensures IsAncestor(store, block0, block0, h)
  {
  }

  lemma TreeGrows(store: Store, block0: HeaderHash, h: HeaderHash, info: BlockInfo)
    requires IsTree(store, block0) && info.parent in store
    requires info.length == store[info.parent].length + 1 && info.length + 1 < U32_MAX
    requires h in store ==> store[h] == info
    ensures IsTree(store[h := info], block0) && h != block0
  {
    var store' := store[h := info];
    if h in store {
      assert store' == store;
    } else {
      assert forall x :: x in store ==> store'[x] == store[x];
    }
  }
}
