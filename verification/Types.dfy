/** Vocabulary shared by every module: addresses, inode numbers, parent entries. */
module Types {
  datatype Option<+T> = None | Some(value: T)

  /** The address of an inode object; the lock order compares addresses. */
  type Addr = nat

  /** A file system's inode number (uint64 in the source). */
  type Ino = nat

  /** The number of values of a uint32. */
  const WORD: nat := 0x1_0000_0000

  /** Conversion to, and wrap-around of, a uint32. */
  function Wrap(x: nat): (r: nat)
    ensures r < WORD
    ensures x < WORD ==> r == x
  {
    x % WORD
  }

  /** One place where an inode is linked: under `name` in directory `node`. */
  datatype Entry = Entry(name: string, node: Addr)

  ghost predicate Distinct<T>(s: seq<T>) {
    forall j, k :: 0 <= j < k < |s| ==> s[j] != s[k]
  }

  function Get<K, V>(m: map<K, V>, k: K): Option<V> {
    if k in m then Some(m[k]) else None
  }

  /** Memory is never exhausted: there is an address above any finite set. */
  lemma FreshAddress(nodes: set<Addr>) returns (a: Addr)
    ensures a !in nodes && forall x :: x in nodes ==> x < a
  {
    a := 0;
    var rest := nodes;
    while rest != {}
      invariant rest <= nodes && forall x :: x in nodes && x !in rest ==> x < a
      decreases rest
    {
      var x :| x in rest;
      rest := rest - {x};
      if a <= x {
        a := x + 1;
      }
    }
  }
}
