/**
  Locking a group of inodes: the order is by address, a nil entry or a repeated one
  is locked once or not at all.
 */
module LockOrder {
  import opened Types
  import Recency

  /** A possibly nil pointer as the number the lock order compares; nil is lowest. */
  type Pointer = nat
  const NIL: Pointer := 0

  function PointerTo(a: Addr): Pointer {
    a + 1
  }

  predicate Ascending(l: seq<Addr>) {
    forall i, j :: 0 <= i < j < |l| ==> l[i] < l[j]
  }

  // ----- the order as a function of the set of inodes -----

  ghost function Lowest(s: set<Addr>): (m: Addr)
    requires s != {}
    ensures m in s && forall x :: x in s ==> m <= x
  {
    LowestExists(s);
    var m :| m in s && forall x :: x in s ==> m <= x;
    m
  }

  lemma LowestExists(s: set<Addr>)
    requires s != {}
    ensures exists m :: m in s && forall x :: x in s ==> m <= x
  {
    var m := LowestOf(s);
  }

  lemma {:induction false} LowestOf(s: set<Addr>) returns (m: Addr)
    requires s != {}
    ensures m in s && forall x :: x in s ==> m <= x
  {
    m :| m in s;
    if s != {m} {
      var rest := LowestOf(s - {m});
      assert s == (s - {m}) + {m};
      m := if m < rest then m else rest;
    }
  }

  /** The inodes of a group in the order in which they are locked. */
  ghost function Sorted(s: set<Addr>): (l: seq<Addr>)
    ensures forall x :: x in l <==> x in s
    ensures Ascending(l)
    decreases s
  {
    if s == {} then []
    else
      var m := Lowest(s);
      var rest := Sorted(s - {m});
      assert forall i :: 0 <= i < |rest| ==> rest[i] in s - {m};
      [m] + rest
  }

  lemma TailMembers(a: seq<Addr>)
    requires Ascending(a) && a != []
    ensures forall x :: x in a[1..] <==> x in a && x != a[0]
  {
  }

  /** Only one ascending list has a given set of members. */
  lemma {:induction false} AscendingUnique(a: seq<Addr>, b: seq<Addr>)
    requires Ascending(a) && Ascending(b)
    requires forall x :: x in a <==> x in b
    ensures a == b
  {
    if a == [] {
      assert forall i :: 0 <= i < |b| ==> b[i] in a;
    } else {
      assert a[0] in b && b != [];
      assert b[0] in a;
      assert a[0] == b[0];
      TailMembers(a);
      TailMembers(b);
      AscendingUnique(a[1..], b[1..]);
    }
  }

  /** The non-nil members of a list of pointers. */
  ghost function Members(ns: seq<Pointer>): set<Addr> {
    set i | 0 <= i < |ns| && ns[i] != NIL :: (ns[i] - 1) as Addr
  }

  // ----- lockNodes and unlockNodes -----

  /** sort.Slice with nodeLess: ascending, nil first, equal pointers side by side. */
  method SortNodes(ns: array<Pointer>)
    modifies ns
    ensures forall i, j :: 0 <= i < j < ns.Length ==> ns[i] <= ns[j]
    ensures multiset(ns[..]) == old(multiset(ns[..]))
  {
    var i := 0;
    while i < ns.Length
      invariant 0 <= i <= ns.Length
      invariant multiset(ns[..]) == old(multiset(ns[..]))
      invariant forall j, k :: 0 <= j < k < ns.Length && j < i ==> ns[j] <= ns[k]
    {
      var least := i;
      for m := i + 1 to ns.Length
        invariant i <= least < ns.Length
        invariant forall j :: i <= j < m ==> ns[least] <= ns[j]
      {
        if ns[m] < ns[least] {
          least := m;
        }
      }
      Recency.Swap(ns, i, least);
      i := i + 1;
    }
  }

  lemma MembersOfMultiset(a: seq<Pointer>, b: seq<Pointer>)
    requires multiset(a) == multiset(b)
    ensures Members(a) == Members(b)
  {
    forall x | x in Members(a) ensures x in Members(b) {
      var i :| 0 <= i < |a| && a[i] != NIL && a[i] - 1 == x;
      assert a[i] in multiset(b);
      var j :| 0 <= j < |b| && b[j] == a[i];
    }
    forall x | x in Members(b) ensures x in Members(a) {
      var i :| 0 <= i < |b| && b[i] != NIL && b[i] - 1 == x;
      assert b[i] in multiset(a);
      var j :| 0 <= j < |a| && a[j] == b[i];
    }
  }

  lemma MembersExact(a: seq<Pointer>)
    ensures forall x :: x in Members(a) <==> PointerTo(x) in a
  {
    forall x ensures x in Members(a) <==> PointerTo(x) in a {
      if PointerTo(x) in a {
        var i :| 0 <= i < |a| && a[i] == PointerTo(x);
      }
    }
  }

  /** An ascending list of exactly the inodes pointed to is the group in locking order. */
  lemma CallsAreSorted(calls: seq<Addr>, a: seq<Pointer>)
    requires Ascending(calls) && forall x :: x in calls <==> PointerTo(x) in a
    ensures calls == Sorted(Members(a))
  {
    hide Ascending;
    MembersExact(a);
    AscendingUnique(calls, Sorted(Members(a)));
  }

  lemma SortedExact(calls: seq<Addr>, a: seq<Pointer>)
    requires calls == Sorted(Members(a))
    ensures Ascending(calls) && forall x :: x in calls <==> PointerTo(x) in a
  {
    MembersExact(a);
  }

  /**
    lockNodes, and unlockNodes with Unlock for Lock: the inodes in the order of the
    calls.  Each distinct non-nil inode is called exactly once, in ascending order.
   */
  method LockNodes(ns: array<Pointer>) returns (calls: seq<Addr>)
    modifies ns
    ensures calls == Sorted(old(Members(ns[..])))
    ensures Ascending(calls) && forall x :: x in calls <==> PointerTo(x) in old(ns[..])
    ensures Members(ns[..]) == old(Members(ns[..]))
  {
    hide Members, Sorted;
    SortNodes(ns);
    MembersOfMultiset(ns[..], old(ns[..]));
    calls := [];
    var prev := NIL;
    var i := 0;
    while i < ns.Length
      invariant 0 <= i <= ns.Length
      invariant prev == if i == 0 then NIL else ns[i - 1]
      invariant Ascending(calls)
      invariant forall x :: x in calls <==> exists j :: 0 <= j < i && ns[j] == PointerTo(x)
      invariant calls == [] <==> prev == NIL
      invariant calls != [] ==> PointerTo(calls[|calls| - 1]) == prev
    {
      var n := ns[i];
      if n != prev {
        calls := calls + [n - 1];
        prev := n;
      }
      i := i + 1;
    }
    CallsAreSorted(calls, ns[..]);
    SortedExact(calls, old(ns[..]));
  }

  /** Locking a group and unlocking the slice that sorting left behind are matched. */
  method LockThenUnlock(ns: array<Pointer>) returns (locked: seq<Addr>, unlocked: seq<Addr>)
    modifies ns
    ensures locked == unlocked == Sorted(old(Members(ns[..])))
    ensures forall x :: x in unlocked <==> PointerTo(x) in old(ns[..])
  {
    locked := LockNodes(ns);
    unlocked := LockNodes(ns);
  }

  /** lockNode2 makes the calls that lockNodes makes on the two inodes. */
  method LockNode2(n1: Pointer, n2: Pointer) returns (calls: seq<Addr>)
    ensures calls == Sorted(Members([n1, n2]))
    ensures Ascending(calls) && forall x :: x in calls <==> PointerTo(x) in [n1, n2]
  {
    hide Members, Sorted;
    calls := [];
    if n1 == n2 {
      if n1 != NIL {
        calls := [n1 - 1];
      }
    } else if n1 < n2 {
      if n1 != NIL {
        calls := calls + [n1 - 1];
      }
      if n2 != NIL {
        calls := calls + [n2 - 1];
      }
    } else {
      if n2 != NIL {
        calls := calls + [n2 - 1];
      }
      if n1 != NIL {
        calls := calls + [n1 - 1];
      }
    }
    CallsAreSorted(calls, [n1, n2]);
  }

  /** A list without repetition of exactly the inodes pointed to. */
  lemma EachOnce(calls: seq<Addr>, a: seq<Pointer>)
    requires |calls| <= 2 && (|calls| == 2 ==> calls[0] != calls[1])
    requires forall x :: x in calls <==> PointerTo(x) in a
    ensures multiset(calls) == multiset(Members(a))
  {
    MembersExact(a);
    var s := Members(a);
    assert forall x :: x in s <==> x in calls;
    if |calls| == 2 {
      assert calls == [calls[0], calls[1]] && s == {calls[0], calls[1]};
    } else if |calls| == 1 {
      assert calls == [calls[0]] && s == {calls[0]};
    } else {
      assert s == {};
    }
  }

  /** unlockNode2 releases the same inodes, each once. */
  method UnlockNode2(n1: Pointer, n2: Pointer) returns (calls: seq<Addr>)
    ensures multiset(calls) == multiset(Members([n1, n2])) && forall x :: x in calls <==> PointerTo(x) in [n1, n2]
  {
    hide Members;
    calls := [];
    if n1 == n2 {
      if n1 != NIL {
        calls := [n1 - 1];
      }
    } else {
      if n1 != NIL {
        calls := calls + [n1 - 1];
      }
      if n2 != NIL {
        calls := calls + [n2 - 1];
      }
    }
    EachOnce(calls, [n1, n2]);
  }
}
