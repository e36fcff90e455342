/**
  The parent store of an inode: the newest entry plus a map from every displaced
  entry to the time it was displaced.  Its meaning is a duplicate-free list of
  entries, most recent first; every operation of the class is an operation of
  that list.
 */
module Recency {
  import opened Types

  // ----- lists of entries, most recent first -----

  predicate NoDup(l: seq<Entry>) {
    |l| > 0 ==> l[0] !in l[1..] && NoDup(l[1..])
  }

  function Remove(l: seq<Entry>, e: Entry): (r: seq<Entry>)
    ensures forall x :: x in r <==> x in l && x != e
    ensures NoDup(l) ==> NoDup(r)
  {
    if l == [] then []
    else if l[0] == e then Remove(l[1..], e)
    else
      var r := [l[0]] + Remove(l[1..], e);
      assert r[1..] == Remove(l[1..], e);
      r
  }

  function MoveToFront(l: seq<Entry>, e: Entry): (r: seq<Entry>)
    ensures forall x :: x in r <==> x in l || x == e
    ensures NoDup(l) ==> NoDup(r)
  {
    var r := [e] + Remove(l, e);
    assert r[1..] == Remove(l, e);
    r
  }

  function Reverse(l: seq<Entry>): (r: seq<Entry>)
    ensures |r| == |l|
    ensures forall x :: x in r <==> x in l
  {
    if l == [] then [] else Reverse(l[1..]) + [l[0]]
  }

  /** Adds the entries of `es` one after the other. */
  function Replay(es: seq<Entry>, l: seq<Entry>): seq<Entry> {
    if es == [] then l else Replay(es[1..], MoveToFront(l, es[0]))
  }

  lemma {:induction false} RemoveAbsent(l: seq<Entry>, e: Entry)
    requires e !in l
    ensures Remove(l, e) == l
  {
    if l != [] {
      RemoveAbsent(l[1..], e);
    }
  }

  lemma {:induction false} ReplayAppend(a: seq<Entry>, b: seq<Entry>, l: seq<Entry>)
    ensures Replay(a + b, l) == Replay(b, Replay(a, l))
  {
    if a == [] {
      assert a + b == b;
    } else {
      assert (a + b)[1..] == a[1..] + b;
      ReplayAppend(a[1..], b, MoveToFront(l, a[0]));
    }
  }

  /** Adding a list's entries oldest first to an empty store gives the list back. */
  lemma {:induction false} ReplayReverse(l: seq<Entry>)
    requires NoDup(l)
    ensures Replay(Reverse(l), []) == l
  {
    if l != [] {
      ReplayReverse(l[1..]);
      ReplayAppend(Reverse(l[1..]), [l[0]], []);
      RemoveAbsent(l[1..], l[0]);
    }
  }

  // ----- the displacement times -----

  /** `l` lists keys of `t`, with strictly decreasing times. */
  ghost predicate Descending(l: seq<Entry>, t: map<Entry, nat>) {
    |l| > 0 ==>
      && l[0] in t
      && (forall x :: x in l[1..] ==> x in t && t[x] < t[l[0]])
      && Descending(l[1..], t)
  }

  lemma {:induction false} DescendingElsewhere(l: seq<Entry>, t: map<Entry, nat>, u: map<Entry, nat>)
    requires Descending(l, t)
    requires forall x :: x in l ==> x in u && x in t && u[x] == t[x]
    ensures Descending(l, u)
  {
    if l != [] {
      DescendingElsewhere(l[1..], t, u);
    }
  }

  lemma {:induction false} DescendingRemove(l: seq<Entry>, t: map<Entry, nat>, e: Entry)
    requires Descending(l, t)
    ensures Descending(Remove(l, e), t)
  {
    if l != [] {
      DescendingRemove(l[1..], t, e);
      if l[0] != e {
        assert Remove(l, e)[1..] == Remove(l[1..], e);
      }
    }
  }

  lemma MoveToFrontParts(l: seq<Entry>, n: Entry)
    requires l != [] && l[0] != n
    ensures MoveToFront(l, n)[0] == n && MoveToFront(l, n)[1..] == [l[0]] + Remove(l[1..], n)
  {
  }

  lemma DescendingCons(e: Entry, rest: seq<Entry>, t: map<Entry, nat>)
    requires e in t && Descending(rest, t) && forall x :: x in rest ==> x in t && t[x] < t[e]
    ensures Descending([e] + rest, t)
  {
  }

  /** Displacing the head at time `now` keeps the times in order. */
  lemma DisplacedOrder(l: seq<Entry>, t: map<Entry, nat>, u: map<Entry, nat>, n: Entry, now: nat)
    requires NoDup(l) && l != [] && l[0] != n && Descending(l[1..], t)
    requires forall x :: x in t <==> x in l[1..]
    requires forall x :: x in t ==> t[x] < now
    requires u == t[l[0] := now] - {n}
    ensures MoveToFront(l, n)[0] == n
    ensures forall x :: x in u <==> x in MoveToFront(l, n)[1..]
    ensures Descending(MoveToFront(l, n)[1..], u)
  {
    hide Remove, MoveToFront, Descending;
    var rest := Remove(l[1..], n);
    MoveToFrontParts(l, n);
    DescendingRemove(l[1..], t, n);
    assert l[0] !in t;
    DescendingElsewhere(rest, t, u);
    DescendingCons(l[0], rest, u);
  }

  /** The entry displaced last. */
  method Latest(other: map<Entry, nat>) returns (i: Entry)
    requires other != map[]
    requires forall x :: x in other ==> 0 < other[x]
    ensures i in other
    ensures forall x :: x in other ==> other[x] <= other[i]
  {
    i :| i in other;
    var t := 0;
    var keys := other.Keys;
    while keys != {}
      invariant keys <= other.Keys
      invariant i in other
      invariant t == 0 || t == other[i]
      invariant t == 0 ==> keys == other.Keys
      invariant forall x :: x in other && x !in keys ==> other[x] <= t
      decreases keys
    {
      var k :| k in keys;
      keys := keys - {k};
      if t < other[k] {
        t, i := other[k], k;
      }
    }
  }

  class InodeParents {
    /** The address of the inode whose parents these are. */
    ghost const home: Addr
    var newest: Option<Entry>
    var other: map<Entry, nat>
    ghost var recency: seq<Entry>

    /** `newest` heads the recency list and the times order the rest of it. */
    ghost predicate Valid()
      reads this
    {
      && NoDup(recency)
      && (newest.None? <==> recency == [])
      && (recency == [] ==> other == map[])
      && (recency != [] ==>
            && newest == Some(recency[0])
            && (forall x :: x in other <==> x in recency[1..])
            && Descending(recency[1..], other))
      && (forall x :: x in other ==> 0 < other[x])
    }

    /** No displacement happened after `now`. */
    ghost predicate Before(now: nat)
      reads this
    {
      forall x :: x in other ==> other[x] < now
    }

    constructor (ghost home: Addr)
      ensures Valid() && recency == [] && Before(1) && this.home == home
    {
      this.home := home;
      newest, other, recency := None, map[], [];
    }

    /** Adds `n`, displacing the newest entry at time `now`. */
    method Add(n: Entry, now: nat)
      requires Valid() && Before(now) && 0 < now
      modifies this
      ensures Valid() && Before(now + 1)
      ensures recency == MoveToFront(old(recency), n)
    {
      if newest.None? {
        newest := Some(n);
        recency := [n];
      }
      if newest == Some(n) {
        RemoveAbsent(recency[1..], n);
        assert recency == [n] + recency[1..];
        return;
      }
      other := other[newest.value := now] - {n};
      recency := MoveToFront(recency, n);
      newest := Some(n);
      DisplacedOrder(old(recency), old(other), other, n, now);
    }

    /** Removes `n`; when it was the newest entry the second newest takes its place. */
    method Delete(n: Entry)
      requires Valid()
      modifies this
      ensures Valid()
      ensures recency == Remove(old(recency), n)
      ensures forall now: nat :: old(Before(now)) ==> Before(now)
    {
      if newest.None? {
        return;
      }
      ghost var rest := recency[1..];
      assert recency == [recency[0]] + rest;
      if newest != Some(n) {
        other := map e | e in other && e != n :: other[e];
        recency := Remove(recency, n);
        assert recency[1..] == Remove(rest, n);
        DescendingRemove(rest, old(other), n);
        DescendingElsewhere(recency[1..], old(other), other);
        return;
      }
      RemoveAbsent(rest, n);
      recency := rest;
      if other == map[] {
        assert forall x :: x in rest ==> x in other;
        assert rest == [];
        newest := None;
        return;
      }
      var i := Latest(other);
      assert i == rest[0];
      newest := Some(i);
      other := map e | e in other && e != i :: other[e];
      DescendingElsewhere(rest[1..], old(other), other);
    }

    method Clear()
      modifies this
      ensures Valid() && recency == [] && other == map[]
    {
      newest, other, recency := None, map[], [];
    }

    /** The newest entry is the head of the recency list. */
    function Newest(): (r: Option<Entry>)
      requires Valid()
      reads this
      ensures r == if recency == [] then None else Some(recency[0])
    {
      newest
    }

    method Count() returns (n: nat)
      requires Valid()
      ensures n == |recency|
      ensures recency != [] ==> n == 1 + |other|
    {
      if newest.None? {
        return 0;
      }
      NoDupCount(recency[1..], other.Keys);
      n := 1 + |other|;
    }

    /** All entries, the newest first and the others in any order. */
    method All() returns (out: seq<Entry>)
      requires Valid()
      ensures NoDup(out) && |out| == |recency|
      ensures forall x :: x in out <==> x in recency
      ensures recency != [] ==> out[0] == recency[0]
    {
      if newest.None? {
        return [];
      }
      out := [newest.value];
      var keys := other.Keys;
      while keys != {}
        invariant keys <= other.Keys
        invariant |out| > 0 && out[0] == newest.value && NoDup(out)
        invariant forall x :: x in out <==> x == newest.value || (x in other && x !in keys)
        decreases keys
      {
        var k :| k in keys;
        keys := keys - {k};
        NoDupSnoc(out, k);
        out := out + [k];
      }
      NoDupCount(out, ToSet(recency));
      NoDupCount(recency, ToSet(recency));
    }

    /** The entries oldest first, by sorting on displacement time. */
    method SortParents(now: nat) returns (sorted: seq<Entry>)
      requires Valid() && Before(now)
      ensures sorted == Reverse(recency)
    {
      if newest.None? {
        return [];
      }
      var n := Count();
      var parents, times := Fill(n, newest.value, other, now);
      ghost var stamped := other[newest.value := now];
      Sort(parents, times, stamped);
      sorted := parents[..];
      NoDupMultiset(recency[1..]);
      assert recency == [recency[0]] + recency[1..];
      assert ToSet(recency[1..]) == other.Keys;
      DescendingElsewhere(recency[1..], other, stamped);
      SortedIsReverse(sorted, recency, stamped);
    }
  }

  /**
    The library sort, through the swaps of the sortable pair of slices: it leaves
    a permutation in ascending order of time.
   */
  method Sort(parents: array<Entry>, times: array<nat>, ghost stamped: map<Entry, nat>)
    requires parents.Length == times.Length
    requires forall j :: 0 <= j < parents.Length ==> parents[j] in stamped && times[j] == stamped[parents[j]]
    modifies parents, times
    ensures multiset(parents[..]) == old(multiset(parents[..]))
    ensures forall j :: 0 <= j < parents.Length ==> parents[j] in stamped
    ensures forall j, k :: 0 <= j < k < parents.Length ==> stamped[parents[j]] <= stamped[parents[k]]
  {
    var i := 0;
    while i < parents.Length
      invariant 0 <= i <= parents.Length
      invariant multiset(parents[..]) == old(multiset(parents[..]))
      invariant forall j :: 0 <= j < parents.Length ==> parents[j] in stamped && times[j] == stamped[parents[j]]
      invariant forall j, k :: 0 <= j < k < parents.Length && j < i ==> times[j] <= times[k]
    {
      var least := LeastFrom(times, i);
      Swap(parents, i, least);
      Swap(times, i, least);
      i := i + 1;
    }
  }

  /** `l` lists `newest` and the entries of `done`, once each. */
  ghost predicate Lists(l: seq<Entry>, newest: Entry, done: set<Entry>) {
    multiset(l) == multiset{newest} + multiset(done)
  }

  lemma ListsMore(l: seq<Entry>, newest: Entry, done: set<Entry>, e: Entry)
    requires Lists(l, newest, done) && e !in done
    ensures Lists(l + [e], newest, done + {e})
  {
  }

  lemma ListsFirst(newest: Entry)
    ensures Lists([newest], newest, {})
  {
  }

  /** The two parallel slices: the newest entry stamped `now`, then the others in any order. */
  method Fill(n: nat, newest: Entry, other: map<Entry, nat>, now: nat)
    returns (parents: array<Entry>, times: array<nat>)
    requires n == 1 + |other| && newest !in other
    ensures fresh(parents) && fresh(times)
    ensures parents.Length == times.Length == n
    ensures Lists(parents[..], newest, other.Keys)
    ensures var stamped := other[newest := now];
            forall j :: 0 <= j < n ==> parents[j] in stamped && times[j] == stamped[parents[j]]
  {
    hide Lists, Stamped;
    ghost var stamped := other[newest := now];
    parents := new Entry[n](_ => newest);
    times := new nat[n](_ => now);
    var i := 1;
    var keys := other.Keys;
    ghost var listed, stamps := [newest], [now];
    ListsFirst(newest);
    StampedFirst(newest, now, stamped);
    assert other.Keys - keys == {};
    while keys != {}
      invariant keys <= other.Keys && i + |keys| == n && |listed| == |stamps| == i
      invariant forall j :: 0 <= j < i ==> parents[j] == listed[j]
      invariant forall j :: 0 <= j < i ==> times[j] == stamps[j]
      invariant Lists(listed, newest, other.Keys - keys) && Stamped(listed, stamps, stamped)
      decreases |keys|
    {
      var e :| e in keys;
      Taken(other.Keys, keys, e);
      ListsMore(listed, newest, other.Keys - keys, e);
      StampedMore(listed, stamps, stamped, e);
      parents[i], times[i] := e, other[e];
      listed, stamps, i, keys := listed + [e], stamps + [other[e]], i + 1, keys - {e};
    }
    assert parents[..] == listed && other.Keys - keys == other.Keys;
    StampedMeans(listed, stamps, stamped);
  }

  /** Each listed entry has its own time beside it. */
  ghost predicate Stamped(l: seq<Entry>, times: seq<nat>, stamped: map<Entry, nat>) {
    |l| == |times| && forall j :: 0 <= j < |l| ==> l[j] in stamped && times[j] == stamped[l[j]]
  }

  lemma StampedFirst(e: Entry, now: nat, stamped: map<Entry, nat>)
    requires e in stamped && stamped[e] == now
    ensures Stamped([e], [now], stamped)
  {
  }

  lemma StampedMore(l: seq<Entry>, times: seq<nat>, stamped: map<Entry, nat>, e: Entry)
    requires Stamped(l, times, stamped) && e in stamped
    ensures Stamped(l + [e], times + [stamped[e]], stamped)
  {
  }

  lemma StampedMeans(l: seq<Entry>, times: seq<nat>, stamped: map<Entry, nat>)
    requires Stamped(l, times, stamped)
    ensures |l| == |times| && forall j :: 0 <= j < |l| ==> l[j] in stamped && times[j] == stamped[l[j]]
  {
  }

  lemma Taken(all: set<Entry>, keys: set<Entry>, e: Entry)
    requires keys <= all && e in keys
    ensures all - (keys - {e}) == (all - keys) + {e} && |keys - {e}| == |keys| - 1
  {
  }

  method LeastFrom(times: array<nat>, i: nat) returns (least: nat)
    requires i < times.Length
    ensures i <= least < times.Length
    ensures forall j :: i <= j < times.Length ==> times[least] <= times[j]
  {
    least := i;
    for m := i + 1 to times.Length
      invariant i <= least < times.Length
      invariant forall j :: i <= j < m ==> times[least] <= times[j]
    {
      if times[m] < times[least] {
        least := m;
      }
    }
  }

  /** Where the transposition of `i` and `j` takes `m`. */
  function Transposed(m: nat, i: nat, j: nat): nat {
    if m == i then j else if m == j then i else m
  }

  method Swap<T>(a: array<T>, i: nat, j: nat)
    requires i < a.Length && j < a.Length
    modifies a
    ensures forall m :: 0 <= m < a.Length ==> a[m] == old(a[Transposed(m, i, j)])
    ensures multiset(a[..]) == multiset(old(a[..]))
  {
    a[i], a[j] := a[j], a[i];
  }

  lemma {:induction false} SortedIsReverse(sorted: seq<Entry>, l: seq<Entry>, t: map<Entry, nat>)
    requires multiset(sorted) == multiset(l)
    requires Descending(l, t)
    requires forall j :: 0 <= j < |sorted| ==> sorted[j] in t
    requires forall j, k :: 0 <= j < k < |sorted| ==> t[sorted[j]] <= t[sorted[k]]
    ensures sorted == Reverse(l)
  {
    assert |sorted| == |multiset(sorted)| == |multiset(l)| == |l|;
    if l != [] {
      var last := |sorted| - 1;
      assert sorted[last] in multiset(l);
      assert l[0] in multiset(sorted);
      assert sorted == sorted[..last] + [sorted[last]];
      assert l == [l[0]] + l[1..];
      assert sorted[last] == l[0];
      assert multiset(sorted) == multiset(sorted[..last]) + multiset{l[0]};
      assert multiset(l) == multiset(l[1..]) + multiset{l[0]};
      assert multiset(sorted[..last]) == multiset(sorted) - multiset{l[0]};
      assert multiset(l[1..]) == multiset(l) - multiset{l[0]};
      SortedIsReverse(sorted[..last], l[1..], t);
    }
  }

  // ----- sets and lists -----

  ghost function ToSet(l: seq<Entry>): set<Entry> {
    set x | x in l
  }

  lemma {:induction false} NoDupMultiset(l: seq<Entry>)
    requires NoDup(l)
    ensures multiset(l) == multiset(ToSet(l))
  {
    if l != [] {
      NoDupMultiset(l[1..]);
      assert l == [l[0]] + l[1..];
      assert ToSet(l) == ToSet(l[1..]) + {l[0]};
    }
  }

  lemma NoDupCount(l: seq<Entry>, s: set<Entry>)
    requires NoDup(l)
    requires forall x :: x in s <==> x in l
    ensures |s| == |l|
  {
    NoDupMultiset(l);
    assert s == ToSet(l);
    assert |multiset(l)| == |l|;
  }

  lemma {:induction false} NoDupSnoc(l: seq<Entry>, e: Entry)
    requires NoDup(l) && e !in l
    ensures NoDup(l + [e])
  {
    if l != [] {
      NoDupSnoc(l[1..], e);
      assert (l + [e])[1..] == l[1..] + [e];
    }
  }
}
