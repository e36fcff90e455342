/**
  What the 32-bit width of the revision costs: the check that follows a snapshot
  passes exactly when the number of modifications since is a multiple of 2^32.
 */
module ProtocolWrap {
  import opened Types
  import opened Recency
  import opened InodeGraph
  import opened LockOrder
  import opened Protocol
  import opened ProtocolSafety

  /** The 32-bit revisions agree. */
  predicate Multiple(rev: nat, now: nat) {
    (now - rev) % WORD == 0
  }

  lemma SameWord(rev: nat, now: nat)
    requires rev <= now
    ensures Wrap(now) == Wrap(rev) <==> Multiple(rev, now)
  {
  }

  /** rmChild commits, whatever the slot holds by then, exactly at multiples of 2^32. */
  lemma RmCheckExact(s: State, t: Tid, ch: Choice, s': State)
    requires Inv(s) && Next(s, t, ch, s') && s'.crash.None?
    requires s.threads[t].pc.RmCommit? && s.threads[t].want == []
    ensures var RmCommit(p, name, rev, c) := s.threads[t].pc;
            && p in s.g.nodes && c in s.g.nodes && s.g.rev.Keys == s.g.nodes.Keys && rev <= s.g.rev[p]
            && if Multiple(rev, s.g.rev[p]) then s'.g == InodeGraph.Unlink(s.g, p, name, c)
               else s'.g == s.g && s'.threads[t].pc == Unlock(RmSnap(p, name))
  {
    hide AddSection, FreshSection, RefSection, CutSection, MvSection, Sorted;
    var th := s.threads[t];
    assert ThreadOk(s.g, s.dropped, th);
    var RmCommit(p, name, rev, c) := th.pc;
    assert p in Group(th.pc) && c in Group(th.pc);
    SameWord(rev, s.g.rev[p]);
  }

  /** mvChild commits exactly when both directories' differences are multiples. */
  lemma MvCheckExact(s: State, t: Tid, ch: Choice, s': State)
    requires Inv(s) && Next(s, t, ch, s') && s'.crash.None?
    requires s.threads[t].pc.MvCommit? && s.threads[t].want == []
    ensures var MvCommit(p, name, np, nname, overwrite, rev, nRev, child, dest) := s.threads[t].pc;
            && p in s.g.nodes && np in s.g.nodes && s.g.rev.Keys == s.g.nodes.Keys
            && (child.Some? ==> child.value in s.g.nodes) && (dest.Some? ==> dest.value in s.g.nodes)
            && rev <= s.g.rev[p] && nRev <= s.g.rev[np]
            && if Multiple(rev, s.g.rev[p]) && Multiple(nRev, s.g.rev[np]) then
                 s'.g == MvStep(s.g, p, name, np, nname, child, dest)
               else s'.g == s.g && s'.threads[t].pc == Unlock(MvSnap(p, name, np, nname, overwrite))
  {
    hide AddSection, FreshSection, RefSection, CutSection, RmSection, Sorted, MvStep;
    var th := s.threads[t];
    assert ThreadOk(s.g, s.dropped, th);
    var MvCommit(p, name, np, nname, overwrite, rev, nRev, child, dest) := th.pc;
    assert p in Group(th.pc) && np in Group(th.pc);
    assert child.Some? ==> child.value in Group(th.pc);
    assert dest.Some? ==> dest.value in Group(th.pc);
    SameWord(rev, s.g.rev[p]);
    SameWord(nRev, s.g.rev[np]);
  }

  /** removeRef cuts the inode out of the parents it read exactly at multiples. */
  lemma RefCheckExact(s: State, t: Tid, ch: Choice, s': State)
    requires Inv(s) && Next(s, t, ch, s')
    requires s.threads[t].pc.RefCut? && s.threads[t].want == []
    ensures var RefCut(n, rev, pes) := s.threads[t].pc;
            && n in s.g.nodes && s.g.rev.Keys == s.g.nodes.Keys && rev <= s.g.rev[n]
            && (forall e :: e in pes ==> e.node in s.g.nodes)
            && if Multiple(rev, s.g.rev[n]) then s'.g == CutStep(s.g, n, pes)
               else s'.g == s.g && s'.threads[t].pc == Unlock(RefSnap(n))
  {
    hide AddSection, FreshSection, RefSection, RmSection, MvSection, Sorted, CutStep;
    var th := s.threads[t];
    assert ThreadOk(s.g, s.dropped, th);
    var RefCut(n, rev, pes) := th.pc;
    assert n in Group(th.pc) && s.g.nodes[n].lookups == 0;
    forall e | e in pes ensures e.node in s.g.nodes {
      assert e.node in EntryNodes(pes);
    }
    SameWord(rev, s.g.rev[n]);
  }

  // ----- runs of steps -----

  ghost predicate Segment(ss: seq<State>, ts: seq<(Tid, Choice)>, s: State, s': State) {
    && |ss| == |ts| + 1 && ss[0] == s && ss[|ts|] == s'
    && (forall i :: 0 <= i < |ts| ==> Next(ss[i], ts[i].0, ts[i].1, ss[i + 1]))
  }

  ghost predicate Leads(s: State, s': State) {
    exists ss, ts :: Segment(ss, ts, s, s')
  }

  lemma LeadsNowhere(s: State)
    ensures Leads(s, s)
  {
    assert Segment([s], [], s, s);
  }

  lemma LeadsOn(s: State, m: State, t: Tid, ch: Choice, s': State)
    requires Leads(s, m) && Next(m, t, ch, s')
    ensures Leads(s, s')
  {
    hide Next;
    var ss: seq<State>, ts: seq<(Tid, Choice)> :| Segment(ss, ts, s, m);
    assert Segment(ss + [s'], ts + [(t, ch)], s, s');
  }

  lemma LeadsTrans(s: State, m: State, s': State)
    requires Leads(s, m) && Leads(m, s')
    ensures Leads(s, s')
  {
    hide Next;
    var ss: seq<State>, ts: seq<(Tid, Choice)> :| Segment(ss, ts, s, m);
    var us: seq<State>, vs: seq<(Tid, Choice)> :| Segment(us, vs, m, s');
    var ws, xs := ss + us[1..], ts + vs;
    forall i | 0 <= i < |xs| ensures Next(ws[i], xs[i].0, xs[i].1, ws[i + 1]) {
      if i >= |ts| {
        assert ws[i] == us[i - |ts|] && ws[i + 1] == us[i - |ts| + 1];
      }
    }
    assert Segment(ws, xs, s, s');
  }

  function With(s: State, t: Tid, th: Thread): State {
    s.(threads := s.threads[t := th])
  }

  /** Nobody but `t` holds a lock, and `t` stands where it can go on. */
  ghost predicate Alone(s: State, t: Tid) {
    && WellFormed(s.g) && s.crash.None? && t in s.threads
    && (forall u :: u in s.threads && u != t ==> s.threads[u].held == {} && !s.threads[u].mu)
  }

  lemma {:induction false} AcquireAll(s: State, t: Tid, th: Thread)
    requires Alone(s, t) && PcKnown(s.g, th.pc) && Ascending(th.want) && th.held !! SetOf(th.want)
    ensures Leads(With(s, t, th), With(s, t, th.(want := [], held := th.held + SetOf(th.want))))
    decreases |th.want|
  {
    hide WellFormed, PcKnown, Section;
    var from := With(s, t, th);
    if th.want == [] {
      LeadsNowhere(from);
      assert th.(want := [], held := th.held + SetOf(th.want)) == th;
    } else {
      var l := th.want[0];
      var next := th.(held := th.held + {l}, want := th.want[1..]);
      assert l in SetOf(th.want);
      assert FreeNode(from, l);
      LeadsNowhere(from);
      LeadsOn(from, from, t, Go, With(s, t, next)) by {
        assert Step(from, t, Go) == Only(from, next);
      }
      assert SetOf(th.want) == {l} + SetOf(next.want);
      assert l !in SetOf(next.want);
      AcquireAll(s, t, next);
      assert next.(want := [], held := next.held + SetOf(next.want)) ==
             th.(want := [], held := th.held + SetOf(th.want));
      LeadsTrans(from, With(s, t, next), With(s, t, th.(want := [], held := th.held + SetOf(th.want))));
    }
  }

  /** Releasing everything held, and on to the next counter. */
  lemma {:induction false} ReleaseAll(s: State, t: Tid, th: Thread)
    requires Alone(s, t) && th.pc.Unlock? && PcKnown(s.g, th.pc) && th.want == [] && !th.mu
    ensures Leads(With(s, t, th), With(s, t, GoTo(th.(held := {}), th.pc.next)))
    decreases |th.held|
  {
    hide WellFormed, PcKnown, GoTo;
    var from := With(s, t, th);
    LeadsNowhere(from);
    if th.held == {} {
      assert th.(held := {}) == th;
      LeadsOn(from, from, t, Go, With(s, t, GoTo(th, th.pc.next)));
    } else {
      var l :| l in th.held;
      var next := th.(held := th.held - {l});
      LeadsOn(from, from, t, Release(l), With(s, t, next));
      ReleaseAll(s, t, next);
      assert next.(held := {}) == th.(held := {});
      LeadsTrans(from, With(s, t, next), With(s, t, GoTo(th.(held := {}), th.pc.next)));
    }
  }

  // ----- whole calls -----

  const IDLE: Thread := Thread(Idle, [], {}, false, None, [])

  /** From the start of a section's locking to the section: all of its inodes are locked. */
  lemma Locked(s: State, t: Tid, pc: Pc)
    requires Alone(s, t) && PcKnown(s.g, pc)
    ensures Leads(With(s, t, GoTo(IDLE, pc)), With(s, t, IDLE.(pc := pc, held := Group(pc))))
  {
    hide WellFormed, PcKnown, Group;
    var th := GoTo(IDLE, pc);
    AcquireAll(s, t, th);
    assert SetOf(th.want) == Group(pc);
    assert th.(want := [], held := th.held + SetOf(th.want)) == IDLE.(pc := pc, held := Group(pc));
  }

  /** An idle thread's rmChild up to the locking for its commit. */
  lemma RmTakesSnapshot(s: State, t: Tid, p: Addr, name: string, c: Addr)
    requires Alone(s, t) && s.threads[t] == IDLE && HasKid(s.g, p, name, c) && c in s.g.nodes
    ensures p in s.g.rev && Leads(s, With(s, t, GoTo(IDLE, RmCommit(p, name, s.g.rev[p], c))))
  {
    hide GoTo;
    var snap, commit := RmSnap(p, name), RmCommit(p, name, s.g.rev[p], c);
    assert With(s, t, IDLE) == s;
    LeadsNowhere(s);
    LeadsOn(s, s, t, Begin(RmChild(p, name)), With(s, t, GoTo(IDLE, snap)));
    Locked(s, t, snap);
    LeadsTrans(s, With(s, t, GoTo(IDLE, snap)), With(s, t, IDLE.(pc := snap, held := Group(snap))));
    var leaving := IDLE.(pc := Unlock(commit), held := Group(snap));
    LeadsOn(s, With(s, t, IDLE.(pc := snap, held := Group(snap))), t, Go, With(s, t, leaving));
    ReleaseAll(s, t, leaving);
    GoToSame(leaving, commit);
    LeadsTrans(s, With(s, t, leaving), With(s, t, GoTo(IDLE, commit)));
  }

  lemma GoToSame(th: Thread, pc: Pc)
    requires th.(held := {}, pc := Idle) == IDLE
    ensures GoTo(th.(held := {}), pc) == GoTo(IDLE, pc)
  {
  }

  lemma GoToIdle(th: Thread)
    requires th.(held := {}, pc := Idle) == IDLE
    ensures GoTo(th.(held := {}), Idle) == IDLE
  {
  }

  /** A whole call of mvChild within one directory that stays live, with nobody in the way. */
  lemma MvRuns(s: State, t: Tid, p: Addr, name: string, nname: string, c: Addr, d: Addr)
    requires Alone(s, t) && s.threads[t] == IDLE
    requires HasKid(s.g, p, name, c) && HasKid(s.g, p, nname, d) && c in s.g.nodes && d in s.g.nodes
    requires s.g.nodes[p].lookups > 0 && s.g.nodes[p].dir
    ensures s.g.rev.Keys == s.g.nodes.Keys
    ensures Leads(s, s.(g := MvStep(s.g, p, name, p, nname, Some(c), Some(d))))
  {
    hide GoTo, MvStep;
    var commit := MvCommit(p, name, p, nname, true, s.g.rev[p], s.g.rev[p], Some(c), Some(d));
    MvSnaps(s, t, p, name, nname, c, d);
    Locked(s, t, commit);
    var ready := With(s, t, IDLE.(pc := commit, held := Group(commit)));
    LeadsTrans(s, With(s, t, GoTo(IDLE, commit)), ready);
    var g := MvStep(s.g, p, name, p, nname, Some(c), Some(d));
    MvStaysLive(s.g, p, name, nname, c, d);
    var done := IDLE.(pc := Unlock(Idle), held := Group(commit));
    var after := s.(g := g);
    MvCommits(s, t, p, name, nname, c, d);
    LeadsOn(s, ready, t, Go, With(after, t, done));
    ReleaseAll(after, t, done);
    GoToIdle(done);
    assert With(after, t, IDLE) == after;
    LeadsTrans(s, With(after, t, done), after);
  }

  lemma MvStaysLive(g: Graph, p: Addr, name: string, nname: string, c: Addr, d: Addr)
    requires WellFormed(g) && HasKid(g, p, name, c) && HasKid(g, p, nname, d) && c in g.nodes && d in g.nodes
    requires g.nodes[p].lookups > 0 && g.nodes[p].dir
    ensures var h := MvStep(g, p, name, p, nname, Some(c), Some(d)); WellFormed(h) && p in h.nodes && Live(h, p)
  {
    hide MvStep, NoDup;
    var h := MvStep(g, p, name, p, nname, Some(c), Some(d));
    MvEffect(g, h, p, name, p, nname);
    assert HasKid(h, p, nname, c);
  }

  lemma MvSnaps(s: State, t: Tid, p: Addr, name: string, nname: string, c: Addr, d: Addr)
    requires Alone(s, t) && s.threads[t] == IDLE
    requires HasKid(s.g, p, name, c) && HasKid(s.g, p, nname, d) && c in s.g.nodes && d in s.g.nodes
    ensures var commit := MvCommit(p, name, p, nname, true, s.g.rev[p], s.g.rev[p], Some(c), Some(d));
            PcKnown(s.g, commit) && Leads(s, With(s, t, GoTo(IDLE, commit)))
  {
    hide GoTo;
    var snap := MvSnap(p, name, p, nname, true);
    var commit := MvCommit(p, name, p, nname, true, s.g.rev[p], s.g.rev[p], Some(c), Some(d));
    assert With(s, t, IDLE) == s;
    LeadsNowhere(s);
    LeadsOn(s, s, t, Begin(MvChild(p, name, p, nname, true)), With(s, t, GoTo(IDLE, snap)));
    Locked(s, t, snap);
    LeadsTrans(s, With(s, t, GoTo(IDLE, snap)), With(s, t, IDLE.(pc := snap, held := Group(snap))));
    var leaving := IDLE.(pc := Unlock(commit), held := Group(snap));
    LeadsOn(s, With(s, t, IDLE.(pc := snap, held := Group(snap))), t, Go, With(s, t, leaving));
    ReleaseAll(s, t, leaving);
    GoToSame(leaving, commit);
    LeadsTrans(s, With(s, t, leaving), With(s, t, GoTo(IDLE, commit)));
  }

  lemma MvCommits(s: State, t: Tid, p: Addr, name: string, nname: string, c: Addr, d: Addr)
    requires Alone(s, t) && HasKid(s.g, p, name, c) && HasKid(s.g, p, nname, d) && c in s.g.nodes && d in s.g.nodes
    requires s.g.nodes[p].lookups > 0 && s.g.nodes[p].dir
    ensures var commit := MvCommit(p, name, p, nname, true, s.g.rev[p], s.g.rev[p], Some(c), Some(d));
            var after := s.(g := MvStep(s.g, p, name, p, nname, Some(c), Some(d)));
            Next(With(s, t, IDLE.(pc := commit, held := Group(commit))), t, Go,
                 With(after, t, IDLE.(pc := Unlock(Idle), held := Group(commit))))
  {
    hide GoTo, MvStep, NoDup;
    MvStaysLive(s.g, p, name, nname, c, d);
    var commit := MvCommit(p, name, p, nname, true, s.g.rev[p], s.g.rev[p], Some(c), Some(d));
    var g := MvStep(s.g, p, name, p, nname, Some(c), Some(d));
    var th := IDLE.(pc := commit, held := Group(commit));
    assert IfDead(g, p) + IfDead(g, p) + th.todo == th.todo;
    var from := With(s, t, th);
    assert Section(from, th, Go) == Some(Effect(Done(th), g, s.dropped, None));
  }

  // ----- a run that reaches the limit -----

  /** Two entries of the root, inodes 1 and 2. */
  ghost function Before(): Graph {
    Graph(map[0 := Node(1, 1, true, map["a" := 1, "b" := 2], []),
              1 := Node(2, 1, false, map[], [Entry("a", 0)]),
              2 := Node(3, 1, false, map[], [Entry("b", 0)])],
          map[1 := 0, 2 := 1, 3 := 2],
          map[0 := 0, 1 := 0, 2 := 0])
  }

  /** "b" was renamed to "a", replacing inode 1, and then `n` times to itself. */
  ghost function Renamed(n: nat): Graph {
    Graph(map[0 := Node(1, 1, true, map["a" := 2], []),
              1 := Node(2, 1, false, map[], []),
              2 := Node(3, 1, false, map[], [Entry("a", 0)])],
          map[1 := 0, 2 := 1, 3 := 2],
          map[0 := 3 + 3 * n, 1 := 1, 2 := 2 + 3 * n])
  }

  /** Thread 1 has read that "a" leads to inode 1, and is about to lock. */
  ghost function Waiting(): Thread {
    GoTo(IDLE, RmCommit(0, "a", 0, 1))
  }

  ghost function TwoThreads(g: Graph, one: Thread): State {
    State(g, map[1 := one, 2 := IDLE], {}, None)
  }

  lemma BeforeNodes()
    ensures var g := Before();
            && g.nodes.Keys == {0, 1, 2} && g.rev.Keys == {0, 1, 2} && g.reg.Keys == {1, 2, 3} && g.rev[0] == 0
            && g.reg[1] == 0 && g.reg[2] == 1 && g.reg[3] == 2
            && g.nodes[0] == Node(1, 1, true, map["a" := 1, "b" := 2], [])
            && g.nodes[1] == Node(2, 1, false, map[], [Entry("a", 0)])
            && g.nodes[2] == Node(3, 1, false, map[], [Entry("b", 0)])
  {
  }

  lemma BeforeEdges()
    ensures forall d, s, c :: HasKid(Before(), d, s, c) <==> d == 0 && ((s == "a" && c == 1) || (s == "b" && c == 2))
    ensures forall d, s, c :: HasEntry(Before(), c, s, d) <==> d == 0 && ((s == "a" && c == 1) || (s == "b" && c == 2))
  {
  }

  lemma BeforeFacts()
    ensures var g := Before();
            && WellFormed(g) && Symmetric(g) && Forward(g) && HasKid(g, 0, "a", 1) && HasKid(g, 0, "b", 2)
            && g.nodes.Keys == {0, 1, 2} && g.rev.Keys == {0, 1, 2} && g.rev[0] == 0 && g.nodes[0].lookups > 0
               && g.nodes[0].dir
  {
    hide Before, HasKid, HasEntry;
    BeforeNodes();
    BeforeEdges();
  }

  lemma RenamedNodes(n: nat)
    ensures var g := Renamed(n);
            && g.nodes.Keys == {0, 1, 2} && g.rev.Keys == {0, 1, 2} && g.reg.Keys == {1, 2, 3} && g.rev[0] == 3 + 3 * n
            && g.reg[1] == 0 && g.reg[2] == 1 && g.reg[3] == 2
            && g.nodes[0] == Node(1, 1, true, map["a" := 2], [])
            && g.nodes[1] == Node(2, 1, false, map[], [])
            && g.nodes[2] == Node(3, 1, false, map[], [Entry("a", 0)])
  {
  }

  lemma RenamedEdges(n: nat)
    ensures forall d, s, c :: HasKid(Renamed(n), d, s, c) <==> d == 0 && s == "a" && c == 2
    ensures forall d, s, c :: HasEntry(Renamed(n), c, s, d) <==> d == 0 && s == "a" && c == 2
  {
  }

  lemma RenamedFacts(n: nat)
    ensures WellFormed(Renamed(n)) && Symmetric(Renamed(n)) && HasKid(Renamed(n), 0, "a", 2)
    ensures Renamed(n).nodes.Keys == {0, 1, 2} && Renamed(n).rev.Keys == {0, 1, 2} && Renamed(n).rev[0] == 3 + 3 * n
    ensures Renamed(n).nodes[0].lookups > 0 && Renamed(n).nodes[0].dir
  {
    hide Renamed, HasKid, HasEntry;
    RenamedNodes(n);
    RenamedEdges(n);
  }

  lemma Single(e: Entry)
    ensures Remove([e], e) == [] && MoveToFront([], e) == [e]
  {
  }

  /** The records after the three edge updates of a rename within `p`. */
  lemma RenameRecords(g: Graph, p: Addr, name: string, nname: string, c: Addr, d: Addr)
    requires g.rev.Keys == g.nodes.Keys && p in g.nodes && c in g.nodes && d in g.nodes && p != c && p != d
    ensures var h := MvStep(g, p, name, p, nname, Some(c), Some(d));
            && h.reg == g.reg && h.nodes.Keys == h.rev.Keys == g.nodes.Keys
            && (forall n :: n in g.nodes ==>
                  && h.nodes[n].ino == g.nodes[n].ino && h.nodes[n].dir == g.nodes[n].dir
                  && h.nodes[n].lookups == g.nodes[n].lookups
                  && h.nodes[n].kids == (if n == p then (g.nodes[p].kids - {name} - {nname})[nname := c]
                                         else g.nodes[n].kids)
                  && h.rev[n] == g.rev[n] + (if n == p then 3 else 0) + (if n == c then 2 else 0)
                               + (if n == d then 1 else 0))
            && (forall n :: n in g.nodes && n != c && n != d ==> h.nodes[n].parents == g.nodes[n].parents)
            && (c != d ==> h.nodes[d].parents == Remove(g.nodes[d].parents, Entry(nname, p)))
            && (c != d ==> h.nodes[c].parents == MoveToFront(Remove(g.nodes[c].parents, Entry(name, p)),
                                                             Entry(nname, p)))
            && var e := Entry(nname, p);
               (c == d ==> h.nodes[c].parents == MoveToFront(Remove(Remove(g.nodes[c].parents, Entry(name, p)), e), e))
  {
    hide InodeGraph.Unlink, Link, Remove, MoveToFront;
    var g1 := InodeGraph.Unlink(g, p, name, c);
    UnlinkRecords(g, p, name, c);
    var g2 := InodeGraph.Unlink(g1, p, nname, d);
    UnlinkRecords(g1, p, nname, d);
    LinkRecords(g2, p, nname, c);
  }

  /** A graph with these records and revisions is `Renamed(n)`. */
  lemma IsRenamed(h: Graph, n: nat)
    requires h.nodes.Keys == h.rev.Keys == {0, 1, 2} && h.reg == map[1 := 0, 2 := 1, 3 := 2]
    requires h.nodes[0] == Node(1, 1, true, map["a" := 2], []) && h.nodes[1] == Node(2, 1, false, map[], [])
    requires h.nodes[2] == Node(3, 1, false, map[], [Entry("a", 0)])
    requires h.rev[0] == 3 + 3 * n && h.rev[1] == 1 && h.rev[2] == 2 + 3 * n
    ensures h == Renamed(n)
  {
  }

  /** Moving "b" over "a" modifies the directory three times. */
  lemma FirstRename()
    ensures Before().nodes.Keys == Before().rev.Keys == {0, 1, 2}
    ensures MvStep(Before(), 0, "b", 0, "a", Some(2), Some(1)) == Renamed(0)
  {
    hide MvStep, Remove, MoveToFront, Renamed;
    RenameRecords(Before(), 0, "b", "a", 2, 1);
    Single(Entry("a", 0));
    Single(Entry("b", 0));
    assert (map["a" := 1, "b" := 2] - {"b"} - {"a"})["a" := 2] == map["a" := 2];
    IsRenamed(MvStep(Before(), 0, "b", 0, "a", Some(2), Some(1)), 0);
  }

  /** So does moving "a" to itself, which changes nothing else. */
  lemma NextRename(n: nat)
    ensures Renamed(n).nodes.Keys == Renamed(n).rev.Keys == {0, 1, 2}
    ensures MvStep(Renamed(n), 0, "a", 0, "a", Some(2), Some(2)) == Renamed(n + 1)
  {
    hide MvStep, Remove, MoveToFront;
    RenamedNodes(n);
    RenameRecords(Renamed(n), 0, "a", "a", 2, 2);
    Single(Entry("a", 0));
    RemoveAbsent([], Entry("a", 0));
    assert (map["a" := 2] - {"a"} - {"a"})["a" := 2] == map["a" := 2];
    IsRenamed(MvStep(Renamed(n), 0, "a", 0, "a", Some(2), Some(2)), n + 1);
  }

  lemma {:induction false} Renames(n: nat)
    ensures Leads(TwoThreads(Before(), Waiting()), TwoThreads(Renamed(n), Waiting()))
  {
    hide Before, Renamed, MvStep, GoTo, WellFormed, Symmetric, HasKid, IDLE;
    var s := TwoThreads(Before(), Waiting());
    assert Waiting().held == {} && !Waiting().mu && IDLE.held == {} && !IDLE.mu by { Free(); }
    if n == 0 {
      BeforeFacts();
      FirstRename();
      MvRuns(s, 2, 0, "b", "a", 2, 1);
      assert s.(g := Renamed(0)) == TwoThreads(Renamed(0), Waiting());
    } else {
      Renames(n - 1);
      var m := TwoThreads(Renamed(n - 1), Waiting());
      RenamedFacts(n - 1);
      NextRename(n - 1);
      MvRuns(m, 2, 0, "a", "a", 2, 2);
      assert m.(g := Renamed(n)) == TwoThreads(Renamed(n), Waiting());
      LeadsTrans(s, m, TwoThreads(Renamed(n), Waiting()));
    }
  }

  lemma Free()
    ensures Waiting().held == {} && !Waiting().mu && IDLE.held == {} && !IDLE.mu
  {
  }

  ghost function Ready(): Thread {
    IDLE.(pc := RmCommit(0, "a", 0, 1), held := {0, 1})
  }

  lemma TakesSnapshot()
    ensures Init(TwoThreads(Before(), IDLE)) && Leads(TwoThreads(Before(), IDLE), TwoThreads(Before(), Waiting()))
  {
    hide Before, GoTo, WellFormed, Symmetric, Forward, HasKid, Leads;
    BeforeFacts();
    var from := TwoThreads(Before(), IDLE);
    RmTakesSnapshot(from, 1, 0, "a", 1);
    assert With(from, 1, Waiting()) == TwoThreads(Before(), Waiting());
  }

  lemma LocksLate()
    ensures Leads(TwoThreads(Renamed(WORD - 1), Waiting()), TwoThreads(Renamed(WORD - 1), Ready()))
  {
    hide Renamed, GoTo, WellFormed, Symmetric, HasKid, Leads;
    RenamedFacts(WORD - 1);
    Free();
    var late := TwoThreads(Renamed(WORD - 1), Waiting());
    assert Group(Ready().pc) == {0, 1};
    Locked(late, 1, Ready().pc);
    assert With(late, 1, Waiting()) == late;
    assert With(late, 1, Ready()) == TwoThreads(Renamed(WORD - 1), Ready());
  }

  /** Thread 1 takes its snapshot; thread 2 renames 2^32 times; thread 1 locks for its commit. */
  lemma ReachesStale()
    ensures Init(TwoThreads(Before(), IDLE))
    ensures Leads(TwoThreads(Before(), IDLE), TwoThreads(Renamed(WORD - 1), Ready()))
  {
    hide Leads, Init, Before, Renamed, Waiting, Ready;
    TakesSnapshot();
    Renames(WORD - 1);
    LocksLate();
    LeadsTrans(TwoThreads(Before(), IDLE), TwoThreads(Before(), Waiting()), TwoThreads(Renamed(WORD - 1), Waiting()));
    LeadsTrans(TwoThreads(Before(), IDLE), TwoThreads(Renamed(WORD - 1), Waiting()),
               TwoThreads(Renamed(WORD - 1), Ready()));
  }

  lemma StaleCommits()
    ensures Renamed(WORD - 1).nodes.Keys == Renamed(WORD - 1).rev.Keys == {0, 1, 2}
    ensures var s := TwoThreads(Renamed(WORD - 1), Ready());
            var h := InodeGraph.Unlink(s.g, 0, "a", 1);
            && Next(s, 1, Go, State(h, s.threads[1 := Done(s.threads[1])], {}, None))
            && !HasKid(h, 0, "a", 2) && HasEntry(h, 2, "a", 0)
  {
    hide WellFormed, Symmetric, Renamed, Sorted;
    RenamedFacts(WORD - 1);
    RenamedNodes(WORD - 1);
    var s := TwoThreads(Renamed(WORD - 1), Ready());
    var th := s.threads[1];
    var h := InodeGraph.Unlink(s.g, 0, "a", 1);
    assert Group(th.pc) == {0, 1};
    assert Wrap(3 * WORD) == Wrap(0);
    assert IfDead(h, 0) + th.todo == th.todo;
    assert Section(s, th, Go) == Some(Effect(Done(th), h, {}, None));
  }

  /**
    A run of two threads in which the check accepts a snapshot that is no longer true:
    rmChild takes out a child it never read, and that child keeps its parent entry.
   */
  lemma StaleRun() returns (ss: seq<State>, ts: seq<(Tid, Choice)>)
    ensures Run(ss, ts) && ts != [] && |ss| == |ts| + 1
    ensures var s, s' := ss[|ts| - 1], ss[|ts|];
            && ts[|ts| - 1].0 == 1 && 1 in s.threads && s.threads[1].pc == RmCommit(0, "a", 0, 1)
            && Symmetric(ss[0].g) && Symmetric(s.g)
            && HasKid(s.g, 0, "a", 2) && !HasKid(s'.g, 0, "a", 2) && HasEntry(s'.g, 2, "a", 0) && !Symmetric(s'.g)
  {
    hide Next, Init, Renamed, Before, HasKid, HasEntry, Leads, Run;
    ReachesStale();
    BeforeFacts();
    RenamedFacts(WORD - 1);
    StaleCommits();
    var from, s := TwoThreads(Before(), IDLE), TwoThreads(Renamed(WORD - 1), Ready());
    var h := InodeGraph.Unlink(s.g, 0, "a", 1);
    ss, ts := OneMore(from, s, 1, Go, State(h, s.threads[1 := Done(s.threads[1])], {}, None));
  }

  lemma OneMore(from: State, s: State, t: Tid, ch: Choice, s': State) returns (ss: seq<State>, ts: seq<(Tid, Choice)>)
    requires Init(from) && Leads(from, s) && Next(s, t, ch, s')
    ensures Run(ss, ts) && ts != [] && |ss| == |ts| + 1 && ss[0] == from
    ensures ts[|ts| - 1] == (t, ch) && ss[|ts| - 1] == s && ss[|ts|] == s'
  {
    hide Next, Init;
    var us: seq<State>, vs: seq<(Tid, Choice)> :| Segment(us, vs, from, s);
    ss, ts := us + [s'], vs + [(t, ch)];
    forall i | 0 <= i < |ts| ensures Next(ss[i], ts[i].0, ts[i].1, ss[i + 1]) {
      if i < |vs| {
        assert Next(us[i], vs[i].0, vs[i].1, us[i + 1]);
      }
    }
  }
}
