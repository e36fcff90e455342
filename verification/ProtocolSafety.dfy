/**
  What holds in every reachable state of the interleaved operations, however often the
  32-bit revisions wrap: locks exclude each other, a snapshot whose revision has not
  moved is still true, and a dropped inode stays dropped.
 */
module ProtocolSafety {
  import opened Types
  import opened Recency
  import opened InodeGraph
  import opened Cascade
  import opened Coherence
  import opened LockOrder
  import opened Protocol

  // ----- the invariant -----

  ghost function SetOf(l: seq<Addr>): set<Addr> {
    set x | x in l
  }

  /** The locks a thread holds and still wants, by counter. */
  ghost predicate LockShape(th: Thread) {
    match th.pc
    case Unlock(_) => th.want == []
    case Idle => th.held == {} && th.want == [] && !th.mu
    case EnterDir(_) => th.held == {} && th.want == [] && !th.mu && th.entry.None?
    case MuPeek => th.held == {} && th.want == [] && !th.mu
    case AddRead(_, _, _, _, _) => th.mu && th.want == [] && th.held == Group(th.pc)
    case RefDelete(_) => th.mu && th.want == [] && th.held == Group(th.pc)
    case RefDrop(_) => !th.mu && th.want == [] && th.held == Group(th.pc)
    case AddFresh(p, _, _, _, c) =>
      th.mu && ((th.want == [c] && th.held == {p}) || (th.want == [] && th.held == {p, c}))
    case _ =>
      && !th.mu && Ascending(th.want) && th.held !! SetOf(th.want)
      && th.held + SetOf(th.want) == Group(th.pc)
      && forall h, i :: h in th.held && 0 <= i < |th.want| ==> h < th.want[i]
  }

  /** The counter whose section comes next, looking past a release. */
  function Target(pc: Pc): Pc {
    if pc.Unlock? then pc.next else pc
  }

  /** A snapshot whose revision has not moved is still true. */
  ghost predicate SnapOk(g: Graph, pc: Pc) {
    match pc
    case RefCut(n, rev, pes) =>
      && n in g.nodes && n in g.rev && rev <= g.rev[n]
      && (rev == g.rev[n] ==> multiset(pes) == multiset(g.nodes[n].parents))
    case RmCommit(p, name, rev, c) =>
      && p in g.nodes && p in g.rev && rev <= g.rev[p]
      && (rev == g.rev[p] ==> Get(g.nodes[p].kids, name) == Some(c))
    case MvCommit(p, name, np, nname, _, rev, nRev, child, dest) =>
      && p in g.nodes && p in g.rev && rev <= g.rev[p] && np in g.nodes && np in g.rev && nRev <= g.rev[np]
      && (rev == g.rev[p] ==> Get(g.nodes[p].kids, name) == child)
      && (nRev == g.rev[np] ==> Get(g.nodes[np].kids, nname) == dest)
    case _ => true
  }

  /** What removeRef and addChild have established on the way. */
  ghost predicate FactOk(g: Graph, dropped: set<Addr>, pc: Pc) {
    match pc
    case RefDrop(n) => n in g.nodes && !Live(g, n)
    case RefDelete(n) => n in g.nodes && !Live(g, n)
    case RefSnap(n) => n in dropped
    case RefCut(n, _, _) => n in dropped
    case AddFresh(_, _, ino, _, _) => ino !in g.reg
    case _ => true
  }

  ghost predicate ThreadOk(g: Graph, dropped: set<Addr>, th: Thread) {
    && LockShape(th) && PcKnown(g, th.pc)
    && (forall x :: x in th.held ==> x in g.nodes || (th.pc.AddFresh? && x == th.pc.c))
    && (forall x :: x in th.todo ==> x in g.nodes)
    && SnapOk(g, Target(th.pc)) && FactOk(g, dropped, Target(th.pc))
  }

  ghost predicate Exclusive(s: State) {
    && (forall t, u, x :: t in s.threads && u in s.threads && x in s.threads[t].held && x in s.threads[u].held ==>
          t == u)
    && (forall t, u :: t in s.threads && u in s.threads && s.threads[t].mu && s.threads[u].mu ==> t == u)
    && (forall t, u :: t in s.threads && u in s.threads && s.threads[t].entry.Some?
                       && s.threads[t].entry == s.threads[u].entry ==>
          t == u)
  }

  /** A dropped inode has no lookups and is registered under no number. */
  ghost predicate DroppedOk(g: Graph, dropped: set<Addr>) {
    && (forall n :: n in dropped ==> n in g.nodes && g.nodes[n].lookups == 0)
    && (forall i :: i in g.reg ==> g.reg[i] !in dropped)
  }

  ghost predicate Inv(s: State) {
    && WellFormed(s.g) && Exclusive(s) && DroppedOk(s.g, s.dropped)
    && (forall t :: t in s.threads ==> ThreadOk(s.g, s.dropped, s.threads[t]))
  }

  // ----- what one thread's step does to the shared state -----

  ghost predicate Guarantee(s: State, th: Thread, e: Effect) {
    && WellFormed(e.g) && Bumps(s.g, e.g)
    && (forall n :: n in s.g.nodes && n !in th.held ==> n in e.g.nodes && e.g.nodes[n] == s.g.nodes[n])
    && (e.g.reg != s.g.reg || e.g.nodes.Keys != s.g.nodes.Keys ==> th.mu)
    && s.dropped <= e.dropped && DroppedOk(e.g, e.dropped)
  }

  /** Other threads are not disturbed. */
  lemma OtherOk(s: State, th: Thread, e: Effect, u: Thread)
    requires WellFormed(s.g) && Guarantee(s, th, e) && ThreadOk(s.g, s.dropped, u)
    requires th.held !! u.held && !(th.mu && u.mu)
    ensures ThreadOk(e.g, e.dropped, u)
  {
    assert u.pc.AddFresh? ==> u.mu;
    hide LockShape;
    PcKnownStill(s.g, e.g, u.pc);
    SnapStill(s.g, e.g, Target(u.pc));
    FactStill(s, th, e, u);
  }

  lemma PcKnownStill(g: Graph, h: Graph, pc: Pc)
    requires PcKnown(g, pc) && g.nodes.Keys <= h.nodes.Keys
    requires pc.AddFresh? ==> h.nodes.Keys == g.nodes.Keys
    ensures PcKnown(h, pc)
    decreases pc
  {
  }

  lemma SnapStill(g: Graph, h: Graph, pc: Pc)
    requires SnapOk(g, pc) && Bumps(g, h)
    ensures SnapOk(h, pc)
  {
  }

  lemma FactStill(s: State, th: Thread, e: Effect, u: Thread)
    requires Guarantee(s, th, e) && ThreadOk(s.g, s.dropped, u)
    requires th.held !! u.held && !(th.mu && u.mu)
    ensures FactOk(e.g, e.dropped, Target(u.pc))
  {
  }

  // ----- the sections that write -----

  /** addChild writes to the parent and the child only. */
  lemma AddFootprint(g: Graph, h: Graph, p: Addr, name: string, ino: Ino, dir: bool, spare: Addr)
    requires WellFormed(g) && Spare(g, ino, spare) && p in g.nodes && h == AddStep(g, p, name, ino, dir, spare)
    ensures forall n :: n in g.nodes && n != p && n != ChildFor(g, ino, spare) ==>
            n in h.nodes && h.nodes[n] == g.nodes[n]
  {
  }

  /** The locked section of addChild: the registered child is not a dropped inode. */
  lemma AddWrites(s: State, th: Thread, e: Effect, p: Addr, name: string, ino: Ino, dir: bool, spare: Addr)
    requires WellFormed(s.g) && DroppedOk(s.g, s.dropped)
    requires p in s.g.nodes && s.g.nodes[p].dir && Spare(s.g, ino, spare)
    requires th.mu && p in th.held && ChildFor(s.g, ino, spare) in th.held
    requires e.g == AddStep(s.g, p, name, ino, dir, spare) && e.dropped == s.dropped
    ensures Guarantee(s, th, e)
  {
    hide AddStep, NoDup;
    var c := ChildFor(s.g, ino, spare);
    AddEffect(s.g, e.g, p, name, ino, dir, spare);
    AddFootprint(s.g, e.g, p, name, ino, dir, spare);
    CountedDropped(s.g, e.g, s.dropped, ino, c);
  }

  lemma CountedDropped(g: Graph, h: Graph, dropped: set<Addr>, ino: Ino, c: Addr)
    requires Counted(g, h, ino, c) && DroppedOk(g, dropped) && c !in dropped
    ensures DroppedOk(h, dropped)
  {
  }

  lemma RefWrites(s: State, th: Thread, e: Effect, n: Addr, k: nat)
    requires WellFormed(s.g) && DroppedOk(s.g, s.dropped)
    requires n in s.g.nodes && k <= s.g.nodes[n].lookups && n in th.held
    requires e.g == DecStep(s.g, n, k) && e.dropped == s.dropped
    ensures Guarantee(s, th, e)
  {
    DecLowers(s.g, n, k);
    LoweredEdges(s.g, e.g, n);
  }

  lemma DeleteWrites(s: State, th: Thread, e: Effect, n: Addr)
    requires WellFormed(s.g) && DroppedOk(s.g, s.dropped)
    requires n in s.g.nodes && !Live(s.g, n) && th.mu
    requires e.g == Unregister(s.g, s.g.nodes[n].ino) && e.dropped == s.dropped + {n}
    ensures Guarantee(s, th, e)
  {
    forall d, m, x ensures HasKid(e.g, d, m, x) <==> HasKid(s.g, d, m, x) {}
    forall d, m, x ensures HasEntry(e.g, x, m, d) <==> HasEntry(s.g, x, m, d) {}
  }

  /** The listed edges into the inode are gone, and all of its entries. */
  lemma CutEdgeSets(g: Graph, m: Graph, h: Graph, n: Addr, pes: seq<Entry>)
    requires n in g.nodes && EdgesCut(g, m, n, pes) && h == Bump(ClearParents(m, n), n)
    ensures forall d, x, c :: HasKid(h, d, x, c) <==> HasKid(g, d, x, c) && !(c == n && Entry(x, d) in pes)
    ensures forall d, x, c :: HasEntry(h, c, x, d) <==> HasEntry(g, c, x, d) && c != n
  {
    forall d, x, c ensures HasKid(h, d, x, c) <==> HasKid(m, d, x, c) {}
    forall d, x, c ensures HasEntry(h, c, x, d) <==> HasEntry(g, c, x, d) && c != n {}
  }

  /** Each record of the cut graph is that of before with at most its edges fewer. */
  lemma CutNodes(g: Graph, m: Graph, h: Graph, n: Addr, pes: seq<Entry>)
    requires n in g.nodes && EdgesCut(g, m, n, pes) && h == Bump(ClearParents(m, n), n)
    ensures h.reg == g.reg && h.nodes.Keys == h.rev.Keys == g.nodes.Keys
    ensures forall d :: d in g.nodes ==>
              && h.nodes[d].ino == g.nodes[d].ino && h.nodes[d].dir == g.nodes[d].dir
              && h.nodes[d].lookups == g.nodes[d].lookups
              && (h.nodes[d].parents == [] || h.nodes[d].parents == g.nodes[d].parents)
  {
    hide HasKid;
  }

  lemma CutRaises(g: Graph, m: Graph, h: Graph, n: Addr, pes: seq<Entry>)
    requires n in g.nodes && EdgesCut(g, m, n, pes) && h == Bump(ClearParents(m, n), n)
    ensures Bumps(g, h)
  {
    hide HasKid;
  }

  /** Fewer edges of either direction between the same inodes. */
  lemma FewerEdges(g: Graph, h: Graph)
    requires WellFormed(g) && h.reg == g.reg && h.nodes.Keys == h.rev.Keys == g.nodes.Keys
    requires forall d :: d in g.nodes ==>
               && h.nodes[d].ino == g.nodes[d].ino && h.nodes[d].dir == g.nodes[d].dir
               && (h.nodes[d].parents == [] || h.nodes[d].parents == g.nodes[d].parents)
    requires forall d, x, c :: HasKid(h, d, x, c) ==> HasKid(g, d, x, c)
    requires forall d, x, c :: HasEntry(h, c, x, d) ==> HasEntry(g, c, x, d)
    ensures WellFormed(h)
  {
    forall d | d in h.nodes && h.nodes[d].kids != map[] ensures h.nodes[d].dir {
      var x :| x in h.nodes[d].kids;
      assert HasKid(h, d, x, h.nodes[d].kids[x]);
    }
  }

  lemma CutLeavesOthers(g: Graph, m: Graph, h: Graph, n: Addr, pes: seq<Entry>)
    requires n in g.nodes && EdgesCut(g, m, n, pes) && h == Bump(ClearParents(m, n), n)
    ensures forall d :: d in g.nodes && d != n && d !in EntryNodes(pes) ==> d in h.nodes && h.nodes[d] == g.nodes[d]
  {
    forall d | d in g.nodes && d != n && d !in EntryNodes(pes) ensures h.nodes[d] == g.nodes[d] {
      forall x | x in g.nodes[d].kids || x in m.nodes[d].kids
        ensures x in g.nodes[d].kids && x in m.nodes[d].kids && m.nodes[d].kids[x] == g.nodes[d].kids[x]
      {
        assert Entry(x, d) !in pes;
        assert x in g.nodes[d].kids ==> HasKid(g, d, x, g.nodes[d].kids[x]);
        assert x in m.nodes[d].kids ==> HasKid(m, d, x, m.nodes[d].kids[x]);
      }
      assert m.nodes[d].kids == g.nodes[d].kids;
    }
  }

  /** The group-locked section of removeRef, whatever the snapshot says by now. */
  lemma CutWrites(s: State, th: Thread, e: Effect, n: Addr, pes: seq<Entry>)
    requires WellFormed(s.g) && DroppedOk(s.g, s.dropped) && n in s.g.nodes
    requires forall x :: x in pes ==> x.node in s.g.nodes
    requires th.held == {n} + EntryNodes(pes)
    requires e.g == CutStep(s.g, n, pes) && e.dropped == s.dropped
    ensures Guarantee(s, th, e)
  {
    hide CutEdges, EdgesCut, NoDup, Bumps, HasKid, HasEntry;
    var m := CutEdges(s.g, n, pes);
    CutEdgesEffect(s.g, n, pes);
    CutNodes(s.g, m, e.g, n, pes);
    CutRaises(s.g, m, e.g, n, pes);
    CutEdgeSets(s.g, m, e.g, n, pes);
    FewerEdges(s.g, e.g);
    CutLeavesOthers(s.g, m, e.g, n, pes);
  }

  lemma SameElements(a: seq<Entry>, b: seq<Entry>)
    requires multiset(a) == multiset(b)
    ensures forall x :: x in a <==> x in b
  {
    forall x ensures x in a <==> x in b {
      assert x in a <==> x in multiset(a);
      assert x in b <==> x in multiset(b);
    }
  }

  lemma RmWrites(s: State, th: Thread, e: Effect, p: Addr, name: string, c: Addr)
    requires WellFormed(s.g) && DroppedOk(s.g, s.dropped)
    requires p in s.g.nodes && c in s.g.nodes
    requires p in th.held && c in th.held
    requires e.g == InodeGraph.Unlink(s.g, p, name, c) && e.dropped == s.dropped
    ensures Guarantee(s, th, e)
  {
    UnlinkRecords(s.g, p, name, c);
    UnlinkEffect(s.g, e.g, p, name, c);
  }

  /** mvChild writes to the two directories and the two children only. */
  lemma MvFootprint(g: Graph, h: Graph, p: Addr, name: string, np: Addr, nname: string, child: Option<Addr>,
                    dest: Option<Addr>)
    requires g.rev.Keys == g.nodes.Keys && p in g.nodes && np in g.nodes
    requires child.Some? ==> child.value in g.nodes
    requires dest.Some? ==> dest.value in g.nodes
    requires h == MvStep(g, p, name, np, nname, child, dest)
    ensures forall n :: n in g.nodes && n !in {p, np} + Opt(child) + Opt(dest) ==>
            n in h.nodes && h.nodes[n] == g.nodes[n]
  {
  }

  lemma MvWrites(s: State, th: Thread, e: Effect, p: Addr, name: string, np: Addr, nname: string, child: Option<Addr>,
                 dest: Option<Addr>)
    requires WellFormed(s.g) && DroppedOk(s.g, s.dropped)
    requires p in s.g.nodes && np in s.g.nodes && (child.Some? ==> s.g.nodes[np].dir)
    requires Opt(child) <= s.g.nodes.Keys && Opt(dest) <= s.g.nodes.Keys
    requires th.held == {p, np} + Opt(child) + Opt(dest)
    requires (child.Some? ==> child.value in s.g.nodes) && (dest.Some? ==> dest.value in s.g.nodes)
    requires e.g == MvStep(s.g, p, name, np, nname, child, dest) && e.dropped == s.dropped
    ensures Guarantee(s, th, e)
  {
    hide MvStep, Moved, NoDup;
    MvKeepsForm(s.g, e.g, p, name, np, nname, child, dest);
    MvCounts(s.g, p, name, np, nname, child, dest);
    MvFootprint(s.g, e.g, p, name, np, nname, child, dest);
  }

  // ----- one thread's own record -----

  /** Locks are taken only when free. */
  ghost predicate Took(s: State, th: Thread, th': Thread) {
    && (forall x :: x in th'.held ==> x in th.held || FreeNode(s, x))
    && (th'.mu ==> th.mu || FreeMu(s))
    && (th'.entry.Some? ==> th'.entry == th.entry || FreeEntry(s, th'.entry.value))
  }

  ghost predicate StepOk(s: State, th: Thread, e: Effect) {
    Guarantee(s, th, e) && ThreadOk(e.g, e.dropped, e.th) && Took(s, th, e.th)
  }

  lemma Quiet(s: State, th: Thread, e: Effect)
    requires WellFormed(s.g) && DroppedOk(s.g, s.dropped) && e.g == s.g && e.dropped == s.dropped
    ensures Guarantee(s, th, e)
  {
  }

  /** A thread without locks that turns to a section with its locks to be taken in order. */
  lemma GoToOk(g: Graph, dropped: set<Addr>, th: Thread, pc: Pc)
    requires th.held == {} && !th.mu && (forall x :: x in th.todo ==> x in g.nodes)
    requires PcKnown(g, pc) && SnapOk(g, pc) && FactOk(g, dropped, pc)
    requires !pc.Unlock? && !pc.AddRead? && !pc.AddFresh? && !pc.RefDelete? && !pc.RefDrop?
    requires pc.EnterDir? ==> th.entry.None?
    ensures ThreadOk(g, dropped, GoTo(th, pc))
  {
  }

  /** A thread that starts to release its locks before it turns to `next`. */
  lemma LeaveOk(g: Graph, dropped: set<Addr>, th: Thread, next: Pc)
    requires th.want == [] && (forall x :: x in th.held || x in th.todo ==> x in g.nodes)
    requires PcKnown(g, next) && SnapOk(g, next) && FactOk(g, dropped, next)
    requires !next.Unlock? && !next.EnterDir? && !next.AddRead? && !next.AddFresh? && !next.RefDelete? && !next.RefDrop?
    ensures ThreadOk(g, dropped, Leave(th, next))
  {
  }

  /** Taking the next lock of the order keeps the shape. */
  lemma AcquireShape(th: Thread, th': Thread)
    requires LockShape(th) && th.want != [] && th' == th.(held := th.held + {th.want[0]}, want := th.want[1..])
    ensures LockShape(th') && (th.pc.AddFresh? || th.want[0] in Group(th.pc))
    ensures th.pc.AddFresh? ==> th.want[0] == th.pc.c
  {
    if !th.pc.AddFresh? {
      var w := th.want;
      assert w == [w[0]] + w[1..] && w[0] in SetOf(w);
      assert SetOf(w) == {w[0]} + SetOf(w[1..]);
      assert w[0] !in SetOf(w[1..]);
      NextInOrder(th, th');
    }
  }

  lemma NextInOrder(th: Thread, th': Thread)
    requires Ascending(th.want) && th.want != []
    requires forall h, i :: h in th.held && 0 <= i < |th.want| ==> h < th.want[i]
    requires th' == th.(held := th.held + {th.want[0]}, want := th.want[1..])
    ensures Ascending(th'.want)
    ensures forall h, i :: h in th'.held && 0 <= i < |th'.want| ==> h < th'.want[i]
  {
  }

  /** The next lock in order. */
  lemma AcquireOk(s: State, t: Tid, e: Effect)
    requires Inv(s) && t in s.threads && s.threads[t].want != [] && FreeNode(s, s.threads[t].want[0])
    requires var th := s.threads[t];
             e == Effect(th.(held := th.held + {th.want[0]}, want := th.want[1..]), s.g, s.dropped, None)
    ensures StepOk(s, s.threads[t], e)
  {
    var th := s.threads[t];
    Quiet(s, th, e);
    assert ThreadOk(s.g, s.dropped, th);
    hide WellFormed, Exclusive, DroppedOk, SnapOk, FactOk, LockShape, Guarantee;
    AcquireShape(th, e.th);
    if !th.pc.AddFresh? {
      GroupKnown(s.g, th.pc);
    }
  }

  lemma GroupKnown(g: Graph, pc: Pc)
    requires PcKnown(g, pc) && !pc.AddFresh?
    ensures Group(pc) <= g.nodes.Keys
  {
  }

  // ----- every section -----

  /** What the section lemmas start from. */
  ghost predicate AtSection(s: State, t: Tid, ch: Choice, e: Effect) {
    && Inv(s) && t in s.threads && s.threads[t].want == []
    && PcKnown(s.g, s.threads[t].pc)
    && Section(s, s.threads[t], ch) == Some(e) && e.crash.None?
  }

  lemma Facts(s: State, t: Tid, ch: Choice, e: Effect)
    requires AtSection(s, t, ch, e)
    ensures WellFormed(s.g) && DroppedOk(s.g, s.dropped)
    ensures ThreadOk(s.g, s.dropped, s.threads[t])
    ensures t in s.threads && PcKnown(s.g, s.threads[t].pc)
    ensures s.threads[t].want == [] && Section(s, s.threads[t], ch) == Some(e) && e.crash.None?
  {
  }

  /** A thread whose section runs holds exactly its group. */
  lemma HoldsGroup(g: Graph, dropped: set<Addr>, th: Thread)
    requires ThreadOk(g, dropped, th) && th.want == []
    requires !th.pc.Unlock? && !th.pc.AddFresh?
    ensures th.held == Group(th.pc) <= g.nodes.Keys
    ensures forall x :: x in th.todo ==> x in g.nodes
    ensures SnapOk(g, th.pc) && FactOk(g, dropped, th.pc)
  {
  }

  lemma Assemble(s: State, th: Thread, e: Effect)
    requires Guarantee(s, th, e) && ThreadOk(e.g, e.dropped, e.th) && Took(s, th, e.th)
    ensures StepOk(s, th, e)
  {
  }

  lemma CallOk(s: State, t: Tid, ch: Choice, e: Effect)
    requires AtSection(s, t, ch, e) && s.threads[t].pc.Idle?
    ensures StepOk(s, s.threads[t], e)
  {
    hide AtSection, Section, Inv, Guarantee, StepOk, ThreadOk, Took, WellFormed, DroppedOk, PcKnown;
    Facts(s, t, ch, e);
    CallShape(s, s.threads[t], ch, e);
    Quiet(s, s.threads[t], e);
    Assemble(s, s.threads[t], e);
  }

  lemma CallShape(s: State, th: Thread, ch: Choice, e: Effect)
    requires ThreadOk(s.g, s.dropped, th) && th.want == [] && PcKnown(s.g, th.pc) && WellFormed(s.g) && th.pc.Idle?
    requires Section(s, th, ch) == Some(e) && e.crash.None?
    ensures e.g == s.g && e.dropped == s.dropped && ThreadOk(e.g, e.dropped, e.th) && Took(s, th, e.th)
  {
    hide AddSection, FreshSection, RefSection, CutSection, RmSection, MvSection, WellFormed, BeginCall, Sorted,
      ThreadOk;
    TodoKnown(s.g, s.dropped, th);
    IdleShape(s.g, s.dropped, th);
    if th.todo != [] {
      GoToOk(s.g, s.dropped, th.(todo := th.todo[1..]), RefLocked(th.todo[0], 0));
    } else {
      BeginOk(s, th, ch.call, e);
    }
  }

  lemma IdleShape(g: Graph, dropped: set<Addr>, th: Thread)
    requires ThreadOk(g, dropped, th) && th.pc.Idle?
    ensures th.held == {} && th.want == [] && !th.mu
  {
  }

  lemma BeginOk(s: State, th: Thread, call: Call, e: Effect)
    requires ThreadOk(s.g, s.dropped, th) && th.held == {} && th.want == [] && !th.mu && th.pc.Idle?
    requires BeginCall(s, th, call) == Some(e) && e.crash.None?
    ensures e.g == s.g && e.dropped == s.dropped && ThreadOk(e.g, e.dropped, e.th) && Took(s, th, e.th)
  {
    match call
    case LeaveDir => LeaveDirOk(s.g, s.dropped, th);
    case _ =>
      assert e.th == GoTo(th, e.th.pc);
      hide ThreadOk, Sorted;
      assert forall x :: x in th.todo ==> x in s.g.nodes by {
        TodoKnown(s.g, s.dropped, th);
      }
      GoToOk(s.g, s.dropped, th, e.th.pc);
  }

  lemma TodoKnown(g: Graph, dropped: set<Addr>, th: Thread)
    requires ThreadOk(g, dropped, th)
    ensures forall x :: x in th.todo ==> x in g.nodes
  {
  }

  lemma LeaveDirOk(g: Graph, dropped: set<Addr>, th: Thread)
    requires ThreadOk(g, dropped, th) && th.pc.Idle?
    ensures ThreadOk(g, dropped, th.(entry := None))
  {
  }

  lemma ReleaseOk(s: State, t: Tid, ch: Choice, e: Effect)
    requires AtSection(s, t, ch, e) && s.threads[t].pc.Unlock?
    ensures StepOk(s, s.threads[t], e)
  {
    hide AtSection, Section, Inv, Guarantee, StepOk, ThreadOk, Took, WellFormed, DroppedOk, PcKnown;
    Facts(s, t, ch, e);
    ReleaseShape(s, s.threads[t], ch, e);
    Quiet(s, s.threads[t], e);
    Assemble(s, s.threads[t], e);
  }

  lemma ReleaseShape(s: State, th: Thread, ch: Choice, e: Effect)
    requires ThreadOk(s.g, s.dropped, th) && th.want == [] && PcKnown(s.g, th.pc) && WellFormed(s.g) && th.pc.Unlock?
    requires Section(s, th, ch) == Some(e)
    ensures e.g == s.g && e.dropped == s.dropped && ThreadOk(e.g, e.dropped, e.th) && Took(s, th, e.th)
  {
    hide AddSection, FreshSection, RefSection, CutSection, RmSection, MvSection, WellFormed, Sorted, SnapOk, FactOk;
    if e.th.pc != th.pc {
      NextOk(s.g, s.dropped, th);
    }
  }

  lemma NextOk(g: Graph, dropped: set<Addr>, th: Thread)
    requires ThreadOk(g, dropped, th) && th.pc.Unlock? && th.held == {} && !th.mu
    ensures ThreadOk(g, dropped, GoTo(th, th.pc.next))
  {
  }

  /** The steps that only take the bridge mutex, the entry mutex, or read one inode. */
  lemma MutexOk(s: State, t: Tid, ch: Choice, e: Effect)
    requires AtSection(s, t, ch, e)
    requires var pc := s.threads[t].pc; pc.EnterDir? || pc.Peek? || pc.MuPeek? || pc.AddLocked? || pc.RefDrop?
    ensures StepOk(s, s.threads[t], e)
  {
    hide AtSection, Section, Inv, Guarantee, StepOk, ThreadOk, Took, WellFormed, DroppedOk, PcKnown;
    Facts(s, t, ch, e);
    MutexShape(s, s.threads[t], ch, e);
    Quiet(s, s.threads[t], e);
    Assemble(s, s.threads[t], e);
  }

  lemma MutexShape(s: State, th: Thread, ch: Choice, e: Effect)
    requires ThreadOk(s.g, s.dropped, th) && th.want == [] && PcKnown(s.g, th.pc) && WellFormed(s.g)
    requires th.pc.EnterDir? || th.pc.Peek? || th.pc.MuPeek? || th.pc.AddLocked? || th.pc.RefDrop?
    requires Section(s, th, ch) == Some(e)
    ensures e.g == s.g && e.dropped == s.dropped && ThreadOk(s.g, s.dropped, e.th) && Took(s, th, e.th)
  {
    hide AddSection, FreshSection, RefSection, CutSection, RmSection, MvSection, WellFormed, Sorted;
    assert SetOf([]) == {};
  }

  lemma AddReadOk(s: State, t: Tid, ch: Choice, e: Effect)
    requires AtSection(s, t, ch, e) && s.threads[t].pc.AddRead?
    ensures StepOk(s, s.threads[t], e)
  {
    var th := s.threads[t];
    assert ThreadOk(s.g, s.dropped, th);
    var AddRead(p, name, ino, dir, child) := th.pc;
    assert p in th.held && (child.Some? ==> child.value in Opt(child));
    var now := Get(s.g.reg, ino);
    if now == child && child.Some? {
      AddWrites(s, th, e, p, name, ino, dir, 0);
      hide AddStep, Exclusive;
      DoneOk(s, th, e);
    } else {
      Quiet(s, th, e);
      AddRetryShape(s, th, ch, e);
    }
  }

  /** Either the registry changed and the locks are taken anew, or a new inode is made. */
  lemma AddRetryShape(s: State, th: Thread, ch: Choice, e: Effect)
    requires WellFormed(s.g) && ThreadOk(s.g, s.dropped, th) && th.pc.AddRead?
    requires AddSection(s, th, ch) == Some(e) && e.crash.None?
    requires Get(s.g.reg, th.pc.ino) != th.pc.child || th.pc.child.None?
    ensures ThreadOk(s.g, s.dropped, e.th) && Took(s, th, e.th)
  {
    var AddRead(p, name, ino, dir, child) := th.pc;
    if Get(s.g.reg, ino) != child {
      LeaveOk(s.g, s.dropped, th, AddLocked(p, name, ino, dir, Get(s.g.reg, ino)));
    } else {
      assert th.held == {p} + Opt(None) == {p};
    }
  }

  /** A thread that has done its section and only has to release. */
  lemma DoneOk(s: State, th: Thread, e: Effect)
    requires ThreadOk(s.g, s.dropped, th) && Guarantee(s, th, e) && th.want == []
    requires e.th.pc == Unlock(Idle) && e.th.held == th.held && e.th.want == [] && (e.th.mu ==> th.mu)
             && e.th.entry == th.entry
    requires forall x :: x in e.th.todo ==> x in e.g.nodes
    requires forall x :: x in th.held ==> x in e.g.nodes
    ensures ThreadOk(e.g, e.dropped, e.th) && Took(s, th, e.th)
  {
  }

  lemma AddFreshOk(s: State, t: Tid, ch: Choice, e: Effect)
    requires AtSection(s, t, ch, e) && s.threads[t].pc.AddFresh?
    ensures StepOk(s, s.threads[t], e)
  {
    var th := s.threads[t];
    assert ThreadOk(s.g, s.dropped, th);
    var AddFresh(p, name, ino, dir, c) := th.pc;
    AddWrites(s, th, e, p, name, ino, dir, c);
    AddKnows(s.g, e.g, p, name, ino, dir, c);
    hide AddStep, Exclusive;
    DoneOk(s, th, e);
  }

  lemma AddKnows(g: Graph, h: Graph, p: Addr, name: string, ino: Ino, dir: bool, c: Addr)
    requires WellFormed(g) && p in g.nodes && ino !in g.reg && c !in g.nodes && h == AddStep(g, p, name, ino, dir, c)
    ensures c in h.nodes && g.nodes.Keys <= h.nodes.Keys
  {
  }

  lemma RefLockedOk(s: State, t: Tid, ch: Choice, e: Effect)
    requires AtSection(s, t, ch, e) && s.threads[t].pc.RefLocked?
    ensures StepOk(s, s.threads[t], e)
  {
    var th := s.threads[t];
    var RefLocked(n, k) := th.pc;
    Facts(s, t, ch, e);
    hide AtSection;
    HoldsGroup(s.g, s.dropped, th);
    RefWrites(s, th, e, n, k);
    hide Guarantee, DecStep, WellFormed, DroppedOk, LockShape;
    GuaranteeKeys(s, th, e);
    if Live(e.g, n) {
      DoneOk(s, th, e);
    } else {
      DropShape(s.g, e.g, s.dropped, th, e.th);
    }
  }

  lemma GuaranteeKeys(s: State, th: Thread, e: Effect)
    requires Guarantee(s, th, e)
    ensures s.g.nodes.Keys <= e.g.nodes.Keys && s.dropped <= e.dropped
  {
  }

  lemma DropShape(g: Graph, h: Graph, dropped: set<Addr>, th: Thread, th': Thread)
    requires ThreadOk(g, dropped, th) && th.pc.RefLocked? && th.want == [] && th' == th.(pc := RefDrop(th.pc.n))
    requires g.nodes.Keys <= h.nodes.Keys && th.pc.n in h.nodes && !Live(h, th.pc.n)
    ensures ThreadOk(h, dropped, th')
  {
  }

  lemma RefDeleteOk(s: State, t: Tid, ch: Choice, e: Effect)
    requires AtSection(s, t, ch, e) && s.threads[t].pc.RefDelete?
    ensures StepOk(s, s.threads[t], e)
  {
    var th := s.threads[t];
    var n := th.pc.n;
    Facts(s, t, ch, e);
    hide AtSection;
    HoldsGroup(s.g, s.dropped, th);
    DeleteWrites(s, th, e, n);
    hide Guarantee, WellFormed, DroppedOk;
    DeleteShape(s.g, e.g, s.dropped, e.dropped, th, e.th);
  }

  lemma DeleteShape(g: Graph, h: Graph, dropped: set<Addr>, dropped': set<Addr>, th: Thread, th': Thread)
    requires ThreadOk(g, dropped, th) && th.pc.RefDelete? && th.want == []
    requires th' == th.(mu := false, pc := RefSnap(th.pc.n))
    requires g.nodes.Keys == h.nodes.Keys && th.pc.n in dropped'
    ensures ThreadOk(h, dropped', th')
  {
  }

  lemma RefSnapOk(s: State, t: Tid, ch: Choice, e: Effect)
    requires AtSection(s, t, ch, e) && s.threads[t].pc.RefSnap?
    ensures StepOk(s, s.threads[t], e)
  {
    hide AtSection, Section, Inv, Guarantee, StepOk, ThreadOk, Took, WellFormed, DroppedOk, PcKnown;
    Facts(s, t, ch, e);
    RefSnapShape(s, s.threads[t], ch, e);
    Quiet(s, s.threads[t], e);
    Assemble(s, s.threads[t], e);
  }

  lemma RefSnapShape(s: State, th: Thread, ch: Choice, e: Effect)
    requires ThreadOk(s.g, s.dropped, th) && th.want == [] && PcKnown(s.g, th.pc) && WellFormed(s.g) && th.pc.RefSnap?
    requires Section(s, th, ch) == Some(e)
    ensures e.g == s.g && e.dropped == s.dropped && ThreadOk(e.g, e.dropped, e.th) && Took(s, th, e.th)
  {
    hide AddSection, FreshSection, RefSection, CutSection, RmSection, MvSection, Sorted;
    var n := th.pc.n;
    assert n in Group(th.pc);
    SameElements(ch.pes, s.g.nodes[n].parents);
    EntriesKnown(s.g, n, ch.pes);
    LeaveOk(s.g, s.dropped, th, RefCut(n, s.g.rev[n], ch.pes));
  }

  lemma NodesKnown(g: Graph, pes: seq<Entry>)
    requires forall x :: x in pes ==> x.node in g.nodes
    ensures forall x :: x in NodesOf(pes) ==> x in g.nodes
  {
  }

  lemma EntriesKnown(g: Graph, n: Addr, pes: seq<Entry>)
    requires WellFormed(g) && n in g.nodes && forall x :: x in pes ==> x in g.nodes[n].parents
    ensures EntryNodes(pes) <= g.nodes.Keys && forall x :: x in pes ==> x.node in g.nodes
  {
    forall x | x in pes ensures x.node in g.nodes {
      assert HasEntry(g, n, x.name, x.node);
    }
  }

  /** The section that runs at a counter, with what its thread has ensured. */
  lemma Unpack(s: State, t: Tid, ch: Choice, e: Effect)
    requires AtSection(s, t, ch, e)
    requires var pc := s.threads[t].pc; pc.RefCut? || pc.RmCommit? || pc.MvCommit?
    ensures t in s.threads
    ensures var th := s.threads[t];
            && WellFormed(s.g) && DroppedOk(s.g, s.dropped) && ThreadOk(s.g, s.dropped, th)
            && s.g.rev.Keys == s.g.nodes.Keys && th.want == [] && th.held == Group(th.pc) <= s.g.nodes.Keys
            && SnapOk(s.g, th.pc) && FactOk(s.g, s.dropped, th.pc)
            && (match th.pc
                case RefCut(n, _, pes) => (forall x :: x in pes ==> x.node in s.g.nodes) && CutSection(s, th) == Some(e)
                case RmCommit(_, _, _, _) => RmSection(s, th) == Some(e)
                case MvCommit(_, _, _, _, _, _, _, child, dest) =>
                  && (child.Some? ==> child.value in s.g.nodes) && (dest.Some? ==> dest.value in s.g.nodes)
                  && MvSection(s, th) == Some(e)
                case _ => true)
            && e.crash.None?
  {
    var th := s.threads[t];
    Facts(s, t, ch, e);
    HoldsGroup(s.g, s.dropped, th);
    hide Inv, WellFormed, DroppedOk, CutSection, RmSection, MvSection;
    match th.pc
    case RefCut(n, _, pes) =>
      assert forall x :: x in pes ==> x.node in EntryNodes(pes);
    case MvCommit(_, _, _, _, _, _, _, child, dest) =>
      assert (child.Some? ==> child.value in Opt(child)) && (dest.Some? ==> dest.value in Opt(dest));
    case _ =>
  }

  lemma RefCutOk(s: State, t: Tid, ch: Choice, e: Effect)
    requires AtSection(s, t, ch, e) && s.threads[t].pc.RefCut?
    ensures StepOk(s, s.threads[t], e)
  {
    hide AtSection, Section, LockShape, Inv, WellFormed, DroppedOk, Guarantee, StepOk, ThreadOk, NodesOf, CutStep;
    Unpack(s, t, ch, e);
    var th := s.threads[t];
    var RefCut(n, rev, pes) := th.pc;
    if Wrap(s.g.rev[n]) != Wrap(rev) {
      RetryOk(s, th, e, RefSnap(n));
    } else {
      CutWrites(s, th, e, n, pes);
      NodesKnown(s.g, pes);
      CommitOk(s, th, e, NodesOf(pes));
    }
  }

  /** The revision moved: the locks are given back and the snapshot taken again. */
  lemma RetryOk(s: State, th: Thread, e: Effect, next: Pc)
    requires WellFormed(s.g) && DroppedOk(s.g, s.dropped) && ThreadOk(s.g, s.dropped, th) && th.want == []
    requires th.held <= s.g.nodes.Keys && e == Effect(Leave(th, next), s.g, s.dropped, None)
    requires next.RefSnap? || next.RmSnap? || next.MvSnap?
    requires PcKnown(s.g, next) && FactOk(s.g, s.dropped, next)
    ensures StepOk(s, th, e)
  {
    Quiet(s, th, e);
    hide WellFormed, DroppedOk, Guarantee, LockShape;
    LeaveOk(s.g, s.dropped, th, next);
  }

  /** The section is done; what it leaves to be removed is put in front of the list. */
  lemma CommitOk(s: State, th: Thread, e: Effect, extra: seq<Addr>)
    requires ThreadOk(s.g, s.dropped, th) && th.want == [] && Guarantee(s, th, e) && th.held <= s.g.nodes.Keys
    requires e.th == Done(th.(todo := extra + th.todo))
    requires forall x :: x in extra ==> x in s.g.nodes
    ensures StepOk(s, th, e)
  {
  }

  lemma RmSnapOk(s: State, t: Tid, ch: Choice, e: Effect)
    requires AtSection(s, t, ch, e) && s.threads[t].pc.RmSnap?
    ensures StepOk(s, s.threads[t], e)
  {
    hide AtSection, Section, Inv, Guarantee, StepOk, ThreadOk, Took, WellFormed, DroppedOk, PcKnown;
    Facts(s, t, ch, e);
    RmSnapShape(s, s.threads[t], ch, e);
    Quiet(s, s.threads[t], e);
    Assemble(s, s.threads[t], e);
  }

  lemma RmSnapShape(s: State, th: Thread, ch: Choice, e: Effect)
    requires ThreadOk(s.g, s.dropped, th) && th.want == [] && PcKnown(s.g, th.pc) && WellFormed(s.g) && th.pc.RmSnap?
    requires Section(s, th, ch) == Some(e)
    ensures e.g == s.g && e.dropped == s.dropped && ThreadOk(e.g, e.dropped, e.th) && Took(s, th, e.th)
  {
    hide AddSection, FreshSection, RefSection, CutSection, RmSection, MvSection, Sorted;
    var RmSnap(p, name) := th.pc;
    assert p in Group(th.pc);
    if name in s.g.nodes[p].kids {
      assert HasKid(s.g, p, name, s.g.nodes[p].kids[name]);
      LeaveOk(s.g, s.dropped, th, RmCommit(p, name, s.g.rev[p], s.g.nodes[p].kids[name]));
    } else {
      LeaveOk(s.g, s.dropped, th, Idle);
    }
  }

  lemma RmCommitOk(s: State, t: Tid, ch: Choice, e: Effect)
    requires AtSection(s, t, ch, e) && s.threads[t].pc.RmCommit?
    ensures StepOk(s, s.threads[t], e)
  {
    hide AtSection, Section, LockShape, Inv, WellFormed, DroppedOk, Guarantee, StepOk, ThreadOk;
    Unpack(s, t, ch, e);
    var th := s.threads[t];
    var RmCommit(p, name, rev, c) := th.pc;
    if Wrap(s.g.rev[p]) != Wrap(rev) {
      RetryOk(s, th, e, RmSnap(p, name));
    } else {
      RmWrites(s, th, e, p, name, c);
      CommitOk(s, th, e, IfDead(e.g, p));
    }
  }

  lemma MvSnapOk(s: State, t: Tid, ch: Choice, e: Effect)
    requires AtSection(s, t, ch, e) && s.threads[t].pc.MvSnap?
    ensures StepOk(s, s.threads[t], e)
  {
    hide AtSection, Section, Inv, Guarantee, StepOk, ThreadOk, Took, WellFormed, DroppedOk, PcKnown;
    Facts(s, t, ch, e);
    MvSnapShape(s, s.threads[t], ch, e);
    Quiet(s, s.threads[t], e);
    Assemble(s, s.threads[t], e);
  }

  lemma MvSnapShape(s: State, th: Thread, ch: Choice, e: Effect)
    requires ThreadOk(s.g, s.dropped, th) && th.want == [] && PcKnown(s.g, th.pc) && WellFormed(s.g) && th.pc.MvSnap?
    requires Section(s, th, ch) == Some(e)
    ensures e.g == s.g && e.dropped == s.dropped && ThreadOk(e.g, e.dropped, e.th) && Took(s, th, e.th)
  {
    hide AddSection, FreshSection, RefSection, CutSection, RmSection, MvSection, Sorted;
    var MvSnap(p, name, np, nname, overwrite) := th.pc;
    assert p in Group(th.pc) && np in Group(th.pc);
    var child, dest := Get(s.g.nodes[p].kids, name), Get(s.g.nodes[np].kids, nname);
    assert child.Some? ==> HasKid(s.g, p, name, child.value);
    assert dest.Some? ==> HasKid(s.g, np, nname, dest.value);
    assert Opt(child) + Opt(dest) <= s.g.nodes.Keys;
    if dest.Some? && !overwrite {
      LeaveOk(s.g, s.dropped, th, Idle);
    } else {
      LeaveOk(s.g, s.dropped, th, MvCommit(p, name, np, nname, overwrite, s.g.rev[p], s.g.rev[np], child, dest));
    }
  }

  lemma MvCommitOk(s: State, t: Tid, ch: Choice, e: Effect)
    requires AtSection(s, t, ch, e) && s.threads[t].pc.MvCommit?
    ensures StepOk(s, s.threads[t], e)
  {
    hide AtSection, Section, LockShape, Inv, WellFormed, DroppedOk, Guarantee, StepOk, ThreadOk, MvStep;
    Unpack(s, t, ch, e);
    var th := s.threads[t];
    var MvCommit(p, name, np, nname, overwrite, rev, nRev, child, dest) := th.pc;
    if Wrap(s.g.rev[p]) != Wrap(rev) || Wrap(s.g.rev[np]) != Wrap(nRev) {
      RetryOk(s, th, e, MvSnap(p, name, np, nname, overwrite));
    } else {
      MvWrites(s, th, e, p, name, np, nname, child, dest);
      MvKeys(s.g, p, name, np, nname, child, dest);
      CommitOk(s, th, e, IfDead(e.g, p) + IfDead(e.g, np));
    }
  }

  // ----- every step, every run -----

  lemma SectionOk(s: State, t: Tid, ch: Choice, e: Effect)
    requires AtSection(s, t, ch, e)
    ensures StepOk(s, s.threads[t], e)
  {
    hide AtSection, StepOk;
    AtThread(s, t, ch, e);
    match s.threads[t].pc
    case Idle => CallOk(s, t, ch, e);
    case EnterDir(_) => MutexOk(s, t, ch, e);
    case Peek(_) => MutexOk(s, t, ch, e);
    case MuPeek => MutexOk(s, t, ch, e);
    case AddLocked(_, _, _, _, _) => MutexOk(s, t, ch, e);
    case AddRead(_, _, _, _, _) => AddReadOk(s, t, ch, e);
    case AddFresh(_, _, _, _, _) => AddFreshOk(s, t, ch, e);
    case RefLocked(_, _) => RefLockedOk(s, t, ch, e);
    case RefDrop(_) => MutexOk(s, t, ch, e);
    case RefDelete(_) => RefDeleteOk(s, t, ch, e);
    case RefSnap(_) => RefSnapOk(s, t, ch, e);
    case RefCut(_, _, _) => RefCutOk(s, t, ch, e);
    case RmSnap(_, _) => RmSnapOk(s, t, ch, e);
    case RmCommit(_, _, _, _) => RmCommitOk(s, t, ch, e);
    case MvSnap(_, _, _, _, _) => MvSnapOk(s, t, ch, e);
    case MvCommit(_, _, _, _, _, _, _, _, _) => MvCommitOk(s, t, ch, e);
    case Unlock(_) => ReleaseOk(s, t, ch, e);
  }

  lemma AtThread(s: State, t: Tid, ch: Choice, e: Effect)
    requires AtSection(s, t, ch, e)
    ensures t in s.threads
  {
  }

  lemma StepIsOk(s: State, t: Tid, ch: Choice, e: Effect)
    requires Inv(s) && t in s.threads && PcKnown(s.g, s.threads[t].pc)
    requires Step(s, t, ch) == Some(e) && e.crash.None?
    ensures StepOk(s, s.threads[t], e)
  {
    hide Inv, StepOk, Section, PcKnown;
    if s.threads[t].want != [] {
      AcquireOk(s, t, e);
    } else {
      SectionOk(s, t, ch, e);
    }
  }

  lemma StillExclusive(s: State, t: Tid, e: Effect)
    requires Exclusive(s) && t in s.threads && Took(s, s.threads[t], e.th)
    ensures Exclusive(Apply(s, t, e))
  {
  }

  /** Every step of every thread keeps the invariant. */
  lemma StepKeeps(s: State, t: Tid, ch: Choice, s': State)
    requires Inv(s) && Next(s, t, ch, s') && s'.crash.None?
    ensures Inv(s')
  {
    var e := Step(s, t, ch).value;
    hide Step, LockShape, PcKnown, SnapOk, FactOk;
    var th := s.threads[t];
    StepIsOk(s, t, ch, e);
    StillExclusive(s, t, e);
    forall u | u in s'.threads ensures ThreadOk(s'.g, s'.dropped, s'.threads[u]) {
      if u != t {
        OtherOk(s, th, e, s.threads[u]);
      }
    }
  }

  /** A run: states, and for each step the thread and its choice. */
  ghost predicate Run(ss: seq<State>, ts: seq<(Tid, Choice)>) {
    && |ss| == |ts| + 1 && Init(ss[0])
    && (forall i :: 0 <= i < |ts| ==> Next(ss[i], ts[i].0, ts[i].1, ss[i + 1]))
  }

  lemma InitOk(s: State)
    requires Init(s)
    ensures Inv(s)
  {
  }

  /** The invariant holds after any run. */
  lemma {:induction false} RunKeeps(ss: seq<State>, ts: seq<(Tid, Choice)>)
    requires Run(ss, ts) && ss[|ts|].crash.None?
    ensures Inv(ss[|ts|])
  {
    hide Inv, Next, Init;
    if ts == [] {
      InitOk(ss[0]);
    } else {
      var n := |ts| - 1;
      assert ss[..n + 1][n] == ss[n];
      NotCrashed(ss[n], ts[n].0, ts[n].1, ss[n + 1]);
      RunKeeps(ss[..n + 1], ts[..n]);
      StepKeeps(ss[n], ts[n].0, ts[n].1, ss[n + 1]);
    }
  }

  lemma NotCrashed(s: State, t: Tid, ch: Choice, s': State)
    requires Next(s, t, ch, s')
    ensures s.crash.None?
  {
  }

  // ----- what the invariant is for -----

  /** The "lookupCount changed" panic cannot happen. */
  lemma NoChangedPanic(s: State, t: Tid, ch: Choice, s': State)
    requires Inv(s) && Next(s, t, ch, s')
    ensures s'.crash != Some(Changed)
    ensures s.threads[t].pc.RefCut? && s.threads[t].want == [] ==> s'.crash.None?
  {
    var th := s.threads[t];
    assert ThreadOk(s.g, s.dropped, th);
    if th.want == [] {
      assert th.pc.RefCut? ==> th.pc.n in s.dropped;
      hide Inv, ThreadOk;
      if th.pc.RefCut? {
        assert Section(s, th, ch).value.crash.None?;
      } else {
        OtherPanics(s, th, ch);
      }
    }
  }

  lemma OtherPanics(s: State, th: Thread, ch: Choice)
    requires WellFormed(s.g) && PcKnown(s.g, th.pc) && !th.pc.RefCut? && Section(s, th, ch).Some?
    ensures Section(s, th, ch).value.crash != Some(Changed)
  {
    hide WellFormed, Sorted, Link, InodeGraph.Unlink, MvStep, AddStep, DecStep, FreeMu, FreeEntry;
  }

  /** So no run of any number of threads ends in that panic. */
  lemma {:induction false} RunNeverChanged(ss: seq<State>, ts: seq<(Tid, Choice)>)
    requires Run(ss, ts)
    ensures ss[|ts|].crash != Some(Changed)
  {
    if ts != [] {
      hide Next, Inv;
      var n := |ts| - 1;
      assert ss[..n + 1][n] == ss[n];
      NotCrashed(ss[n], ts[n].0, ts[n].1, ss[n + 1]);
      RunKeeps(ss[..n + 1], ts[..n]);
      NoChangedPanic(ss[n], ts[n].0, ts[n].1, ss[n + 1]);
    }
  }

  /** A dropped inode stays dropped: no lookups, and no number leads to it. */
  lemma {:induction false} DroppedForever(ss: seq<State>, ts: seq<(Tid, Choice)>, i: nat, n: Addr)
    requires Run(ss, ts) && ss[|ts|].crash.None?
    requires i <= |ts| && n in ss[i].dropped
    ensures n in ss[|ts|].dropped && n in ss[|ts|].g.nodes && ss[|ts|].g.nodes[n].lookups == 0
    ensures forall k :: k in ss[|ts|].g.reg ==> ss[|ts|].g.reg[k] != n
    decreases |ts|
  {
    RunKeeps(ss, ts);
    if i < |ts| {
      var m := |ts| - 1;
      hide Inv, Init;
      assert ss[..m + 1][m] == ss[m] && ss[..m + 1][i] == ss[i];
      NotCrashed(ss[m], ts[m].0, ts[m].1, ss[m + 1]);
      hide Next;
      DroppedForever(ss[..m + 1], ts[..m], i, n);
      RunKeeps(ss[..m + 1], ts[..m]);
      DroppedGrows(ss[m], ts[m].0, ts[m].1, ss[m + 1]);
    }
    DroppedMeans(ss[|ts|], n);
  }

  lemma DroppedGrows(s: State, t: Tid, ch: Choice, s': State)
    requires Inv(s) && Next(s, t, ch, s') && s'.crash.None?
    ensures s.dropped <= s'.dropped
  {
    hide Step, Inv;
    StepIsOk(s, t, ch, Step(s, t, ch).value);
  }

  lemma DroppedMeans(s: State, n: Addr)
    requires Inv(s) && n in s.dropped
    ensures n in s.g.nodes && s.g.nodes[n].lookups == 0
    ensures forall k :: k in s.g.reg ==> s.g.reg[k] != n
  {
  }

  /**
    The locks protect what they are for: a step changes only inodes its thread has
    locked, changes the registry only under the bridge mutex, and raises the revision
    of whatever it changes; and no two threads hold the same lock.
   */
  lemma WritesAreLocked(s: State, t: Tid, ch: Choice, s': State)
    requires Inv(s) && Next(s, t, ch, s') && s'.crash.None?
    ensures forall n :: n in s.g.nodes && n !in s.threads[t].held ==> n in s'.g.nodes && s'.g.nodes[n] == s.g.nodes[n]
    ensures s'.g.reg != s.g.reg ==> s.threads[t].mu
    ensures Bumps(s.g, s'.g) && Exclusive(s')
  {
    StepKeeps(s, t, ch, s');
    hide Step;
    StepIsOk(s, t, ch, Step(s, t, ch).value);
  }
}
