/**
  Why coherent adds are needed.  addChild lets a found entry displace another child
  without dropping that child's parent entry, and removeRef deletes from the registry
  by number.  Together they lose an inode the kernel still holds: in the run below
  the stale entry of inode 3 makes a late Forget(3) revisit a directory that is long
  gone, and deletes the new inode that has meanwhile been given its number, 2.
 */
module Incoherent {
  import opened Types
  import opened Recency
  import opened InodeGraph
  import opened Cascade
  import opened Coherence
  import opened Kernel

  /** An edge of the graph: directory, name, child. */
  datatype Edge = Edge(dir: Addr, name: string, child: Addr)

  /** A complete description of a small graph, revisions aside. */
  ghost predicate Shape(g: Graph, kids: set<Edge>, entries: set<Edge>, reg: map<Ino, Addr>,
                        inos: map<Addr, Ino>, lookups: map<Addr, nat>, dirs: set<Addr>) {
    && WellFormed(g) && g.reg == reg
    && g.nodes.Keys == inos.Keys == lookups.Keys
    && (forall n :: n in g.nodes ==> g.nodes[n].ino == inos[n] && g.nodes[n].lookups == lookups[n])
    && (forall n :: n in dirs ==> n in g.nodes && g.nodes[n].dir)
    && (forall d, s, c :: HasKid(g, d, s, c) <==> Edge(d, s, c) in kids)
    && (forall d, s, c :: HasEntry(g, c, s, d) <==> Edge(d, s, c) in entries)
  }

  /** addChild of a number that is not registered, into a described graph. */
  lemma AddShape(g: Graph, kids: set<Edge>, entries: set<Edge>, reg: map<Ino, Addr>, inos: map<Addr, Ino>,
                 lookups: map<Addr, nat>, dirs: set<Addr>, p: Addr, name: string, ino: Ino, dir: bool, c: Addr,
                 kids': set<Edge>, parent: Ino) returns (h: Graph)
    requires Shape(g, kids, entries, reg, inos, lookups, dirs)
    requires p in dirs && ino !in reg && c !in inos && parent in reg && reg[parent] == p
    requires forall e :: e in kids' <==> if e.dir == p && e.name == name then e.child == c else e in kids
    ensures WellFormed(g) && Transition(g, Lookup(parent, name, Some((ino, dir))), h)
    ensures Shape(h, kids', entries + {Edge(p, name, c)}, reg[ino := c],
                  inos[c := ino], lookups[c := 1], dirs + if dir then {c} else {})
  {
    KnownShape(g, kids, entries, reg, inos, lookups, dirs);
    hide AddStep, WellFormed, Bumps, Shape, Transition, Linked, Counted;
    h := AddStep(g, p, name, ino, dir, c);
    NewKind(g, p, name, ino, dir, c);
    AddEffect(g, h, p, name, ino, dir, c);
    AddedShape(g, h, kids, entries, reg, inos, lookups, dirs, p, name, ino, dir, c, kids');
    AddTransition(g, h, parent, name, ino, dir, c);
  }

  lemma AddTransition(g: Graph, h: Graph, parent: Ino, name: string, ino: Ino, dir: bool, c: Addr)
    requires WellFormed(g) && parent in g.reg && Spare(g, ino, c)
    requires h == AddStep(g, g.reg[parent], name, ino, dir, c)
    ensures Transition(g, Lookup(parent, name, Some((ino, dir))), h)
  {
    hide AddStep, NoDup;
    assert AddedAt(g, h, g.reg[parent], name, ino, dir, c);
  }

  lemma AddedShape(g: Graph, h: Graph, kids: set<Edge>, entries: set<Edge>, reg: map<Ino, Addr>, inos: map<Addr, Ino>,
                   lookups: map<Addr, nat>, dirs: set<Addr>, p: Addr, name: string, ino: Ino, dir: bool, c: Addr,
                   kids': set<Edge>)
    requires Shape(g, kids, entries, reg, inos, lookups, dirs)
    requires p in dirs && ino !in reg && c !in inos && c in h.nodes && h.nodes[c].dir == dir
    requires forall e :: e in kids' <==> if e.dir == p && e.name == name then e.child == c else e in kids
    requires WellFormed(h) && Bumps(g, h) && Linked(g, h, p, name, c) && Counted(g, h, ino, c)
    ensures Shape(h, kids', entries + {Edge(p, name, c)}, reg[ino := c],
                  inos[c := ino], lookups[c := 1], dirs + if dir then {c} else {})
  {
    hide WellFormed;
  }

  lemma NewKind(g: Graph, p: Addr, name: string, ino: Ino, dir: bool, c: Addr)
    requires WellFormed(g) && p in g.nodes && ino !in g.reg && c !in g.nodes
    ensures var h := AddStep(g, p, name, ino, dir, c); c in h.nodes && h.nodes[c].dir == dir
  {
  }

  /** Forgetting the only lookup of a childless inode, in a described graph. */
  lemma ForgetShape(g: Graph, kids: set<Edge>, entries: set<Edge>, reg: map<Ino, Addr>, inos: map<Addr, Ino>,
                    lookups: map<Addr, nat>, dirs: set<Addr>, n: Addr, dead: set<Addr>,
                    kids': set<Edge>, entries': set<Edge>, reg': map<Ino, Addr>) returns (h: Graph)
    requires Shape(g, kids, entries, reg, inos, lookups, dirs)
    requires n in lookups && lookups[n] == 1 && n in dead && dead <= inos.Keys && inos[n] in reg && reg[inos[n]] == n
    requires forall e :: e in kids ==> e.dir != n
    requires ShapeDead(kids, entries, lookups, n, dead)
    requires forall e :: e in kids' <==> e in kids && e.child !in dead
    requires forall e :: e in entries' <==> e in entries && e.child !in dead
    requires forall i :: i in reg' <==> i in reg && forall q :: q in dead ==> inos[q] != i
    requires forall i :: i in reg' ==> reg'[i] == reg[i]
    ensures WellFormed(g) && Transition(g, Forget(inos[n], 1), h)
    ensures Shape(h, kids', entries', reg', inos, lookups[n := 0], dirs)
  {
    hide WellFormed, Least, Shape, DecStep, RemovedBy, ShapeDead;
    KnownShape(g, kids, entries, reg, inos, lookups, dirs);
    var m := DecStep(g, n, 1);
    LowerShape(g, m, kids, entries, reg, inos, lookups, dirs, n);
    KnownShape(m, kids, entries, reg, inos, lookups[n := 0], dirs);
    SameDead(kids, entries, lookups, n, dead);
    ShapeLeast(m, kids, entries, reg, inos, lookups[n := 0], dirs, n, dead);
    h := RemoveShape(m, kids, entries, reg, inos, lookups[n := 0], dirs, n, dead, kids', entries', reg');
    DeadRemoval(g, m, n, h, dead);
    ForgetTransition(g, inos[n], n, h, true);
  }

  lemma SameDead(kids: set<Edge>, entries: set<Edge>, lookups: map<Addr, nat>, n: Addr, dead: set<Addr>)
    requires ShapeDead(kids, entries, lookups, n, dead) && n in dead
    ensures ShapeDead(kids, entries, lookups[n := 0], n, dead)
  {
  }

  lemma DeadRemoval(g: Graph, m: Graph, n: Addr, h: Graph, dead: set<Addr>)
    requires WellFormed(g) && n in g.nodes && 1 <= g.nodes[n].lookups && m == DecStep(g, n, 1) && n in m.nodes
    requires !Live(m, n) && Removal(m, n, h, dead)
    ensures RemovedBy(g, n, 1, h, true)
  {
  }

  lemma RemoveShape(m: Graph, kids: set<Edge>, entries: set<Edge>, reg: map<Ino, Addr>, inos: map<Addr, Ino>,
                    lookups: map<Addr, nat>, dirs: set<Addr>, n: Addr, dead: set<Addr>,
                    kids': set<Edge>, entries': set<Edge>, reg': map<Ino, Addr>) returns (h: Graph)
    requires Shape(m, kids, entries, reg, inos, lookups, dirs) && Least(m, n, dead) && dead <= inos.Keys
    requires forall e :: e in kids' <==> e in kids && e.child !in dead
    requires forall e :: e in entries' <==> e in entries && e.child !in dead
    requires forall i :: i in reg' <==> i in reg && forall q :: q in dead ==> inos[q] != i
    requires forall i :: i in reg' ==> reg'[i] == reg[i]
    ensures Removal(m, n, h, dead) && Shape(h, kids', entries', reg', inos, lookups, dirs)
  {
    hide WellFormed, Least, Shape;
    KnownShape(m, kids, entries, reg, inos, lookups, dirs);
    h := Graph(Collapse(m.nodes, dead), RegOutside(m, dead), map x | x in m.rev :: m.rev[x] + 1);
    assert h.rev.Keys == h.nodes.Keys;
    hide Collapse;
    CollapseWellFormed(m, h, dead);
    CollapseShape(m, h, kids, entries, reg, inos, lookups, dirs, dead, kids', entries', reg');
    CollapseBumps(m, h, dead);
  }

  lemma ForgetTransition(g: Graph, ino: Ino, n: Addr, h: Graph, removed: bool)
    requires WellFormed(g) && ino in g.reg && g.reg[ino] == n && 1 <= g.nodes[n].lookups
             && RemovedBy(g, n, 1, h, removed)
    ensures Transition(g, Forget(ino, 1), h)
  {
  }

  /** `dead` is closed, and every closed set with `n` holds all of it. */
  ghost predicate ShapeDead(kids: set<Edge>, entries: set<Edge>, lookups: map<Addr, nat>, n: Addr, dead: set<Addr>) {
    && (forall e :: e in entries && e.child in dead && e.dir !in dead && e.dir in lookups ==> lookups[e.dir] > 0)
    && (forall q :: q in dead && q != n && q in lookups ==>
          lookups[q] == 0 && Edge(q, "x", n) in entries && forall e :: e in kids && e.dir == q ==> e.child == n)
  }

  lemma KnownShape(g: Graph, kids: set<Edge>, entries: set<Edge>, reg: map<Ino, Addr>, inos: map<Addr, Ino>,
                   lookups: map<Addr, nat>, dirs: set<Addr>)
    requires Shape(g, kids, entries, reg, inos, lookups, dirs)
    ensures WellFormed(g) && g.nodes.Keys == g.rev.Keys == inos.Keys == lookups.Keys && g.reg == reg
    ensures forall n :: n in lookups ==> g.nodes[n].lookups == lookups[n]
    ensures forall n :: n in dirs ==> n in g.nodes && g.nodes[n].dir
  {
  }

  /** One lookup forgotten, the inode not yet removed. */
  lemma LowerShape(g: Graph, m: Graph, kids: set<Edge>, entries: set<Edge>, reg: map<Ino, Addr>, inos: map<Addr, Ino>,
                   lookups: map<Addr, nat>, dirs: set<Addr>, n: Addr)
    requires Shape(g, kids, entries, reg, inos, lookups, dirs)
    requires n in lookups && lookups[n] == 1 && g.rev.Keys == g.nodes.Keys && m == DecStep(g, n, 1)
    ensures Shape(m, kids, entries, reg, inos, lookups[n := 0], dirs)
    ensures n in m.nodes && (Live(m, n) <==> exists e :: e in kids && e.dir == n)
  {
    DecLowers(g, n, 1);
    LoweredEdges(g, m, n);
    hide DecStep, Bumps;
    LoweredShape(g, m, kids, entries, reg, inos, lookups, dirs, n);
    ShapeLive(m, kids, entries, reg, inos, lookups[n := 0], dirs, n);
  }

  lemma LoweredShape(g: Graph, m: Graph, kids: set<Edge>, entries: set<Edge>, reg: map<Ino, Addr>, inos: map<Addr, Ino>,
                     lookups: map<Addr, nat>, dirs: set<Addr>, n: Addr)
    requires Shape(g, kids, entries, reg, inos, lookups, dirs)
    requires n in lookups && Lowered(g, m, n) && m.nodes[n].lookups == 0 && WellFormed(m)
    requires forall d, s, x :: HasKid(m, d, s, x) <==> HasKid(g, d, s, x)
    requires forall d, s, x :: HasEntry(m, x, s, d) <==> HasEntry(g, x, s, d)
    ensures Shape(m, kids, entries, reg, inos, lookups[n := 0], dirs)
  {
    hide WellFormed;
  }

  lemma ShapeLive(m: Graph, kids: set<Edge>, entries: set<Edge>, reg: map<Ino, Addr>, inos: map<Addr, Ino>,
                  lookups: map<Addr, nat>, dirs: set<Addr>, n: Addr)
    requires Shape(m, kids, entries, reg, inos, lookups, dirs) && n in lookups && lookups[n] == 0
    ensures n in m.nodes && (Live(m, n) <==> exists e :: e in kids && e.dir == n)
  {
    hide WellFormed;
    if m.nodes[n].kids != map[] {
      var s :| s in m.nodes[n].kids;
      assert HasKid(m, n, s, m.nodes[n].kids[s]);
      assert Edge(n, s, m.nodes[n].kids[s]) in kids;
    }
    if e :| e in kids && e.dir == n {
      assert HasKid(m, e.dir, e.name, e.child);
    }
  }

  lemma ShapeLeast(m: Graph, kids: set<Edge>, entries: set<Edge>, reg: map<Ino, Addr>, inos: map<Addr, Ino>,
                   lookups: map<Addr, nat>, dirs: set<Addr>, n: Addr, dead: set<Addr>)
    requires Shape(m, kids, entries, reg, inos, lookups, dirs)
    requires n in dead && dead <= inos.Keys && ShapeDead(kids, entries, lookups, n, dead)
    ensures Least(m, n, dead)
  {
    hide WellFormed;
    forall c, s, p | c in dead && HasEntry(m, c, s, p) && Starved(m, p, dead) ensures p in dead {
      assert Edge(p, s, c) in entries;
    }
    forall other | Closed(m, n, other) ensures dead <= other {
      forall q | q in dead && q != n ensures q in other {
        assert HasEntry(m, n, "x", q);
        forall s | s in m.nodes[q].kids ensures m.nodes[q].kids[s] in other {
          assert HasKid(m, q, s, m.nodes[q].kids[s]);
          assert Edge(q, s, m.nodes[q].kids[s]) in kids;
        }
      }
    }
  }

  lemma CollapseBumps(m: Graph, h: Graph, dead: set<Addr>)
    requires m.nodes.Keys == m.rev.Keys && h.nodes == Collapse(m.nodes, dead)
             && h.rev == map x | x in m.rev :: m.rev[x] + 1
    ensures Bumps(m, h)
  {
  }

  lemma CollapseShape(m: Graph, h: Graph, kids: set<Edge>, entries: set<Edge>, reg: map<Ino, Addr>,
                      inos: map<Addr, Ino>,
                      lookups: map<Addr, nat>, dirs: set<Addr>, dead: set<Addr>,
                      kids': set<Edge>, entries': set<Edge>, reg': map<Ino, Addr>)
    requires Shape(m, kids, entries, reg, inos, lookups, dirs) && dead <= m.nodes.Keys
    requires WellFormed(h) && h.nodes == Collapse(m.nodes, dead) && h.reg == RegOutside(m, dead)
    requires forall e :: e in kids' <==> e in kids && e.child !in dead
    requires forall e :: e in entries' <==> e in entries && e.child !in dead
    requires forall i :: i in reg' <==> i in reg && forall q :: q in dead ==> inos[q] != i
    requires forall i :: i in reg' ==> reg'[i] == reg[i]
    ensures Shape(h, kids', entries', reg', inos, lookups, dirs)
  {
    hide WellFormed;
    CollapseEdges(m, h, dead);
    assert h.reg == reg';
  }

  // ----- the run -----

  const P1 := Edge(0, "p", 1)
  const X2 := Edge(1, "x", 2)
  const X3 := Edge(1, "x", 3)
  const Q4 := Edge(0, "q", 4)

  const EVENTS := [
    Lookup(1, "p", Some((2, true))),
    Lookup(2, "x", Some((3, false))),
    Lookup(2, "x", Some((4, false))),
    Forget(2, 1),
    Forget(4, 1),
    Lookup(1, "q", Some((2, true))),
    Forget(3, 1)]

  lemma InitialShape()
    ensures Shape(Initial(0), {}, {}, map[1 := 0], map[0 := 1], map[0 := 1], {0})
  {
  }

  const DIRS: set<Addr> := {0, 1}
  const REG3: map<Ino, Addr> := map[1 := 0, 2 := 1, 3 := 2, 4 := 3]
  const INOS3: map<Addr, Ino> := map[0 := 1, 1 := 2, 2 := 3, 3 := 4]
  const COUNTS3: map<Addr, nat> := map[0 := 1, 1 := 1, 2 := 1, 3 := 1]
  const COUNTS5: map<Addr, nat> := map[0 := 1, 1 := 0, 2 := 1, 3 := 0]

  lemma Lookup1() returns (g: Graph)
    ensures WellFormed(Initial(0)) && Transition(Initial(0), EVENTS[0], g)
    ensures Shape(g, {P1}, {P1}, map[1 := 0, 2 := 1], map[0 := 1, 1 := 2], map[0 := 1, 1 := 1], DIRS)
  {
    hide WellFormed, Initial, Shape, Transition;
    InitialShape();
    g := AddShape(Initial(0), {}, {}, map[1 := 0], map[0 := 1], map[0 := 1], {0}, 0, "p", 2, true, 1, {P1}, 1);
    assert {} + {P1} == {P1} && {0} + {1} == DIRS;
  }

  lemma Lookup2(g1: Graph) returns (g: Graph)
    requires Shape(g1, {P1}, {P1}, map[1 := 0, 2 := 1], map[0 := 1, 1 := 2], map[0 := 1, 1 := 1], DIRS)
    ensures WellFormed(g1) && Transition(g1, EVENTS[1], g)
    ensures Shape(g, {P1, X2}, {P1, X2}, map[1 := 0, 2 := 1, 3 := 2], map[0 := 1, 1 := 2, 2 := 3],
                  map[0 := 1, 1 := 1, 2 := 1], DIRS)
  {
    hide WellFormed, Shape, Transition;
    g := AddShape(g1, {P1}, {P1}, map[1 := 0, 2 := 1], map[0 := 1, 1 := 2], map[0 := 1, 1 := 1], DIRS,
                  1, "x", 3, false, 2, {P1, X2}, 2);
    assert {P1} + {X2} == {P1, X2} && DIRS + {} == DIRS;
  }

  /** Inode 4 displaces inode 3 from the slot "x" of inode 2. */
  lemma Lookup3(g2: Graph) returns (g: Graph)
    requires Shape(g2, {P1, X2}, {P1, X2}, map[1 := 0, 2 := 1, 3 := 2], map[0 := 1, 1 := 2, 2 := 3],
                   map[0 := 1, 1 := 1, 2 := 1], DIRS)
    ensures WellFormed(g2) && Transition(g2, EVENTS[2], g)
    ensures Shape(g, {P1, X3}, {P1, X2, X3}, REG3, INOS3, COUNTS3, DIRS)
  {
    hide WellFormed, Shape, Transition;
    g := AddShape(g2, {P1, X2}, {P1, X2}, map[1 := 0, 2 := 1, 3 := 2], map[0 := 1, 1 := 2, 2 := 3],
                  map[0 := 1, 1 := 1, 2 := 1], DIRS, 1, "x", 4, false, 3, {P1, X3}, 2);
    assert {P1, X2} + {X3} == {P1, X2, X3} && DIRS + {} == DIRS;
  }

  /** Inode 2 is forgotten; its child 4 still keeps it. */
  lemma Forget4(g3: Graph) returns (g: Graph)
    requires Shape(g3, {P1, X3}, {P1, X2, X3}, REG3, INOS3, COUNTS3, DIRS)
    ensures WellFormed(g3) && Transition(g3, EVENTS[3], g)
    ensures Shape(g, {P1, X3}, {P1, X2, X3}, REG3, INOS3, COUNTS3[1 := 0], DIRS)
  {
    hide WellFormed, DecStep;
    KnownShape(g3, {P1, X3}, {P1, X2, X3}, REG3, INOS3, COUNTS3, DIRS);
    g := DecStep(g3, 1, 1);
    LowerShape(g3, g, {P1, X3}, {P1, X2, X3}, REG3, INOS3, COUNTS3, DIRS, 1);
    assert X3 in {P1, X3} && X3.dir == 1;
    ForgetTransition(g3, 2, 1, g, false);
  }

  /** Inode 4 is forgotten and removed, and inode 2 with it; the entry of inode 3 is stale. */
  lemma Forget5(g4: Graph) returns (g: Graph)
    requires Shape(g4, {P1, X3}, {P1, X2, X3}, REG3, INOS3, COUNTS3[1 := 0], DIRS)
    ensures WellFormed(g4) && Transition(g4, EVENTS[4], g)
    ensures Shape(g, {}, {X2}, map[1 := 0, 3 := 2], INOS3, COUNTS5, DIRS)
  {
    hide WellFormed, Shape, Transition;
    g := ForgetShape(g4, {P1, X3}, {P1, X2, X3}, REG3, INOS3, COUNTS3[1 := 0], DIRS, 3, {3, 1}, {}, {X2},
                     map[1 := 0, 3 := 2]);
    assert COUNTS3[1 := 0][3 := 0] == COUNTS5;
  }

  /** The number 2 is used again. */
  lemma Lookup6(g5: Graph) returns (g: Graph)
    requires Shape(g5, {}, {X2}, map[1 := 0, 3 := 2], INOS3, COUNTS5, DIRS)
    ensures WellFormed(g5) && Transition(g5, EVENTS[5], g)
    ensures Shape(g, {Q4}, {X2, Q4}, map[1 := 0, 3 := 2, 2 := 4], INOS3[4 := 2], COUNTS5[4 := 1], {0, 1, 4})
  {
    hide WellFormed, Shape, Transition;
    g := AddShape(g5, {}, {X2}, map[1 := 0, 3 := 2], INOS3, COUNTS5, DIRS, 0, "q", 2, true, 4, {Q4}, 1);
    assert {X2} + {Q4} == {X2, Q4} && DIRS + {4} == {0, 1, 4};
  }

  /** Forgetting inode 3 revisits the old directory and deletes its number from the registry. */
  lemma Forget7(g6: Graph) returns (g: Graph)
    requires Shape(g6, {Q4}, {X2, Q4}, map[1 := 0, 3 := 2, 2 := 4], INOS3[4 := 2], COUNTS5[4 := 1], {0, 1, 4})
    ensures WellFormed(g6) && Transition(g6, EVENTS[6], g)
    ensures WellFormed(g) && g.reg == map[1 := 0]
  {
    hide WellFormed, Transition;
    g := ForgetShape(g6, {Q4}, {X2, Q4}, map[1 := 0, 3 := 2, 2 := 4], INOS3[4 := 2], COUNTS5[4 := 1], {0, 1, 4},
                     2, {2, 1}, {Q4}, {Q4}, map[1 := 0]);
  }

  /**
    An obedient run, in which a found entry displaces another, after which the kernel
    holds a reference to inode 2 that the bridge no longer knows: naming it panics.
   */
  lemma LosesInode() returns (gs: seq<Graph>)
    ensures Run(gs, EVENTS) && gs[0] == Initial(0)
    ensures forall i :: 0 <= i < |EVENTS| ==> Obeys(AfterAll(map[1 := 1], EVENTS[..i]), EVENTS[i])
    ensures var k := AfterAll(map[1 := 1], EVENTS);
            && Count(k, 2) == 1 && Obeys(k, Lookup(2, "y", None))
            && WellFormed(gs[7]) && Panics(gs[7], Lookup(2, "y", None))
  {
    hide Transition, WellFormed, Initial, Shape, AfterAll, Obeys;
    var g1 := Lookup1();
    var g2 := Lookup2(g1);
    var g3 := Lookup3(g2);
    var g4 := Forget4(g3);
    var g5 := Forget5(g4);
    var g6 := Lookup6(g5);
    var g7 := Forget7(g6);
    gs := [Initial(0), g1, g2, g3, g4, g5, g6, g7];
    Counts();
  }

  lemma {:induction false} Snoc(k: Held, es: seq<Event>, i: nat)
    requires i < |es|
    ensures AfterAll(k, es[..i + 1]) == After(AfterAll(k, es[..i]), es[i])
  {
    assert es[..i + 1][..i] == es[..i];
  }

  /** What the kernel holds after the first `i` events. */
  function Holds(i: nat): Held {
    if i == 0 then map[1 := 1]
    else if i == 1 then map[1 := 1, 2 := 1]
    else if i == 2 then map[1 := 1, 2 := 1, 3 := 1]
    else if i == 3 then map[1 := 1, 2 := 1, 3 := 1, 4 := 1]
    else if i == 4 then map[1 := 1, 2 := 0, 3 := 1, 4 := 1]
    else if i == 5 then map[1 := 1, 2 := 0, 3 := 1, 4 := 0]
    else if i == 6 then map[1 := 1, 2 := 1, 3 := 1, 4 := 0]
    else map[1 := 1, 2 := 1, 3 := 0, 4 := 0]
  }

  lemma HoldsStep(i: nat)
    requires i < 7
    ensures Holds(i + 1) == After(Holds(i), EVENTS[i])
  {
  }

  lemma HoldsObeys(i: nat)
    requires i < 7
    ensures Obeys(Holds(i), EVENTS[i])
  {
  }

  lemma {:induction false} HoldsAfter(i: nat)
    requires i <= 7
    ensures AfterAll(map[1 := 1], EVENTS[..i]) == Holds(i)
  {
    if i > 0 {
      HoldsAfter(i - 1);
      hide AfterAll, After, Holds;
      Snoc(map[1 := 1], EVENTS, i - 1);
      HoldsStep(i - 1);
    }
  }

  lemma Counts()
    ensures forall i :: 0 <= i < |EVENTS| ==> Obeys(AfterAll(map[1 := 1], EVENTS[..i]), EVENTS[i])
    ensures Count(AfterAll(map[1 := 1], EVENTS), 2) == 1
    ensures Obeys(AfterAll(map[1 := 1], EVENTS), Lookup(2, "y", None))
  {
    hide AfterAll, After;
    forall i | 0 <= i < |EVENTS| ensures Obeys(AfterAll(map[1 := 1], EVENTS[..i]), EVENTS[i]) {
      hide Obeys, Holds;
      HoldsAfter(i);
      HoldsObeys(i);
    }
    HoldsAfter(7);
    assert EVENTS[..7] == EVENTS;
  }
}
