/**
  Any number of threads running the operations of inode.go at once.  A step is one
  lock acquisition, one release, or one section run while its locks are held; a
  thread carries its program counter, its locks and the snapshot it took.
 */
module Protocol {
  import opened Types
  import opened Recency
  import opened InodeGraph
  import opened LockOrder

  type Tid = nat

  /** Where a thread stands.  A counter named for a section is reached with its locks in `want`. */
  datatype Pc =
    | Idle
      // the directory-entry mutex of ReadDirPlus; one inode, as pathOf; the bridge mutex alone
    | EnterDir(file: nat)
    | Peek(n: Addr)
    | MuPeek
      // addChild: locked; registry reread under the bridge mutex; new inode being locked
    | AddLocked(p: Addr, name: string, ino: Ino, dir: bool, child: Option<Addr>)
    | AddRead(p: Addr, name: string, ino: Ino, dir: bool, child: Option<Addr>)
    | AddFresh(p: Addr, name: string, ino: Ino, dir: bool, c: Addr)
      // removeRef: locked; dead; registry entry being deleted; snapshot; group locked
    | RefLocked(n: Addr, k: nat)
    | RefDrop(n: Addr)
    | RefDelete(n: Addr)
    | RefSnap(n: Addr)
    | RefCut(n: Addr, rev: nat, pes: seq<Entry>)
      // rmChild
    | RmSnap(p: Addr, name: string)
    | RmCommit(p: Addr, name: string, rev: nat, c: Addr)
      // mvChild
    | MvSnap(p: Addr, name: string, np: Addr, nname: string, overwrite: bool)
    | MvCommit(p: Addr, name: string, np: Addr, nname: string, overwrite: bool,
               rev: nat, nRev: nat, child: Option<Addr>, dest: Option<Addr>)
      // releasing everything held, then on to `next`
    | Unlock(next: Pc)

  /** `todo` lists the inodes still to be passed to removeRef(n, 0). */
  datatype Thread = Thread(pc: Pc, want: seq<Addr>, held: set<Addr>, mu: bool, entry: Option<nat>, todo: seq<Addr>)

  datatype Crash = Underflow | Changed | NilMap | BadName | BadNumber

  /** `dropped` collects the inodes whose own removeRef deleted their registry entry. */
  datatype State = State(g: Graph, threads: map<Tid, Thread>, dropped: set<Addr>, crash: Option<Crash>)

  datatype Call =
    | AddChild(p: Addr, name: string, ino: Ino, dir: bool)
    | RemoveRef(n: Addr, k: nat)
    | RmChild(p: Addr, name: string)
    | MvChild(p: Addr, name: string, np: Addr, nname: string, overwrite: bool)
    | PathOf(n: Addr)
    | Registry
    | EnterDirCall(file: nat)
    | LeaveDir

  /** What the scheduler, the allocator and map iteration decide. */
  datatype Choice = Go | Begin(call: Call) | Allocate(a: Addr) | Order(pes: seq<Entry>) | Release(l: Addr) | ReleaseMu

  // ----- locks -----

  ghost predicate FreeNode(s: State, l: Addr) {
    forall t :: t in s.threads ==> l !in s.threads[t].held
  }

  ghost predicate FreeMu(s: State) {
    forall t :: t in s.threads ==> !s.threads[t].mu
  }

  ghost predicate FreeEntry(s: State, f: nat) {
    forall t :: t in s.threads ==> s.threads[t].entry != Some(f)
  }

  function Opt(o: Option<Addr>): set<Addr> {
    if o.Some? then {o.value} else {}
  }

  function EntryNodes(pes: seq<Entry>): set<Addr> {
    set e | e in pes :: e.node
  }

  function NodesOf(pes: seq<Entry>): (r: seq<Addr>)
    ensures |r| == |pes| && forall i :: 0 <= i < |pes| ==> r[i] == pes[i].node
  {
    seq(|pes|, i requires 0 <= i < |pes| => pes[i].node)
  }

  /** The inodes a section runs under. */
  function Group(pc: Pc): set<Addr> {
    match pc
    case Peek(n) => {n}
    case AddLocked(p, _, _, _, child) => {p} + Opt(child)
    case AddRead(p, _, _, _, child) => {p} + Opt(child)
    case AddFresh(p, _, _, _, c) => {p, c}
    case RefLocked(n, _) => {n}
    case RefDrop(n) => {n}
    case RefDelete(n) => {n}
    case RefSnap(n) => {n}
    case RefCut(n, _, pes) => {n} + EntryNodes(pes)
    case RmSnap(p, _) => {p}
    case RmCommit(p, _, _, c) => {p, c}
    case MvSnap(p, _, np, _, _) => {p, np}
    case MvCommit(p, _, np, _, _, _, _, child, dest) => {p, np} + Opt(child) + Opt(dest)
    case _ => {}
  }

  ghost function GoTo(th: Thread, pc: Pc): Thread {
    th.(pc := pc, want := Sorted(Group(pc)))
  }

  function Leave(th: Thread, next: Pc): Thread {
    th.(pc := Unlock(next))
  }

  function Done(th: Thread): Thread {
    Leave(th, Idle)
  }

  // ----- the sections -----

  /** What a step of a thread changes: its own record and the shared state. */
  datatype Effect = Effect(th: Thread, g: Graph, dropped: set<Addr>, crash: Option<Crash>)

  function Only(s: State, th: Thread): Option<Effect> {
    Some(Effect(th, s.g, s.dropped, None))
  }

  function Write(s: State, th: Thread, g: Graph): Option<Effect> {
    Some(Effect(th, g, s.dropped, None))
  }

  function Panic(s: State, th: Thread, c: Crash): Option<Effect> {
    Some(Effect(th, s.g, s.dropped, Some(c)))
  }

  ghost function BeginCall(s: State, th: Thread, call: Call): Option<Effect> {
    match call
    case AddChild(p, name, ino, dir) =>
      if p !in s.g.nodes then None
      else if name == "." || name == ".." then Panic(s, th, BadName)
      else Only(s, GoTo(th, AddLocked(p, name, ino, dir, None)))
    case RemoveRef(n, k) => if n in s.g.nodes then Only(s, GoTo(th, RefLocked(n, k))) else None
    case RmChild(p, name) => if p in s.g.nodes then Only(s, GoTo(th, RmSnap(p, name))) else None
    case MvChild(p, name, np, nname, overwrite) =>
      if p in s.g.nodes && np in s.g.nodes then Only(s, GoTo(th, MvSnap(p, name, np, nname, overwrite))) else None
    case PathOf(n) => if n in s.g.nodes then Only(s, GoTo(th, Peek(n))) else None
    case Registry => Only(s, GoTo(th, MuPeek))
    case EnterDirCall(f) => if th.entry.None? then Only(s, GoTo(th, EnterDir(f))) else None
    case LeaveDir => if th.entry.Some? then Only(s, th.(entry := None)) else None
  }

  /** addChild once the child it read is locked and the bridge mutex is held. */
  ghost function AddSection(s: State, th: Thread, ch: Choice): Option<Effect>
    requires th.pc.AddRead? && WellFormed(s.g) && th.pc.p in s.g.nodes
  {
    var AddRead(p, name, ino, dir, child) := th.pc;
    var now := Get(s.g.reg, ino);
    if now != child then Only(s, Leave(th, AddLocked(p, name, ino, dir, now)))
    else if now.None? then
      if ino == 0xFFFF_FFFF_FFFF_FFFF then Panic(s, th, BadNumber)
      else if ch.Allocate? && ch.a !in s.g.nodes then
        Only(s, th.(pc := AddFresh(p, name, ino, dir, ch.a), want := [ch.a]))
      else None
    else if !s.g.nodes[p].dir then Panic(s, th, NilMap)
    else Write(s, Done(th), AddStep(s.g, p, name, ino, dir, 0))
  }

  /** addChild with the new inode, which nobody else can know, locked. */
  ghost function FreshSection(s: State, th: Thread): Option<Effect>
    requires th.pc.AddFresh? && WellFormed(s.g) && th.pc.p in s.g.nodes
  {
    var AddFresh(p, name, ino, dir, c) := th.pc;
    if !s.g.nodes[p].dir then Panic(s, th, NilMap)
    else Write(s, Done(th), AddStep(s.g, p, name, ino, dir, c))
  }

  /** removeRef with the inode locked: the decrement and the liveness test. */
  ghost function RefSection(s: State, th: Thread): Option<Effect>
    requires th.pc.RefLocked? && WellFormed(s.g) && th.pc.n in s.g.nodes
  {
    var RefLocked(n, k) := th.pc;
    if k > s.g.nodes[n].lookups then Panic(s, th, Underflow)
    else
      var g := DecStep(s.g, n, k);
      if Live(g, n) then Write(s, Done(th), g) else Write(s, th.(pc := RefDrop(n)), g)
  }

  /** removeRef with the whole group locked. */
  ghost function CutSection(s: State, th: Thread): Option<Effect>
    requires th.pc.RefCut? && WellFormed(s.g) && th.pc.n in s.g.nodes
    requires forall e :: e in th.pc.pes ==> e.node in s.g.nodes
  {
    var RefCut(n, rev, pes) := th.pc;
    if Wrap(s.g.rev[n]) != Wrap(rev) then Only(s, Leave(th, RefSnap(n)))
    else if s.g.nodes[n].lookups != 0 then Panic(s, th, Changed)
    else Write(s, Done(th.(todo := NodesOf(pes) + th.todo)), CutStep(s.g, n, pes))
  }

  function IfDead(g: Graph, n: Addr): seq<Addr>
    requires n in g.nodes
  {
    if Live(g, n) then [] else [n]
  }

  /** rmChild with parent and child locked. */
  ghost function RmSection(s: State, th: Thread): Option<Effect>
    requires th.pc.RmCommit? && WellFormed(s.g) && th.pc.p in s.g.nodes && th.pc.c in s.g.nodes
  {
    var RmCommit(p, name, rev, child) := th.pc;
    if Wrap(s.g.rev[p]) != Wrap(rev) then Only(s, Leave(th, RmSnap(p, name)))
    else
      var g := InodeGraph.Unlink(s.g, p, name, child);
      Write(s, Done(th.(todo := IfDead(g, p) + th.todo)), g)
  }

  /** mvChild with both directories and both children locked. */
  ghost function MvSection(s: State, th: Thread): Option<Effect>
    requires th.pc.MvCommit? && WellFormed(s.g) && th.pc.p in s.g.nodes && th.pc.np in s.g.nodes
    requires Opt(th.pc.child) <= s.g.nodes.Keys && Opt(th.pc.dest) <= s.g.nodes.Keys
  {
    var MvCommit(p, name, np, nname, overwrite, rev, nRev, child, dest) := th.pc;
    if Wrap(s.g.rev[p]) != Wrap(rev) || Wrap(s.g.rev[np]) != Wrap(nRev) then
      Only(s, Leave(th, MvSnap(p, name, np, nname, overwrite)))
    else if child.Some? && !s.g.nodes[np].dir then Panic(s, th, NilMap)
    else
      assert child.Some? ==> child.value in Opt(child);
      assert dest.Some? ==> dest.value in Opt(dest);
      var g := MvStep(s.g, p, name, np, nname, child, dest);
      MvKeys(s.g, p, name, np, nname, child, dest);
      Write(s, Done(th.(todo := IfDead(g, p) + IfDead(g, np) + th.todo)), g)
  }

  lemma MvKeys(g: Graph, p: Addr, name: string, np: Addr, nname: string, child: Option<Addr>, dest: Option<Addr>)
    requires g.rev.Keys == g.nodes.Keys && p in g.nodes && np in g.nodes
    requires child.Some? ==> child.value in g.nodes
    requires dest.Some? ==> dest.value in g.nodes
    ensures var h := MvStep(g, p, name, np, nname, child, dest); h.nodes.Keys == h.rev.Keys == g.nodes.Keys
  {
  }

  // ----- one step -----

  /** Every address a counter mentions is that of an inode, but for a new one being locked. */
  ghost predicate PcKnown(g: Graph, pc: Pc)
    decreases pc
  {
    match pc
    case Unlock(next) =>
      && PcKnown(g, next) && !next.Unlock? && !next.EnterDir?
      && !next.AddFresh? && !next.AddRead? && !next.RefDrop? && !next.RefDelete?
    case AddFresh(p, _, _, _, c) => p in g.nodes && c !in g.nodes
    case _ => Group(pc) <= g.nodes.Keys
  }

  /** The section at a counter whose locks are all held. */
  ghost function Section(s: State, th: Thread, ch: Choice): Option<Effect>
    requires WellFormed(s.g) && PcKnown(s.g, th.pc)
  {
    match th.pc
    case Idle =>
      if th.todo != [] then
        if th.todo[0] in s.g.nodes then Only(s, GoTo(th.(todo := th.todo[1..]), RefLocked(th.todo[0], 0))) else None
      else if ch.Begin? then BeginCall(s, th, ch.call) else None
    case EnterDir(f) => if FreeEntry(s, f) then Only(s, th.(pc := Idle, entry := Some(f))) else None
    case Peek(_) => Only(s, Done(th))
    case MuPeek => if FreeMu(s) then Only(s, Done(th.(mu := true))) else None
    case AddLocked(p, name, ino, dir, child) =>
      if FreeMu(s) then Only(s, th.(mu := true, pc := AddRead(p, name, ino, dir, child))) else None
    case AddRead(_, _, _, _, _) => assert th.pc.p in Group(th.pc); AddSection(s, th, ch)
    case AddFresh(_, _, _, _, _) => FreshSection(s, th)
    case RefLocked(_, _) => assert th.pc.n in Group(th.pc); RefSection(s, th)
    case RefDrop(n) => if FreeMu(s) then Only(s, th.(mu := true, pc := RefDelete(n))) else None
    case RefDelete(n) =>
      assert n in Group(th.pc);
      Some(Effect(th.(mu := false, pc := RefSnap(n)), Unregister(s.g, s.g.nodes[n].ino), s.dropped + {n}, None))
    case RefSnap(n) =>
      assert n in Group(th.pc);
      if ch.Order? && multiset(ch.pes) == multiset(s.g.nodes[n].parents)
      then Only(s, Leave(th, RefCut(n, s.g.rev[n], ch.pes))) else None
    case RefCut(_, _, pes) =>
      assert th.pc.n in Group(th.pc) && forall e :: e in pes ==> e.node in EntryNodes(pes);
      CutSection(s, th)
    case RmSnap(p, name) =>
      assert p in Group(th.pc);
      if name in s.g.nodes[p].kids then Only(s, Leave(th, RmCommit(p, name, s.g.rev[p], s.g.nodes[p].kids[name])))
      else Only(s, Done(th))
    case RmCommit(p, _, _, c) => assert p in Group(th.pc) && c in Group(th.pc); RmSection(s, th)
    case MvSnap(p, name, np, nname, overwrite) =>
      assert p in Group(th.pc) && np in Group(th.pc);
      var child, dest := Get(s.g.nodes[p].kids, name), Get(s.g.nodes[np].kids, nname);
      if dest.Some? && !overwrite then Only(s, Done(th))
      else Only(s, Leave(th, MvCommit(p, name, np, nname, overwrite, s.g.rev[p], s.g.rev[np], child, dest)))
    case MvCommit(p, _, np, _, _, _, _, _, _) => assert p in Group(th.pc) && np in Group(th.pc); MvSection(s, th)
    case Unlock(next) =>
      if ch.Release? && ch.l in th.held then Only(s, th.(held := th.held - {ch.l}))
      else if ch.ReleaseMu? && th.mu then Only(s, th.(mu := false))
      else if th.held == {} && !th.mu then Only(s, GoTo(th, next))
      else None
  }

  /** One step of thread `t`: the next lock it wants, or its section. */
  ghost function Step(s: State, t: Tid, ch: Choice): Option<Effect>
    requires WellFormed(s.g) && t in s.threads && PcKnown(s.g, s.threads[t].pc)
  {
    var th := s.threads[t];
    if s.crash.Some? then None
    else if th.want != [] then
      if FreeNode(s, th.want[0]) then Only(s, th.(held := th.held + {th.want[0]}, want := th.want[1..])) else None
    else Section(s, th, ch)
  }

  function Apply(s: State, t: Tid, e: Effect): State {
    State(e.g, s.threads[t := e.th], e.dropped, e.crash)
  }

  ghost predicate Next(s: State, t: Tid, ch: Choice, s': State) {
    && WellFormed(s.g) && t in s.threads && PcKnown(s.g, s.threads[t].pc)
    && Step(s, t, ch).Some? && s' == Apply(s, t, Step(s, t, ch).value)
  }

  /** Every thread idle, nothing locked. */
  ghost predicate Init(s: State) {
    && WellFormed(s.g) && s.crash.None? && s.dropped == {}
    && forall t :: t in s.threads ==> s.threads[t] == Thread(Idle, [], {}, false, None, [])
  }
}
