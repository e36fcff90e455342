/**
  The inode graph as a value: one record per inode object, the registry, and the
  number of times each inode was modified.  Every locked section of inode.go is a
  function on it, shared by the classes and by the interleaving of threads.
 */
module InodeGraph {
  import opened Types
  import opened Recency

  /** `dir` says that the children map has been made; `parents` is most recent first. */
  datatype Node = Node(ino: Ino, lookups: nat, dir: bool, kids: map<string, Addr>, parents: seq<Entry>)

  /** `rev` counts modifications without wrapping; the source keeps `Wrap(rev[n])`. */
  datatype Graph = Graph(nodes: map<Addr, Node>, reg: map<Ino, Addr>, rev: map<Addr, nat>)

  // ----- observations -----

  predicate HasKid(g: Graph, d: Addr, s: string, c: Addr) {
    d in g.nodes && s in g.nodes[d].kids && g.nodes[d].kids[s] == c
  }

  predicate HasEntry(g: Graph, c: Addr, s: string, d: Addr) {
    c in g.nodes && Entry(s, d) in g.nodes[c].parents
  }

  predicate Live(g: Graph, n: Addr)
    requires n in g.nodes
  {
    g.nodes[n].lookups > 0 || g.nodes[n].kids != map[]
  }

  /** Every reference is to a known inode, and parent entries name directories. */
  ghost predicate WellFormed(g: Graph) {
    && g.rev.Keys == g.nodes.Keys
    && (forall i :: i in g.reg ==> g.reg[i] in g.nodes && g.nodes[g.reg[i]].ino == i)
    && (forall n :: n in g.nodes ==> NoDup(g.nodes[n].parents) && (!g.nodes[n].dir ==> g.nodes[n].kids == map[]))
    && (forall d, s, c :: HasKid(g, d, s, c) ==> c in g.nodes)
    && (forall d, s, c :: HasEntry(g, c, s, d) ==> d in g.nodes && g.nodes[d].dir)
  }

  /** A child edge is matched by a parent entry. */
  ghost predicate Forward(g: Graph) {
    forall d, s, c :: HasKid(g, d, s, c) ==> HasEntry(g, c, s, d)
  }

  /** The two edge directions agree. */
  ghost predicate Symmetric(g: Graph) {
    forall d, s, c :: HasKid(g, d, s, c) <==> HasEntry(g, c, s, d)
  }

  ghost predicate Registered(g: Graph, n: Addr)
    requires n in g.nodes
  {
    g.nodes[n].ino in g.reg && g.reg[g.nodes[n].ino] == n
  }

  /** Every inode that is looked up or linked is the registered one of its number. */
  ghost predicate Complete(g: Graph) {
    forall n :: n in g.nodes && (Live(g, n) || g.nodes[n].parents != []) ==> Registered(g, n)
  }

  /** No registered inode is garbage. */
  ghost predicate NoGarbage(g: Graph) {
    forall i :: i in g.reg && g.reg[i] in g.nodes ==> Live(g, g.reg[i])
  }

  /** What sequential use with coherent adds maintains. */
  ghost predicate Coherent(g: Graph) {
    WellFormed(g) && Symmetric(g) && Complete(g)
  }

  // ----- single assignments -----

  function Bump(g: Graph, n: Addr): Graph
    requires n in g.rev
  {
    g.(rev := g.rev[n := g.rev[n] + 1])
  }

  function SetLookups(g: Graph, n: Addr, k: nat): Graph
    requires n in g.nodes
  {
    g.(nodes := g.nodes[n := g.nodes[n].(lookups := k)])
  }

  function SetKid(g: Graph, d: Addr, s: string, c: Addr): Graph
    requires d in g.nodes
  {
    g.(nodes := g.nodes[d := g.nodes[d].(kids := g.nodes[d].kids[s := c])])
  }

  function DelKid(g: Graph, d: Addr, s: string): Graph
    requires d in g.nodes
  {
    g.(nodes := g.nodes[d := g.nodes[d].(kids := g.nodes[d].kids - {s})])
  }

  function AddParent(g: Graph, c: Addr, e: Entry): Graph
    requires c in g.nodes
  {
    g.(nodes := g.nodes[c := g.nodes[c].(parents := MoveToFront(g.nodes[c].parents, e))])
  }

  function DelParent(g: Graph, c: Addr, e: Entry): Graph
    requires c in g.nodes
  {
    g.(nodes := g.nodes[c := g.nodes[c].(parents := Remove(g.nodes[c].parents, e))])
  }

  function ClearParents(g: Graph, c: Addr): Graph
    requires c in g.nodes
  {
    g.(nodes := g.nodes[c := g.nodes[c].(parents := [])])
  }

  function Register(g: Graph, i: Ino, n: Addr): Graph {
    g.(reg := g.reg[i := n])
  }

  function Unregister(g: Graph, i: Ino): Graph {
    g.(reg := g.reg - {i})
  }

  function NewNode(g: Graph, n: Addr, ino: Ino, dir: bool): Graph {
    g.(nodes := g.nodes[n := Node(ino, 0, dir, map[], [])], rev := g.rev[n := 0])
  }

  // ----- the locked sections -----

  /** Takes one child edge out of a directory, in both directions. */
  function Unlink(g: Graph, p: Addr, name: string, c: Addr): Graph
    requires g.rev.Keys == g.nodes.Keys && p in g.nodes && c in g.nodes
  {
    Bump(Bump(DelParent(DelKid(g, p, name), c, Entry(name, p)), p), c)
  }

  /** Puts one child edge into a directory, in both directions. */
  function Link(g: Graph, p: Addr, name: string, c: Addr): Graph
    requires g.rev.Keys == g.nodes.Keys && p in g.nodes && c in g.nodes
  {
    Bump(Bump(AddParent(SetKid(g, p, name, c), c, Entry(name, p)), p), c)
  }

  /** The inode addChild ends up with: the registered one, or a new one at `spare`. */
  function ChildFor(g: Graph, ino: Ino, spare: Addr): Addr {
    if ino in g.reg then g.reg[ino] else spare
  }

  /** addChild up to the registration: one more lookup of the child. */
  function LookupStep(g: Graph, ino: Ino, dir: bool, spare: Addr): Graph
    requires g.rev.Keys == g.nodes.Keys
    requires ino in g.reg ==> g.reg[ino] in g.nodes
  {
    var c := ChildFor(g, ino, spare);
    var g := if ino in g.reg then g else NewNode(g, c, ino, dir);
    Register(Bump(SetLookups(g, c, Wrap(g.nodes[c].lookups + 1)), c), ino, c)
  }

  /** The locked section of addChild, once the right child (or none) is locked. */
  function AddStep(g: Graph, p: Addr, name: string, ino: Ino, dir: bool, spare: Addr): Graph
    requires g.rev.Keys == g.nodes.Keys && p in g.nodes
    requires ino in g.reg ==> g.reg[ino] in g.nodes
  {
    Link(LookupStep(g, ino, dir, spare), p, name, ChildFor(g, ino, spare))
  }

  /** The decrement of removeRef; nothing changes when nothing is subtracted. */
  function DecStep(g: Graph, n: Addr, k: nat): Graph
    requires g.rev.Keys == g.nodes.Keys && n in g.nodes && k <= g.nodes[n].lookups
  {
    if k > 0 then Bump(SetLookups(g, n, g.nodes[n].lookups - k), n) else g
  }

  /** Removes the listed child edges that still lead to `n`. */
  function CutEdges(g: Graph, n: Addr, pes: seq<Entry>): (r: Graph)
    requires g.rev.Keys == g.nodes.Keys
    requires forall e :: e in pes ==> e.node in g.nodes
    ensures r.rev.Keys == r.nodes.Keys == g.nodes.Keys
    decreases |pes|
  {
    if pes == [] then g
    else
      var e := pes[0];
      var g := if HasKid(g, e.node, e.name, n) then Bump(DelKid(g, e.node, e.name), e.node) else g;
      CutEdges(g, n, pes[1..])
  }

  /** The group-locked section of removeRef. */
  function CutStep(g: Graph, n: Addr, pes: seq<Entry>): (r: Graph)
    requires g.rev.Keys == g.nodes.Keys && n in g.nodes
    requires forall e :: e in pes ==> e.node in g.nodes
    ensures r.rev.Keys == r.nodes.Keys == g.nodes.Keys
  {
    Bump(ClearParents(CutEdges(g, n, pes), n), n)
  }

  /** The group-locked section of mvChild, for the children read beforehand. */
  function MvStep(g: Graph, p: Addr, name: string, np: Addr, nname: string,
                  child: Option<Addr>, dest: Option<Addr>): Graph
    requires g.rev.Keys == g.nodes.Keys && p in g.nodes && np in g.nodes
    requires child.Some? ==> child.value in g.nodes
    requires dest.Some? ==> dest.value in g.nodes
  {
    var g := if child.Some? then Unlink(g, p, name, child.value) else g;
    var g := if dest.Some? then Unlink(g, np, nname, dest.value) else g;
    if child.Some? then Link(g, np, nname, child.value) else g
  }

  // ----- what the sections do to the two edge directions -----

  /** `h` keeps every inode of `g`, its number and kind, and no revision goes back. */
  ghost predicate Extends(g: Graph, h: Graph) {
    && g.nodes.Keys <= h.nodes.Keys
    && g.rev.Keys <= h.rev.Keys
    && (forall n :: n in g.nodes ==> h.nodes[n].ino == g.nodes[n].ino && h.nodes[n].dir == g.nodes[n].dir)
    && (forall n :: n in g.rev ==> g.rev[n] <= h.rev[n])
  }

  /** Whatever changed an inode also raised its revision. */
  ghost predicate Bumps(g: Graph, h: Graph) {
    && Extends(g, h)
    && (forall n :: n in g.nodes && n in g.rev && h.rev[n] == g.rev[n] ==> h.nodes[n] == g.nodes[n])
  }

  /** The records of `h` are those of `g` with one slot of `p` and the parents of `c` replaced. */
  ghost predicate Relinked(g: Graph, h: Graph, p: Addr, kids: map<string, Addr>, c: Addr, parents: seq<Entry>)
    requires g.rev.Keys == g.nodes.Keys && p in g.nodes && c in g.nodes
  {
    && h.reg == g.reg
    && h.nodes.Keys == h.rev.Keys == g.nodes.Keys
    && (forall n :: n in g.nodes ==>
          && h.nodes[n].ino == g.nodes[n].ino
          && h.nodes[n].dir == g.nodes[n].dir
          && h.nodes[n].lookups == g.nodes[n].lookups
          && h.nodes[n].kids == (if n == p then kids else g.nodes[n].kids)
          && h.nodes[n].parents == (if n == c then parents else g.nodes[n].parents)
          && h.rev[n] == g.rev[n] + (if n == p then 1 else 0) + (if n == c then 1 else 0))
  }

  lemma LinkRecords(g: Graph, p: Addr, name: string, c: Addr)
    requires g.rev.Keys == g.nodes.Keys && p in g.nodes && c in g.nodes
    ensures Relinked(g, Link(g, p, name, c), p, g.nodes[p].kids[name := c],
                     c, MoveToFront(g.nodes[c].parents, Entry(name, p)))
  {
  }

  lemma UnlinkRecords(g: Graph, p: Addr, name: string, c: Addr)
    requires g.rev.Keys == g.nodes.Keys && p in g.nodes && c in g.nodes
    ensures Relinked(g, Unlink(g, p, name, c), p, g.nodes[p].kids - {name},
                     c, Remove(g.nodes[c].parents, Entry(name, p)))
  {
  }

  lemma RelinkedEdges(g: Graph, h: Graph, p: Addr, kids: map<string, Addr>, c: Addr, parents: seq<Entry>)
    requires g.rev.Keys == g.nodes.Keys && p in g.nodes && c in g.nodes
    requires Relinked(g, h, p, kids, c, parents)
    ensures Bumps(g, h)
    ensures forall d, s, x :: HasKid(h, d, s, x) <==> if d == p then s in kids && kids[s] == x else HasKid(g, d, s, x)
    ensures forall d, s, x :: HasEntry(h, x, s, d) <==> if x == c then Entry(s, d) in parents else HasEntry(g, x, s, d)
  {
  }

  lemma RelinkedWellFormed(g: Graph, h: Graph, p: Addr, kids: map<string, Addr>, c: Addr, parents: seq<Entry>)
    requires WellFormed(g) && p in g.nodes && c in g.nodes
    requires Relinked(g, h, p, kids, c, parents)
    requires NoDup(parents) && (kids != map[] ==> g.nodes[p].dir)
    requires forall s :: s in kids ==> kids[s] in g.nodes
    requires forall e :: e in parents ==> e.node in g.nodes && g.nodes[e.node].dir
    ensures WellFormed(h)
  {
    RelinkedEdges(g, h, p, kids, c, parents);
    forall d, s, x | HasEntry(h, x, s, d) ensures d in h.nodes && h.nodes[d].dir {
      if x == c {
        assert Entry(s, d) in parents;
      } else {
        assert HasEntry(g, x, s, d);
      }
    }
    forall d, s, x | HasKid(h, d, s, x) ensures x in h.nodes {
      if d != p {
        assert HasKid(g, d, s, x);
      }
    }
  }

  /** One slot of `p` is set to `c` and the entry recorded. */
  ghost predicate Linked(g: Graph, h: Graph, p: Addr, name: string, c: Addr) {
    && (forall d, s, x :: HasKid(h, d, s, x) <==> if d == p && s == name then x == c else HasKid(g, d, s, x))
    && (forall d, s, x :: HasEntry(h, x, s, d) <==> HasEntry(g, x, s, d) || (x == c && s == name && d == p))
  }

  /** One slot of `p` is emptied and the entry of `c` dropped. */
  ghost predicate Unlinked(g: Graph, h: Graph, p: Addr, name: string, c: Addr) {
    && (forall d, s, x :: HasKid(h, d, s, x) <==> HasKid(g, d, s, x) && !(d == p && s == name))
    && (forall d, s, x :: HasEntry(h, x, s, d) <==> HasEntry(g, x, s, d) && !(x == c && s == name && d == p))
  }

  /** After linking, the two records still refer to known inodes. */
  lemma LinkRefers(g: Graph, p: Addr, name: string, c: Addr)
    requires WellFormed(g) && p in g.nodes && c in g.nodes && g.nodes[p].dir
    ensures var kids := g.nodes[p].kids[name := c]; forall s :: s in kids ==> kids[s] in g.nodes
    ensures var parents := MoveToFront(g.nodes[c].parents, Entry(name, p));
            NoDup(parents) && forall e :: e in parents ==> e.node in g.nodes && g.nodes[e.node].dir
  {
    var kids, parents := g.nodes[p].kids[name := c], MoveToFront(g.nodes[c].parents, Entry(name, p));
    forall s | s in kids ensures kids[s] in g.nodes {
      assert s == name || HasKid(g, p, s, kids[s]);
    }
    forall e | e in parents ensures e.node in g.nodes && g.nodes[e.node].dir {
      assert e == Entry(name, p) || HasEntry(g, c, e.name, e.node);
    }
  }

  lemma LinkEffect(g: Graph, h: Graph, p: Addr, name: string, c: Addr)
    requires WellFormed(g) && p in g.nodes && c in g.nodes && g.nodes[p].dir
    requires h == Link(g, p, name, c)
    ensures WellFormed(h) && Bumps(g, h) && Linked(g, h, p, name, c)
    ensures p in h.rev && c in h.rev && h.rev[p] > g.rev[p] && h.rev[c] > g.rev[c]
  {
    hide NoDup, Link, MoveToFront, Relinked, Bumps, Linked, HasKid, HasEntry;
    LinkRecords(g, p, name, c);
    var kids, parents := g.nodes[p].kids[name := c], MoveToFront(g.nodes[c].parents, Entry(name, p));
    LinkRefers(g, p, name, c);
    RelinkedEdges(g, h, p, kids, c, parents);
    RelinkedWellFormed(g, h, p, kids, c, parents);
    RelinkedRaises(g, h, p, kids, c, parents);
    RelinkedIsLinked(g, h, p, name, c);
  }

  lemma RelinkedRaises(g: Graph, h: Graph, p: Addr, kids: map<string, Addr>, c: Addr, parents: seq<Entry>)
    requires g.rev.Keys == g.nodes.Keys && p in g.nodes && c in g.nodes && Relinked(g, h, p, kids, c, parents)
    ensures p in h.rev && c in h.rev && h.rev[p] > g.rev[p] && h.rev[c] > g.rev[c]
  {
  }

  lemma RelinkedIsLinked(g: Graph, h: Graph, p: Addr, name: string, c: Addr)
    requires g.rev.Keys == g.nodes.Keys && p in g.nodes && c in g.nodes
    requires Relinked(g, h, p, g.nodes[p].kids[name := c], c, MoveToFront(g.nodes[c].parents, Entry(name, p)))
    ensures Linked(g, h, p, name, c)
  {
    hide MoveToFront;
  }

  lemma RelinkedIsUnlinked(g: Graph, h: Graph, p: Addr, name: string, c: Addr)
    requires g.rev.Keys == g.nodes.Keys && p in g.nodes && c in g.nodes
    requires Relinked(g, h, p, g.nodes[p].kids - {name}, c, Remove(g.nodes[c].parents, Entry(name, p)))
    ensures Unlinked(g, h, p, name, c)
  {
  }

  /** After unlinking, the two records still refer to known inodes. */
  lemma UnlinkRefers(g: Graph, p: Addr, name: string, c: Addr)
    requires WellFormed(g) && p in g.nodes && c in g.nodes
    ensures var kids := g.nodes[p].kids - {name}; forall s :: s in kids ==> kids[s] in g.nodes
    ensures var parents := Remove(g.nodes[c].parents, Entry(name, p));
            NoDup(parents) && forall e :: e in parents ==> e.node in g.nodes && g.nodes[e.node].dir
  {
    var kids, parents := g.nodes[p].kids - {name}, Remove(g.nodes[c].parents, Entry(name, p));
    forall s | s in kids ensures kids[s] in g.nodes {
      assert HasKid(g, p, s, kids[s]);
    }
    forall e | e in parents ensures e.node in g.nodes && g.nodes[e.node].dir {
      assert HasEntry(g, c, e.name, e.node);
    }
  }

  lemma UnlinkEffect(g: Graph, h: Graph, p: Addr, name: string, c: Addr)
    requires WellFormed(g) && p in g.nodes && c in g.nodes
    requires h == Unlink(g, p, name, c)
    ensures WellFormed(h) && Bumps(g, h) && Unlinked(g, h, p, name, c)
    ensures p in h.rev && c in h.rev && h.rev[p] > g.rev[p] && h.rev[c] > g.rev[c]
  {
    hide NoDup, Unlink, Remove, Relinked, Bumps, Unlinked, HasKid, HasEntry;
    UnlinkRecords(g, p, name, c);
    var kids, parents := g.nodes[p].kids - {name}, Remove(g.nodes[c].parents, Entry(name, p));
    UnlinkRefers(g, p, name, c);
    RelinkedEdges(g, h, p, kids, c, parents);
    RelinkedWellFormed(g, h, p, kids, c, parents);
    RelinkedRaises(g, h, p, kids, c, parents);
    RelinkedIsUnlinked(g, h, p, name, c);
  }

  lemma BumpsTrans(a: Graph, b: Graph, c: Graph)
    requires Bumps(a, b) && Bumps(b, c) && a.rev.Keys == a.nodes.Keys && b.rev.Keys == b.nodes.Keys
    ensures Bumps(a, c)
  {
  }

  // ----- addChild -----

  ghost predicate Spare(g: Graph, ino: Ino, spare: Addr) {
    ino in g.reg || (spare !in g.nodes && spare !in g.rev)
  }

  /** Only the child's lookup count and revision move; a new child starts out unlinked. */
  ghost predicate LookedUp(g: Graph, h: Graph, ino: Ino, c: Addr) {
    && h.reg == g.reg[ino := c]
    && c in h.nodes && h.nodes[c].ino == ino
    && h.nodes.Keys == h.rev.Keys == g.nodes.Keys + {c}
    && (forall n :: n in g.nodes && n in g.rev && n != c ==> h.nodes[n] == g.nodes[n] && h.rev[n] == g.rev[n])
    && (if c in g.nodes && c in g.rev then
          h.nodes[c] == g.nodes[c].(lookups := Wrap(g.nodes[c].lookups + 1)) && h.rev[c] == g.rev[c] + 1
        else
          h.nodes[c].lookups == 1 && h.nodes[c].kids == map[] && h.nodes[c].parents == [])
  }

  lemma LookupRecords(g: Graph, ino: Ino, dir: bool, spare: Addr)
    requires WellFormed(g) && Spare(g, ino, spare)
    ensures LookedUp(g, LookupStep(g, ino, dir, spare), ino, ChildFor(g, ino, spare))
  {
    var c := ChildFor(g, ino, spare);
    var g1 := if ino in g.reg then g else NewNode(g, c, ino, dir);
    var g2 := SetLookups(g1, c, Wrap(g1.nodes[c].lookups + 1));
    assert LookupStep(g, ino, dir, spare) == Register(Bump(g2, c), ino, c);
  }

  lemma LookedUpEdges(g: Graph, h: Graph, ino: Ino, c: Addr)
    requires g.rev.Keys == g.nodes.Keys && LookedUp(g, h, ino, c)
    ensures forall d, s, x :: HasKid(h, d, s, x) <==> HasKid(g, d, s, x)
    ensures forall d, s, x :: HasEntry(h, x, s, d) <==> HasEntry(g, x, s, d)
  {
  }

  lemma LookupEffect(g: Graph, h: Graph, ino: Ino, c: Addr)
    requires WellFormed(g) && LookedUp(g, h, ino, c)
    requires c in g.nodes ==> g.nodes[c].ino == ino
    ensures WellFormed(h) && Bumps(g, h)
  {
    LookedUpEdges(g, h, ino, c);
    forall n | n in h.nodes
      ensures NoDup(h.nodes[n].parents) && (!h.nodes[n].dir ==> h.nodes[n].kids == map[])
      ensures n in g.nodes ==> h.nodes[n].dir == g.nodes[n].dir && h.nodes[n].ino == g.nodes[n].ino
    {
      if n == c { assert n in g.nodes ==> h.nodes[n] == g.nodes[c].(lookups := Wrap(g.nodes[c].lookups + 1)); }
    }
    forall i | i in h.reg ensures h.reg[i] in h.nodes && h.nodes[h.reg[i]].ino == i {
      if i != ino { assert i in g.reg; }
    }
    forall d, s, x | HasEntry(h, x, s, d) ensures d in h.nodes && h.nodes[d].dir {
      assert HasEntry(g, x, s, d);
    }
    forall d, s, x | HasKid(h, d, s, x) ensures x in h.nodes {
      assert HasKid(g, d, s, x);
    }
  }

  /** One more lookup (modulo the width of the counter) of the inode registered under `ino`. */
  ghost predicate Counted(g: Graph, h: Graph, ino: Ino, c: Addr) {
    && h.reg == g.reg[ino := c]
    && h.nodes.Keys == g.nodes.Keys + {c} && h.nodes[c].ino == ino
    && h.nodes[c].lookups == (if c in g.nodes then Wrap(g.nodes[c].lookups + 1) else 1)
    && (forall n :: n in g.nodes && n != c ==> h.nodes[n].lookups == g.nodes[n].lookups)
  }

  lemma AddInStages(g: Graph, m: Graph, h: Graph, p: Addr, name: string, ino: Ino, c: Addr)
    requires WellFormed(g) && LookedUp(g, m, ino, c) && (c in g.nodes ==> g.nodes[c].ino == ino)
    requires p in g.nodes && g.nodes[p].dir && p in m.nodes
    requires h == Link(m, p, name, c)
    ensures WellFormed(h) && Bumps(g, h) && Linked(g, h, p, name, c) && Counted(g, h, ino, c)
  {
    LookupEffect(g, m, ino, c);
    LinkEffect(m, h, p, name, c);
    LinkRecords(m, p, name, c);
    BumpsTrans(g, m, h);
    LookedUpThenLinked(g, m, h, p, name, ino, c);
  }

  /** addChild: the slot leads to the child, the child knows it, and the child has one more lookup. */
  lemma AddEffect(g: Graph, h: Graph, p: Addr, name: string, ino: Ino, dir: bool, spare: Addr)
    requires WellFormed(g) && Spare(g, ino, spare) && p in g.nodes && g.nodes[p].dir
    requires h == AddStep(g, p, name, ino, dir, spare)
    ensures WellFormed(h) && Bumps(g, h)
    ensures Linked(g, h, p, name, ChildFor(g, ino, spare))
    ensures Counted(g, h, ino, ChildFor(g, ino, spare))
  {
    LookupRecords(g, ino, dir, spare);
    AddInStages(g, LookupStep(g, ino, dir, spare), h, p, name, ino, ChildFor(g, ino, spare));
  }

  lemma LookedUpThenLinked(g: Graph, m: Graph, h: Graph, p: Addr, name: string, ino: Ino, c: Addr)
    requires g.rev.Keys == g.nodes.Keys && p in m.nodes && c in m.nodes
    requires LookedUp(g, m, ino, c) && Linked(m, h, p, name, c)
    ensures Linked(g, h, p, name, c)
  {
  }

  // ----- mvChild -----

  /**
    A rename: the target slot leads to the moved child, or is emptied when there
    is no child to move; the source slot is emptied; every other slot is as before.
   */
  ghost predicate Moved(g: Graph, h: Graph, p: Addr, name: string, np: Addr, nname: string)
    requires p in g.nodes && np in g.nodes
  {
    var child, dest := Get(g.nodes[p].kids, name), Get(g.nodes[np].kids, nname);
    && (forall d, s, x: Addr :: HasKid(h, d, s, x) <==>
          if d == np && s == nname then child == Some(x)
          else if d == p && s == name then false
          else HasKid(g, d, s, x))
    && (forall d, s, x: Addr :: HasEntry(h, x, s, d) <==>
          || (child == Some(x) && d == np && s == nname)
          || (HasEntry(g, x, s, d)
              && !(child == Some(x) && d == p && s == name)
              && !(dest == Some(x) && d == np && s == nname)))
  }

  lemma MovedInStages(g: Graph, g1: Graph, g2: Graph, h: Graph, p: Addr, name: string, np: Addr, nname: string)
    requires p in g.nodes && np in g.nodes
    requires var child := Get(g.nodes[p].kids, name);
             if child.Some? then Unlinked(g, g1, p, name, child.value) && Linked(g2, h, np, nname, child.value)
             else g1 == g && h == g2
    requires var dest := Get(g.nodes[np].kids, nname);
             if dest.Some? then Unlinked(g1, g2, np, nname, dest.value) else g2 == g1
    ensures Moved(g, h, p, name, np, nname)
  {
  }

  /** The three edge updates of a rename, for whatever children were read. */
  lemma MvKeepsForm(g: Graph, h: Graph, p: Addr, name: string, np: Addr, nname: string,
                    child: Option<Addr>, dest: Option<Addr>)
    requires WellFormed(g) && p in g.nodes && np in g.nodes && (child.Some? ==> g.nodes[np].dir)
    requires child.Some? ==> child.value in g.nodes
    requires dest.Some? ==> dest.value in g.nodes
    requires h == MvStep(g, p, name, np, nname, child, dest)
    ensures WellFormed(h) && Bumps(g, h)
    ensures Forward(g) ==> Forward(h)
  {
    hide NoDup, Unlink, Link, HasKid, HasEntry;
    var g1 := if child.Some? then Unlink(g, p, name, child.value) else g;
    if child.Some? {
      UnlinkEffect(g, g1, p, name, child.value);
    }
    var g2 := if dest.Some? then Unlink(g1, np, nname, dest.value) else g1;
    if dest.Some? {
      UnlinkEffect(g1, g2, np, nname, dest.value);
    }
    if child.Some? {
      LinkEffect(g2, h, np, nname, child.value);
    }
    BumpsTrans(g, g1, g2);
    BumpsTrans(g, g2, h);
    ForwardInStages(g, g1, g2, h, p, name, np, nname, child, dest);
  }

  lemma ForwardInStages(g: Graph, g1: Graph, g2: Graph, h: Graph, p: Addr, name: string, np: Addr, nname: string,
                        child: Option<Addr>, dest: Option<Addr>)
    requires if child.Some? then Unlinked(g, g1, p, name, child.value) && Linked(g2, h, np, nname, child.value)
             else g1 == g && h == g2
    requires if dest.Some? then Unlinked(g1, g2, np, nname, dest.value) else g2 == g1
    ensures Forward(g) ==> Forward(h)
  {
  }

  lemma MvEffect(g: Graph, h: Graph, p: Addr, name: string, np: Addr, nname: string)
    requires WellFormed(g) && p in g.nodes && np in g.nodes && (name in g.nodes[p].kids ==> g.nodes[np].dir)
    requires name in g.nodes[p].kids ==> g.nodes[p].kids[name] in g.nodes
    requires nname in g.nodes[np].kids ==> g.nodes[np].kids[nname] in g.nodes
    requires h == MvStep(g, p, name, np, nname, Get(g.nodes[p].kids, name), Get(g.nodes[np].kids, nname))
    ensures WellFormed(h) && Bumps(g, h) && Moved(g, h, p, name, np, nname)
  {
    var child, dest := Get(g.nodes[p].kids, name), Get(g.nodes[np].kids, nname);
    var g1 := if child.Some? then Unlink(g, p, name, child.value) else g;
    if child.Some? {
      UnlinkEffect(g, g1, p, name, child.value);
    }
    var g2 := if dest.Some? then Unlink(g1, np, nname, dest.value) else g1;
    if dest.Some? {
      UnlinkEffect(g1, g2, np, nname, dest.value);
    }
    if child.Some? {
      LinkEffect(g2, h, np, nname, child.value);
    }
    BumpsTrans(g, g1, g2);
    BumpsTrans(g, g2, h);
    MovedInStages(g, g1, g2, h, p, name, np, nname);
  }

  /** Renaming keeps the forward law, and exact symmetry. */
  lemma MovedKeepsSymmetry(g: Graph, h: Graph, p: Addr, name: string, np: Addr, nname: string)
    requires p in g.nodes && np in g.nodes && Moved(g, h, p, name, np, nname)
    ensures Forward(g) ==> Forward(h)
    ensures Symmetric(g) ==> Symmetric(h)
  {
  }
}
