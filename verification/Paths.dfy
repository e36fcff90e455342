/**
  Path reconstruction: the walk along newest parents, the path it yields, and how
  lookups, renames and removals change paths.
 */
module Paths {
  import opened Types
  import opened Recency
  import opened InodeGraph
  import opened Splitting
  import opened Cascade

  /** An orphan has a random placeholder for a path; `below` is what comes after it. */
  datatype PathResult = Path(path: string) | Orphaned(ino: Ino, below: string)

  // ----- the walk -----

  /** `c` is the complete walk from `n`: it ends at the root or at an inode without parents. */
  ghost predicate Chain(g: Graph, root: Addr, n: Addr, c: seq<Addr>)
    decreases |c|
  {
    && c != [] && c[0] == n && n in g.nodes
    && if n == root || g.nodes[n].parents == [] then |c| == 1
       else Chain(g, root, g.nodes[n].parents[0].node, c[1..])
  }

  /** The newest names of the listed inodes, the last one first. */
  ghost function Names(g: Graph, l: seq<Addr>): seq<string>
    requires forall x :: x in l ==> x in g.nodes && g.nodes[x].parents != []
  {
    if l == [] then [] else Names(g, l[1..]) + [g.nodes[l[0]].parents[0].name]
  }

  /** The inodes of a walk whose names make up the path. */
  ghost function Named(c: seq<Addr>): seq<Addr>
    requires c != []
  {
    c[..|c| - 1]
  }

  /** The walk from `n` ends. */
  ghost predicate Ends(g: Graph, root: Addr, n: Addr) {
    exists c :: Chain(g, root, n, c)
  }

  ghost predicate Reaches(g: Graph, root: Addr, n: Addr, c: seq<Addr>) {
    Chain(g, root, n, c) && c[|c| - 1] == root
  }

  lemma {:induction false} ChainNodes(g: Graph, root: Addr, n: Addr, c: seq<Addr>)
    requires Chain(g, root, n, c)
    ensures forall x :: x in c ==> x in g.nodes
    ensures forall x :: x in Named(c) ==> g.nodes[x].parents != [] && x != root
    decreases |c|
  {
    if |c| > 1 {
      ChainNodes(g, root, c[1], c[1..]);
      assert Named(c) == [n] + Named(c[1..]);
      assert c == [n] + c[1..];
    } else {
      assert c == [n];
    }
  }

  /** The walk is determined by where it starts. */
  lemma {:induction false} ChainUnique(g: Graph, root: Addr, n: Addr, c: seq<Addr>, d: seq<Addr>)
    requires Chain(g, root, n, c) && Chain(g, root, n, d)
    ensures c == d
    decreases |c|
  {
    if |c| > 1 {
      ChainUnique(g, root, c[1], c[1..], d[1..]);
      assert c == [n] + c[1..] && d == [n] + d[1..];
    }
  }

  /** Every later point of a walk starts the rest of it. */
  lemma {:induction false} ChainSuffix(g: Graph, root: Addr, n: Addr, c: seq<Addr>, k: nat)
    requires Chain(g, root, n, c) && k < |c|
    ensures Chain(g, root, c[k], c[k..])
    decreases |c|
  {
    if k > 0 {
      ChainSuffix(g, root, c[1], c[1..], k - 1);
      assert c[1..][k - 1..] == c[k..];
    } else {
      assert c[0..] == c;
    }
  }

  /** Newest parents rank strictly below: no cycle along newest parents, except through the root. */
  ghost predicate Ranked(g: Graph, root: Addr, rank: map<Addr, nat>) {
    forall n :: n in g.nodes && n != root && g.nodes[n].parents != [] ==>
      var p := g.nodes[n].parents[0].node;
      n in rank && p in g.nodes && (p == root || (p in rank && rank[p] < rank[n]))
  }

  /** Without such cycles every walk ends. */
  lemma {:induction false} ChainExists(g: Graph, root: Addr, n: Addr, rank: map<Addr, nat>) returns (c: seq<Addr>)
    requires Ranked(g, root, rank) && n in g.nodes
    ensures Chain(g, root, n, c)
    decreases if n != root && n in rank then rank[n] + 1 else 0
  {
    c := [n];
    if n != root && g.nodes[n].parents != [] {
      var rest := ChainExists(g, root, g.nodes[n].parents[0].node, rank);
      c := [n] + rest;
      assert c[1..] == rest;
    }
  }

  /** The walk goes on from `x` as before. */
  ghost predicate SameHead(g: Graph, h: Graph, root: Addr, x: Addr) {
    && x in g.nodes && x in h.nodes
    && (x != root ==> if g.nodes[x].parents == [] then h.nodes[x].parents == []
                      else h.nodes[x].parents != [] && h.nodes[x].parents[0] == g.nodes[x].parents[0])
  }

  /** A walk over inodes whose newest parent did not change is still the walk. */
  lemma {:induction false} ChainStable(g: Graph, h: Graph, root: Addr, n: Addr, c: seq<Addr>)
    requires Chain(g, root, n, c)
    requires forall x :: x in c ==> SameHead(g, h, root, x)
    ensures Chain(h, root, n, c)
    ensures forall x :: x in Named(c) ==>
              x in g.nodes && x in h.nodes && g.nodes[x].parents != [] && h.nodes[x].parents != []
    ensures Names(h, Named(c)) == Names(g, Named(c))
    decreases |c|
  {
    assert n in c;
    if |c| > 1 {
      ChainStable(g, h, root, c[1], c[1..]);
      assert Named(c) == [n] + Named(c[1..]);
      assert Named(c)[1..] == Named(c[1..]);
    } else {
      assert Named(c) == [];
    }
  }

  lemma {:induction false} NamesConcat(g: Graph, a: seq<Addr>, b: seq<Addr>)
    requires forall x :: x in a || x in b ==> x in g.nodes && g.nodes[x].parents != []
    ensures forall x :: x in a + b ==> x in g.nodes && g.nodes[x].parents != []
    ensures Names(g, a + b) == Names(g, b) + Names(g, a)
  {
    if a == [] {
      assert a + b == b;
    } else {
      assert (a + b)[1..] == a[1..] + b;
      NamesConcat(g, a[1..], b);
    }
  }

  // ----- paths as strings -----

  function Join(segments: seq<string>): string {
    if segments == [] then ""
    else if |segments| == 1 then segments[0]
    else segments[0] + "/" + Join(segments[1..])
  }

  function ChildPathOf(parent: string, child: string): string {
    if parent == "" then child else parent + "/" + child
  }

  function SplitPath(path: string): seq<string> {
    if path == "" then [] else Split(path, '/')
  }

  predicate GoodName(s: string) {
    s != "" && '/' !in s
  }

  ghost predicate GoodNames(l: seq<string>) {
    forall s :: s in l ==> GoodName(s)
  }

  lemma {:induction false} JoinNonempty(l: seq<string>)
    requires GoodNames(l) && l != []
    ensures Join(l) != ""
  {
    assert l[0] in l;
  }

  /** Splitting a joined path gives the segments back. */
  lemma {:induction false} SplitJoin(l: seq<string>)
    requires GoodNames(l)
    ensures SplitPath(Join(l)) == l
  {
    if l != [] {
      JoinNonempty(l);
      assert l[0] in l;
      if |l| == 1 {
        SplitHead(l[0], '/', "");
      } else {
        SplitJoin(l[1..]);
        JoinNonempty(l[1..]);
        SplitHead(l[0], '/', Join(l[1..]));
        assert l == [l[0]] + l[1..];
      }
    }
  }

  /** Joining one more segment is the path of a child. */
  lemma {:induction false} JoinSnoc(l: seq<string>, s: string)
    requires GoodNames(l)
    ensures Join(l + [s]) == ChildPathOf(Join(l), s)
  {
    if l == [] {
      assert l + [s] == [s];
    } else {
      JoinNonempty(l);
      assert (l + [s])[1..] == l[1..] + [s];
      assert l[0] in l;
      JoinSnoc(l[1..], s);
      if |l| > 1 {
        JoinNonempty(l[1..]);
        assert l[0] + "/" + (Join(l[1..]) + "/" + s) == (l[0] + "/" + Join(l[1..])) + "/" + s;
      } else {
        assert l[1..] == [];
        assert [l[0]] == l;
      }
    }
  }

  // ----- what pathOf answers -----

  /** The answer of pathOf for an inode whose walk is `c`. */
  ghost function PathOf(g: Graph, root: Addr, n: Addr, c: seq<Addr>): PathResult
    requires Chain(g, root, n, c)
  {
    ChainNodes(g, root, n, c);
    if c[|c| - 1] == root then Path(Join(Names(g, Named(c)))) else Orphaned(g.nodes[n].ino, "")
  }

  /** Follows child edges. */
  function Walk(g: Graph, at: Addr, segments: seq<string>): Option<Addr>
    decreases |segments|
  {
    if segments == [] then Some(at)
    else if at in g.nodes && segments[0] in g.nodes[at].kids then Walk(g, g.nodes[at].kids[segments[0]], segments[1..])
    else None
  }

  lemma {:induction false} WalkConcat(g: Graph, at: Addr, a: seq<string>, b: seq<string>)
    ensures Walk(g, at, a + b) == match Walk(g, at, a) case None => None case Some(x) => Walk(g, x, b)
    decreases |a|
  {
    if a == [] {
      assert a + b == b;
    } else {
      assert (a + b)[1..] == a[1..] + b;
      if at in g.nodes && a[0] in g.nodes[at].kids {
        WalkConcat(g, g.nodes[at].kids[a[0]], a[1..], b);
      }
    }
  }

  /** Walking down the names of a chain that reaches the root ends where the chain began. */
  lemma {:induction false} ChainWalk(g: Graph, root: Addr, n: Addr, c: seq<Addr>)
    requires Symmetric(g) && Reaches(g, root, n, c)
    ensures forall x :: x in Named(c) ==> x in g.nodes && g.nodes[x].parents != []
    ensures Walk(g, root, Names(g, Named(c))) == Some(n)
    decreases |c|
  {
    ChainNodes(g, root, n, c);
    if |c| > 1 {
      assert Chain(g, root, g.nodes[n].parents[0].node, c[1..]);
      ChainWalk(g, root, c[1], c[1..]);
      assert Named(c)[1..] == Named(c[1..]);
      var e := g.nodes[n].parents[0];
      WalkConcat(g, root, Names(g, Named(c[1..])), [e.name]);
      assert HasEntry(g, n, e.name, e.node);
      assert HasKid(g, e.node, e.name, n);
    }
  }

  ghost predicate NamesAreGood(g: Graph) {
    forall d, s, c :: HasEntry(g, c, s, d) ==> GoodName(s)
  }

  lemma {:induction false} NamesGood(g: Graph, l: seq<Addr>)
    requires NamesAreGood(g)
    requires forall x :: x in l ==> x in g.nodes && g.nodes[x].parents != []
    ensures GoodNames(Names(g, l))
  {
    if l != [] {
      var e := g.nodes[l[0]].parents[0];
      assert HasEntry(g, l[0], e.name, e.node);
      NamesGood(g, l[1..]);
    }
  }

  /** The path round trip: splitting the path and walking child edges from the root finds the inode. */
  lemma PathRoundTrip(g: Graph, root: Addr, n: Addr, c: seq<Addr>)
    requires Symmetric(g) && NamesAreGood(g) && Chain(g, root, n, c)
    ensures match PathOf(g, root, n, c)
            case Path(path) => Walk(g, root, SplitPath(path)) == Some(n)
            case Orphaned(i, below) => i == g.nodes[n].ino && below == "" && !(exists d :: Reaches(g, root, n, d))
  {
    ChainNodes(g, root, n, c);
    if c[|c| - 1] == root {
      ChainWalk(g, root, n, c);
      NamesGood(g, Named(c));
      SplitJoin(Names(g, Named(c)));
    } else if d :| Reaches(g, root, n, d) {
      ChainUnique(g, root, n, c, d);
    }
  }

  /** Different inodes that reach the root have different paths. */
  lemma PathInjective(g: Graph, root: Addr, n: Addr, c: seq<Addr>, m: Addr, d: seq<Addr>)
    requires Symmetric(g) && NamesAreGood(g) && Reaches(g, root, n, c) && Reaches(g, root, m, d)
    requires PathOf(g, root, n, c) == PathOf(g, root, m, d)
    ensures n == m
  {
    PathRoundTrip(g, root, n, c);
    PathRoundTrip(g, root, m, d);
  }

  // ----- lookups -----

  /**
    After addChild, the walk from the child is the walk from its directory plus one
    step, so pathOf yields the path the file system was asked about.
   */
  lemma LookupAgreement(g: Graph, h: Graph, root: Addr, p: Addr, name: string, ino: Ino, dir: bool, spare: Addr,
                        c: seq<Addr>)
    requires WellFormed(g) && NamesAreGood(g) && Spare(g, ino, spare)
    requires Reaches(g, root, p, c) && g.nodes[p].dir
    requires h == AddStep(g, p, name, ino, dir, spare)
    requires ChildFor(g, ino, spare) != root && ChildFor(g, ino, spare) !in c
    ensures var child := ChildFor(g, ino, spare);
            && Reaches(h, root, child, [child] + c) && Reaches(h, root, p, c)
            && PathOf(h, root, child, [child] + c) == Path(ChildPathOf(PathOf(g, root, p, c).path, name))
            && PathOf(h, root, p, c) == PathOf(g, root, p, c)
  {
    hide AddStep, WellFormed, NoDup;
    var child := ChildFor(g, ino, spare);
    ChainNodes(g, root, p, c);
    AddHeads(g, h, p, name, ino, dir, spare);
    assert forall x :: x in c ==> SameHead(g, h, root, x);
    ChainStable(g, h, root, p, c);
    var d := [child] + c;
    assert d[1..] == c;
    assert Named(d) == [child] + Named(c) && Named(d)[1..] == Named(c);
    NamesGood(g, Named(c));
    JoinSnoc(Names(g, Named(c)), name);
  }

  /** addChild makes the new entry the child's newest and leaves all other parents alone. */
  lemma AddHeads(g: Graph, h: Graph, p: Addr, name: string, ino: Ino, dir: bool, spare: Addr)
    requires WellFormed(g) && Spare(g, ino, spare) && p in g.nodes
    requires h == AddStep(g, p, name, ino, dir, spare)
    ensures var child := ChildFor(g, ino, spare);
            && child in h.nodes && h.nodes[child].parents != [] && h.nodes[child].parents[0] == Entry(name, p)
            && (forall x :: x in g.nodes ==> x in h.nodes)
            && (forall x :: x in g.nodes && x != child ==> h.nodes[x].parents == g.nodes[x].parents)
  {
  }

  /**
    The condition is exact: if the child is on the walk of its new directory (and is
    not the root), that walk becomes a cycle and pathOf does not end.
   */
  lemma LookupCycle(g: Graph, h: Graph, root: Addr, p: Addr, name: string, ino: Ino, dir: bool, spare: Addr,
                    c: seq<Addr>)
    requires WellFormed(g) && Spare(g, ino, spare) && p in g.nodes
    requires Chain(g, root, p, c)
    requires h == AddStep(g, p, name, ino, dir, spare)
    ensures var child := ChildFor(g, ino, spare);
            Ends(h, root, child) <==> child == root || child !in c
  {
    hide AddStep, NoDup;
    var child := ChildFor(g, ino, spare);
    AddHeads(g, h, p, name, ino, dir, spare);
    ChainNodes(g, root, p, c);
    CycleExact(g, h, root, p, name, c, child);
  }

  lemma CycleExact(g: Graph, h: Graph, root: Addr, p: Addr, name: string, c: seq<Addr>, child: Addr)
    requires Chain(g, root, p, c) && (forall x :: x in c ==> x in g.nodes)
    requires child in h.nodes && h.nodes[child].parents != [] && h.nodes[child].parents[0] == Entry(name, p)
    requires forall x :: x in g.nodes && x != child ==> x in h.nodes && h.nodes[x].parents == g.nodes[x].parents
    ensures Ends(h, root, child) <==> child == root || child !in c
  {
    if child == root {
      assert Chain(h, root, child, [child]);
    } else if child !in c {
      assert forall x :: x in c ==> SameHead(g, h, root, x);
      ChainStable(g, h, root, p, c);
      assert ([child] + c)[1..] == c;
      var d := [child] + c;
      assert Chain(h, root, child, d);
    } else if Ends(h, root, child) {
      var d :| Chain(h, root, child, d);
      var k := CycleBack(g, h, root, p, c, child, d[1..]);
      ChainSuffix(h, root, child, d, k + 1);
      ChainUnique(h, root, child, d, d[k + 1..]);
      assert false;
    }
  }

  /** In the changed graph the walk from `p` still leads to `child`. */
  lemma {:induction false} CycleBack(g: Graph, h: Graph, root: Addr, p: Addr, c: seq<Addr>, child: Addr, d: seq<Addr>)
    returns (k: nat)
    requires Chain(g, root, p, c) && child in c && Chain(h, root, p, d)
    requires forall x :: x in g.nodes && x != child ==> x in h.nodes && h.nodes[x].parents == g.nodes[x].parents
    ensures k < |d| && d[k] == child
    decreases |c|
  {
    if p == child {
      k := 0;
    } else {
      k := CycleBack(g, h, root, c[1], c[1..], child, d[1..]);
      k := k + 1;
    }
  }

  // ----- removals -----

  /** On any graph a walk outlives the removal of a set exactly when none of its named inodes is removed. */
  lemma {:induction false} CollapseWalkExact(g: Graph, h: Graph, dead: set<Addr>, root: Addr, q: Addr, c: seq<Addr>)
    requires h.nodes == Collapse(g.nodes, dead) && Chain(g, root, q, c)
    ensures Chain(h, root, q, c) <==> forall x :: x in Named(c) ==> x !in dead
    ensures Chain(h, root, q, c) ==>
              && (forall x :: x in Named(c) ==>
                    x in g.nodes && x in h.nodes && g.nodes[x].parents != [] && h.nodes[x].parents != [])
              && Names(h, Named(c)) == Names(g, Named(c))
    decreases |c|
  {
    ChainNodes(g, root, q, c);
    if |c| > 1 {
      CollapseWalkExact(g, h, dead, root, c[1], c[1..]);
      assert Named(c) == [q] + Named(c[1..]) && Named(c)[1..] == Named(c[1..]);
    } else {
      assert Named(c) == [];
    }
  }

  /** On a symmetric graph a survivor's walk meets survivors only. */
  lemma {:induction false} SurvivorsAbove(g: Graph, n: Addr, dead: set<Addr>, root: Addr, q: Addr, c: seq<Addr>)
    requires Symmetric(g) && n in g.nodes && !Live(g, n) && Least(g, n, dead)
    requires Chain(g, root, q, c) && q !in dead
    ensures forall x :: x in c ==> x !in dead
    decreases |c|
  {
    if |c| > 1 {
      var e := g.nodes[q].parents[0];
      assert HasEntry(g, q, e.name, e.node);
      assert HasKid(g, e.node, e.name, q);
      if e.node in dead && e.node != n {
        RemovedStarve(g, n, dead, e.node);
      }
      SurvivorsAbove(g, n, dead, root, c[1], c[1..]);
      assert c == [q] + c[1..];
    } else {
      assert c == [q];
    }
  }

  /** Removal does not touch the walk of any inode that survives it. */
  lemma RemovalKeepsWalk(g: Graph, n: Addr, h: Graph, dead: set<Addr>, root: Addr, q: Addr, c: seq<Addr>)
    requires WellFormed(g) && Symmetric(g) && n in g.nodes && !Live(g, n) && Removal(g, n, h, dead)
    requires Chain(g, root, q, c) && q !in dead
    ensures forall x :: x in Named(c) ==>
              x in g.nodes && x in h.nodes && g.nodes[x].parents != [] && h.nodes[x].parents != []
    ensures Chain(h, root, q, c) && Names(h, Named(c)) == Names(g, Named(c))
  {
    SurvivorsAbove(g, n, dead, root, q, c);
    CollapseWalkExact(g, h, dead, root, q, c);
  }

  // ----- renames -----

  /** The parents of every inode after the locked section of a rename that moves a child. */
  lemma MoveHeads(g: Graph, h: Graph, p: Addr, name: string, np: Addr, nname: string, child: Addr)
    requires WellFormed(g) && HasKid(g, p, name, child) && child in g.nodes && np in g.nodes
    requires nname in g.nodes[np].kids ==> g.nodes[np].kids[nname] in g.nodes
    requires h == MvStep(g, p, name, np, nname, Some(child), Get(g.nodes[np].kids, nname))
    ensures h.nodes.Keys == g.nodes.Keys
    ensures h.nodes[child].parents != [] && h.nodes[child].parents[0] == Entry(nname, np)
    ensures forall x :: x in g.nodes && x != child ==>
              h.nodes[x].parents == (if Get(g.nodes[np].kids, nname) == Some(x)
                                     then Remove(g.nodes[x].parents, Entry(nname, np))
                                     else g.nodes[x].parents)
  {
    var dest := Get(g.nodes[np].kids, nname);
    var g1 := Unlink(g, p, name, child);
    UnlinkRecords(g, p, name, child);
    var g2 := if dest.Some? then Unlink(g1, np, nname, dest.value) else g1;
    if dest.Some? {
      UnlinkRecords(g1, np, nname, dest.value);
    }
    LinkRecords(g2, np, nname, child);
  }

  /** An inode on a finite walk of `np` does not have `np` as its newest parent. */
  lemma NoReturn(g: Graph, root: Addr, np: Addr, c: seq<Addr>, k: nat)
    requires Chain(g, root, np, c) && k < |c| && c[k] != root
    requires c[k] in g.nodes && g.nodes[c[k]].parents != []
    ensures g.nodes[c[k]].parents[0].node != np
  {
    ChainSuffix(g, root, np, c, k);
    if g.nodes[c[k]].parents[0].node == np {
      ChainUnique(g, root, np, c, c[k..][1..]);
      assert false;
    }
  }

  lemma RemoveLater(l: seq<Entry>, e: Entry)
    requires l != [] && l[0] != e
    ensures Remove(l, e) != [] && Remove(l, e)[0] == l[0]
  {
  }

  /** What MoveHeads says of the parents, for the walk lemmas. */
  ghost predicate HeadsMoved(g: Graph, h: Graph, np: Addr, nname: string, child: Addr) {
    && h.nodes.Keys == g.nodes.Keys && child in h.nodes
    && h.nodes[child].parents != [] && h.nodes[child].parents[0] == Entry(nname, np)
    && (forall x :: x in g.nodes && x != child ==>
          || h.nodes[x].parents == g.nodes[x].parents
          || h.nodes[x].parents == Remove(g.nodes[x].parents, Entry(nname, np)))
  }

  /** An inode properly below the moved child keeps its newest parent. */
  lemma HeadBelowKept(g: Graph, h: Graph, root: Addr, np: Addr, nname: string, child: Addr,
                      m: Addr, c: seq<Addr>, k: nat, d: seq<Addr>)
    requires HeadsMoved(g, h, np, nname, child) && child !in d && Chain(g, root, np, d)
    requires Chain(g, root, m, c) && 0 < k < |c| && c[k] == child
    ensures m in g.nodes && m in h.nodes && m != root && g.nodes[m].parents != [] && h.nodes[m].parents != []
    ensures h.nodes[m].parents[0] == g.nodes[m].parents[0]
  {
    var e := g.nodes[m].parents[0];
    if m == child {
      ChainSuffix(g, root, m, c, k);
      ChainUnique(g, root, m, c, c[k..]);
      assert false;
    }
    if e == Entry(nname, np) {
      assert c[1..][k - 1] == child;
      ChainUnique(g, root, np, c[1..], d);
      assert false;
    }
    RemoveLater(g.nodes[m].parents, Entry(nname, np));
  }

  /** The walk of an inode below the moved child, after the move. */
  lemma {:induction false} RenameBelow(g: Graph, h: Graph, root: Addr, np: Addr, nname: string, child: Addr,
                                       m: Addr, c: seq<Addr>, k: nat, d: seq<Addr>)
    requires HeadsMoved(g, h, np, nname, child) && child != root && child !in d
    requires Chain(g, root, np, d) && Reaches(h, root, np, d)
    requires Chain(g, root, m, c) && k < |c| && c[k] == child
    ensures Reaches(h, root, m, c[..k + 1] + d)
    ensures forall x :: x in c[..k] ==> x in g.nodes && g.nodes[x].parents != []
    ensures forall x :: x in c[..k] ==> x in h.nodes && h.nodes[x].parents != []
    ensures Names(h, c[..k]) == Names(g, c[..k])
    decreases k
  {
    if k == 0 {
      assert c[..k + 1] + d == [m] + d && ([m] + d)[1..] == d;
    } else {
      ChainNodes(g, root, m, c);
      var e := g.nodes[m].parents[0];
      assert Chain(g, root, e.node, c[1..]);
      RenameBelow(g, h, root, np, nname, child, c[1], c[1..], k - 1, d);
      HeadBelowKept(g, h, root, np, nname, child, m, c, k, d);
      var r := c[..k + 1] + d;
      assert r[1..] == c[1..][..k] + d;
      assert c[..k][1..] == c[1..][..k - 1];
      assert c[..k] == [m] + c[1..][..k - 1];
    }
  }

  /**
    Rename rewrites subtree paths.  `c` is the walk of `m`, which passes through the
    moved child at position `k`; `d` is the walk of the new directory.  Afterwards
    `m` is reached through the new directory and name, with the same names below.
   */
  lemma RenameRewritesWalk(g: Graph, h: Graph, root: Addr, p: Addr, name: string, np: Addr, nname: string,
                           child: Addr, m: Addr, c: seq<Addr>, k: nat, d: seq<Addr>)
    requires WellFormed(g) && HasKid(g, p, name, child) && child in g.nodes && child != root
    requires Reaches(g, root, np, d) && child !in d
    requires Chain(g, root, m, c) && k < |c| && c[k] == child
    requires nname in g.nodes[np].kids ==> g.nodes[np].kids[nname] in g.nodes
    requires h == MvStep(g, p, name, np, nname, Some(child), Get(g.nodes[np].kids, nname))
    ensures Reaches(h, root, np, d) && Reaches(h, root, m, c[..k + 1] + d)
    ensures forall x :: x in c[..k] || x in Named(d) ==> x in g.nodes && g.nodes[x].parents != []
    ensures PathOf(h, root, np, d) == PathOf(g, root, np, d)
    ensures PathOf(h, root, m, c[..k + 1] + d) == Path(Join(Names(g, Named(d)) + [nname] + Names(g, c[..k])))
  {
    hide MvStep, WellFormed, Remove, GoodName;
    MoveHeads(g, h, p, name, np, nname, child);
    MoveKeepsDirectory(g, h, root, np, nname, child, d);
    RenameBelow(g, h, root, np, nname, child, m, c, k, d);
    RenamedNames(g, h, root, np, nname, child, m, c, k, d);
  }

  /** The names along the new walk. */
  lemma RenamedNames(g: Graph, h: Graph, root: Addr, np: Addr, nname: string, child: Addr,
                     m: Addr, c: seq<Addr>, k: nat, d: seq<Addr>)
    requires k < |c| && c[k] == child && d != [] && Reaches(h, root, m, c[..k + 1] + d)
    requires child in h.nodes && h.nodes[child].parents != [] && h.nodes[child].parents[0] == Entry(nname, np)
    requires forall x :: x in c[..k] || x in Named(d) ==> x in g.nodes && g.nodes[x].parents != []
    requires forall x :: x in c[..k] || x in Named(d) ==> x in h.nodes && h.nodes[x].parents != []
    requires Names(h, c[..k]) == Names(g, c[..k]) && Names(h, Named(d)) == Names(g, Named(d))
    ensures PathOf(h, root, m, c[..k + 1] + d) == Path(Join(Names(g, Named(d)) + [nname] + Names(g, c[..k])))
  {
    hide Chain;
    var r := c[..k + 1] + d;
    ChainNodes(h, root, m, r);
    assert Named(r) == c[..k] + ([child] + Named(d));
    NamesConcat(h, c[..k], [child] + Named(d));
    assert ([child] + Named(d))[1..] == Named(d);
  }

  lemma MoveKeepsDirectory(g: Graph, h: Graph, root: Addr, np: Addr, nname: string, child: Addr, d: seq<Addr>)
    requires HeadsMoved(g, h, np, nname, child) && Reaches(g, root, np, d) && child !in d
    ensures Reaches(h, root, np, d) && PathOf(h, root, np, d) == PathOf(g, root, np, d)
    ensures forall x :: x in Named(d) ==> x in g.nodes && g.nodes[x].parents != []
    ensures forall x :: x in Named(d) ==> x in h.nodes && h.nodes[x].parents != []
    ensures Names(h, Named(d)) == Names(g, Named(d))
  {
    ChainNodes(g, root, np, d);
    forall x | x in d ensures SameHead(g, h, root, x) {
      if x != root && g.nodes[x].parents != [] {
        var i :| 0 <= i < |d| && d[i] == x;
        NoReturn(g, root, np, d, i);
        RemoveLater(g.nodes[x].parents, Entry(nname, np));
      }
    }
    ChainStable(g, h, root, np, d);
  }

  /** The path of an inode below `child` is the path of `child` followed by the names below it. */
  lemma PathThrough(g: Graph, root: Addr, m: Addr, c: seq<Addr>, k: nat)
    requires Reaches(g, root, m, c) && k < |c|
    ensures Reaches(g, root, c[k], c[k..])
    ensures forall x :: x in c[..k] || x in Named(c[k..]) ==> x in g.nodes && g.nodes[x].parents != []
    ensures PathOf(g, root, m, c) == Path(Join(Names(g, Named(c[k..])) + Names(g, c[..k])))
    ensures PathOf(g, root, c[k], c[k..]) == Path(Join(Names(g, Named(c[k..]))))
  {
    ChainSuffix(g, root, m, c, k);
    ChainNodes(g, root, m, c);
    ChainNodes(g, root, c[k], c[k..]);
    forall x | x in c[..k] ensures x in Named(c) {
      var i :| 0 <= i < k && c[i] == x;
      assert Named(c)[i] == x;
    }
    assert Named(c) == c[..k] + Named(c[k..]);
    NamesConcat(g, c[..k], Named(c[k..]));
  }
}
