/**
  The request handlers that drive the graph, and path reconstruction.  The file
  system behind them is a function of the path it is asked about.
 */
module Handlers {
  import opened Types
  import opened InodeGraph
  import opened Bridge
  import opened Cascade
  import opened Coherence
  import opened Outcomes
  import opened AskedPaths
  import Kernel
  import Paths

  // ----- pathOf -----

  /** The newest names of the listed inodes, in the order of the list. */
  ghost function HeadNames(g: Graph, l: seq<Addr>): (r: seq<string>)
    requires forall x :: x in l ==> x in g.nodes && g.nodes[x].parents != []
    ensures |r| == |l|
  {
    seq(|l|, i requires 0 <= i < |l| => assert l[i] in l; g.nodes[l[i]].parents[0].name)
  }

  ghost predicate Mirrors(a: seq<string>, b: seq<string>) {
    |a| == |b| && forall i :: 0 <= i < |a| ==> a[i] == b[|b| - 1 - i]
  }

  lemma MirrorsUnique(a: seq<string>, b: seq<string>, s: seq<string>)
    requires Mirrors(a, s) && Mirrors(b, s)
    ensures a == b
  {
  }

  lemma {:induction false} NamesMirror(g: Graph, l: seq<Addr>)
    requires forall x :: x in l ==> x in g.nodes && g.nodes[x].parents != []
    ensures Mirrors(Paths.Names(g, l), HeadNames(g, l))
  {
    if l != [] {
      NamesMirror(g, l[1..]);
      assert HeadNames(g, l)[1..] == HeadNames(g, l[1..]);
    }
  }

  method ReverseSegments(s: seq<string>) returns (segments: seq<string>)
    ensures Mirrors(segments, s)
  {
    segments := s;
    var i, j := 0, |segments| - 1;
    while i < j
      invariant |segments| == |s| && 0 <= i && i + j == |s| - 1 && -1 <= j
      invariant i <= j + 2
      invariant forall k :: 0 <= k < |s| && (k < i || j < k) ==> segments[k] == s[|s| - 1 - k]
      invariant forall k :: 0 <= k < |s| && i <= k <= j ==> segments[k] == s[k]
    {
      segments := segments[i := segments[j]][j := segments[i]];
      i, j := i + 1, j - 1;
    }
  }

  /** The names met on the walk, nearest first; the walk may end at an inode that is not the root. */
  method Segments(b: RawBridge, n: Addr, ghost c: seq<Addr>) returns (segments: seq<string>, orphan: bool)
    requires b.Valid() && Paths.Chain(b.g, b.root, n, c)
    ensures forall x :: x in Paths.Named(c) ==> x in b.g.nodes && b.g.nodes[x].parents != []
    ensures segments == HeadNames(b.g, Paths.Named(c))
    ensures orphan <==> c[|c| - 1] != b.root
  {
    hide RawBridge.Stands;
    Paths.ChainNodes(b.g, b.root, n, c);
    segments := [];
    var it := Some(n);
    ghost var k := 0;
    while it.Some? && it.value != b.root
      invariant b.Valid() && k <= |Paths.Named(c)|
      invariant it.Some? ==> Paths.Chain(b.g, b.root, it.value, c[k..])
      invariant it.None? ==> k == |c| - 1 && c[k] != b.root
      invariant (forall x :: x in c[..k] ==> x in b.g.nodes && b.g.nodes[x].parents != [])
                && segments == HeadNames(b.g, c[..k])
      decreases if it.Some? then |c| - k else 0
    {
      var pe := Newest(b, it.value);
      if pe.Some? {
        segments := segments + [pe.value.name];
        assert c[k..][1..] == c[k + 1..];
        assert c[..k + 1] == c[..k] + [c[k]];
        k := k + 1;
        it := Some(pe.value.node);
      } else {
        it := None;
      }
    }
    assert c[..k] == Paths.Named(c);
    orphan := it.None?;
  }

  /** The path of an inode whose walk along newest parents is `c`. */
  method PathOf(b: RawBridge, n: Addr, ghost c: seq<Addr>) returns (path: Paths.PathResult)
    requires b.Valid() && Paths.Chain(b.g, b.root, n, c)
    ensures path == Paths.PathOf(b.g, b.root, n, c)
  {
    hide RawBridge.Valid;
    b.Known();
    Paths.ChainNodes(b.g, b.root, n, c);
    if n == b.root {
      return Paths.Path("");
    }
    var segments, orphan := Segments(b, n, c);
    if orphan {
      return Paths.Orphaned(b.mem[n].ino, "");
    }
    var reversed := ReverseSegments(segments);
    NamesMirror(b.g, Paths.Named(c));
    MirrorsUnique(reversed, Paths.Names(b.g, Paths.Named(c)), segments);
    return Paths.Path(Paths.Join(reversed));
  }

  /** fpathOf: the path of an open file is the one it was opened with, if any, or the inode's. */
  method FilePathOf(b: RawBridge, n: Addr, filePath: string, ghost c: seq<Addr>) returns (path: Paths.PathResult)
    requires b.Valid() && (filePath == "" ==> Paths.Chain(b.g, b.root, n, c))
    ensures filePath != "" ==> path == Paths.Path(filePath)
    ensures filePath == "" ==> path == Paths.PathOf(b.g, b.root, n, c)
  {
    if |filePath| > 0 {
      return Paths.Path(filePath);
    }
    path := PathOf(b, n, c);
  }

  method Newest(b: RawBridge, n: Addr) returns (pe: Option<Entry>)
    requires b.Valid() && n in b.g.nodes
    ensures pe == if b.g.nodes[n].parents == [] then None else Some(b.g.nodes[n].parents[0])
  {
    b.Own(n);
    pe := b.mem[n].parents.Newest();
  }

  // ----- Forget -----

  /** A new map with the same contents, in whatever order they are met. */
  method CopyNodes(nodes: map<Ino, Addr>) returns (tmpNodes: map<Ino, Addr>)
    ensures tmpNodes == nodes
  {
    tmpNodes := map[];
    var keys := nodes.Keys;
    while keys != {}
      invariant keys !! tmpNodes.Keys && keys + tmpNodes.Keys == nodes.Keys
      invariant forall i :: i in tmpNodes ==> tmpNodes[i] == nodes[i]
      decreases keys
    {
      var i :| i in keys;
      tmpNodes := tmpNodes[i := nodes[i]];
      keys := keys - {i};
    }
  }

  /** A registry that shrank to a hundredth of its peak is copied, to give the memory back. */
  method CompactMemory(b: RawBridge)
    requires b.Valid()
    modifies b`nodes, b`nodeCountHigh
    ensures b.Valid() && b.nodes == old(b.nodes)
    ensures b.nodeCountHigh == if old(b.nodeCountHigh) <= |b.nodes| * 100 then old(b.nodeCountHigh) else |b.nodes|
  {
    hide RawBridge.Valid, RawBridge.Stands;
    b.Known();
    if b.nodeCountHigh <= |b.nodes| * 100 {
      return;
    }
    var tmpNodes := CopyNodes(b.nodes);
    b.nodes := tmpNodes;
    b.nodeCountHigh := |b.nodes|;
    b.Reregistered();
  }

  /** The kernel drops references.  The answer is None when the bridge panics. */
  method Forget(b: RawBridge, ino: Ino, nlookup: nat) returns (r: Option<()>)
    requires b.Valid() && WellFormed(b.g) && Forward(b.g)
    modifies b, b.Footprint()
    ensures b.Valid() && WellFormed(b.g) && Forward(b.g)
    ensures r.None? <==> Kernel.Panics(old(b.g), Kernel.Forget(ino, nlookup))
    ensures r.None? ==> b.g == old(b.g)
    ensures r.Some? ==> Kernel.Transition(old(b.g), Kernel.Forget(ino, nlookup), b.g)
    ensures b.nodeCountHigh ==
            if r.Some? && Drops(old(b.g), ino, nlookup) && old(b.nodeCountHigh) > |b.g.reg| * 100 then |b.g.reg|
            else old(b.nodeCountHigh)
  {
    hide RawBridge.Valid, RawBridge.Footprint, WellFormed, Forward, RemovedBy, Live, NoGarbage, Drops,
      Kernel.Transition;
    ForgetCases(b.g, ino, nlookup);
    ForgetUnknown(b.g, ino, nlookup);
    b.Known();
    if ino !in b.nodes {
      return Some(());
    }
    var removed := b.RemoveRef(b.nodes[ino], Wrap(nlookup));
    if removed.None? {
      return None;
    }
    RemovedAnswer(old(b.g), ino, nlookup, b.g, removed.value);
    ForgetTransition(old(b.g), ino, nlookup, b.g, removed.value);
    b.Known();
    if removed.value {
      CompactMemory(b);
    }
    return Some(());
  }

  /** The forget takes the inode's last support away. */
  ghost predicate Drops(g: Graph, ino: Ino, nlookup: nat)
    requires WellFormed(g)
  {
    && ino in g.reg && Wrap(nlookup) <= g.nodes[g.reg[ino]].lookups
    && var m := DecStep(g, g.reg[ino], Wrap(nlookup));
       g.reg[ino] in m.nodes && !Live(m, g.reg[ino])
  }

  lemma RemovedAnswer(g: Graph, ino: Ino, nlookup: nat, h: Graph, removed: bool)
    requires WellFormed(g) && ino in g.reg && Wrap(nlookup) <= g.nodes[g.reg[ino]].lookups
    requires RemovedBy(g, g.reg[ino], Wrap(nlookup), h, removed)
    ensures removed <==> Drops(g, ino, nlookup)
  {
  }

  lemma ForgetUnknown(g: Graph, ino: Ino, nlookup: nat)
    requires WellFormed(g)
    ensures ino !in g.reg ==> !Drops(g, ino, nlookup) && Kernel.Transition(g, Kernel.Forget(ino, nlookup), g)
  {
  }

  lemma ForgetTransition(g: Graph, ino: Ino, nlookup: nat, h: Graph, removed: bool)
    requires WellFormed(g) && ino in g.reg && Wrap(nlookup) <= g.nodes[g.reg[ino]].lookups
    requires RemovedBy(g, g.reg[ino], Wrap(nlookup), h, removed)
    ensures Kernel.Transition(g, Kernel.Forget(ino, nlookup), h)
  {
    hide RemovedBy;
  }

  lemma ForgetCases(g: Graph, ino: Ino, n: nat)
    requires WellFormed(g)
    ensures ino in g.reg ==> g.reg[ino] in g.nodes
  {
  }

  // ----- handlers that ask the file system about a path -----

  /**
    Lookup, and the end of Mknod, Mkdir, Link, Symlink and Create.  `fs` answers with
    a number and a kind, or not at all.  The source panics on an unknown directory
    and where addChild does.
   */
  method Lookup(b: RawBridge, parent: Ino, name: string, fs: Paths.PathResult -> Option<(Ino, bool)>, spare: Addr,
                ghost c: seq<Addr>)
    returns (answer: Option<(Ino, bool)>, ghost asked: Paths.PathResult)
    requires b.Valid() && WellFormed(b.g) && Forward(b.g) && spare !in b.g.nodes
    requires !Kernel.Panics(b.g, Kernel.Lookup(parent, name, None)) && Paths.Chain(b.g, b.root, b.g.reg[parent], c)
    requires fs(Asked(b.g, b.root, b.g.reg[parent], name, c)).Some? ==>
               && b.g.nodes[b.g.reg[parent]].dir && name != "." && name != ".."
               && var ino := fs(Asked(b.g, b.root, b.g.reg[parent], name, c)).value.0; ino in b.g.reg || ino != RESERVED
    modifies b, b.Footprint()
    ensures b.Valid() && WellFormed(b.g) && Forward(b.g)
    ensures asked == old(Asked(b.g, b.root, b.g.reg[parent], name, c)) && answer == fs(asked)
    ensures old(Paths.Reaches(b.g, b.root, b.g.reg[parent], c) && Paths.NamesAreGood(b.g) && Paths.GoodName(name)) ==>
              && asked.Path?
              && Paths.SplitPath(asked.path) == old(NamesDown(b.g, b.root, b.g.reg[parent], c)) + [name]
    ensures old(c[|c| - 1] != b.root) ==> forall placeholder :: Text(asked, placeholder) == placeholder + "/" + name
    ensures answer.Some? ==>
              && answer.value.0 in b.g.reg
              && var child := b.g.reg[answer.value.0];
                 && HasKid(b.g, old(b.g.reg[parent]), name, child)
                 && (old(Paths.Reaches(b.g, b.root, b.g.reg[parent], c) && Paths.NamesAreGood(b.g))
                     && child != b.root && child !in c ==>
                       && Paths.Reaches(b.g, b.root, child, [child] + c)
                       && Paths.PathOf(b.g, b.root, child, [child] + c) == asked)
    ensures answer.None? ==> Vacated(old(b.g), old(b.g.reg[parent]), name, b.g)
    ensures Kernel.Transition(old(b.g), Kernel.Lookup(parent, name, answer), b.g)
  {
    hide RawBridge.Valid, WellFormed, Forward, AddStep, RemovedBy, RmChildRel, Paths.Chain, NoGarbage;
    hide Emptied, NamesDown, Text, Paths.Reaches, Paths.PathOf, Paths.SplitPath, Paths.NamesAreGood;
    ForgetCases(b.g, parent, 0);
    b.Known();
    var directory := b.nodes[parent];
    var path := PathOf(b, directory, c);
    asked := EntryPath(path, name);
    AskedSplits(b.g, b.root, directory, name, c);
    answer := fs(EntryPath(path, name));
    if answer.Some? {
      var (ino, isDir) := answer.value;
      AddForward(b.g, directory, name, ino, isDir, spare);
      var child := b.AddChild(directory, name, ino, isDir, spare);
      assert Kernel.AddedAt(old(b.g), b.g, directory, name, ino, isDir, spare);
      FoundOutcome(old(b.g), b.g, b.root, directory, name, ino, isDir, spare, c);
    } else {
      var done := b.RmChild(directory, name);
    }
  }

  lemma FoundOutcome(g: Graph, h: Graph, root: Addr, p: Addr, name: string, ino: Ino, dir: bool, spare: Addr,
                     c: seq<Addr>)
    requires WellFormed(g) && Spare(g, ino, spare) && Paths.Chain(g, root, p, c) && g.nodes[p].dir
    requires h == AddStep(g, p, name, ino, dir, spare)
    ensures ino in h.reg
    ensures var child := h.reg[ino];
            && HasKid(h, p, name, child)
            && (Paths.Reaches(g, root, p, c) && Paths.NamesAreGood(g) && child != root && child !in c ==>
                  && Paths.Reaches(h, root, child, [child] + c)
                  && Paths.PathOf(h, root, child, [child] + c) == Asked(g, root, p, name, c))
  {
    hide AddStep, WellFormed, Asked, Paths.NamesAreGood;
    AddEffect(g, h, p, name, ino, dir, spare);
    if Paths.Reaches(g, root, p, c) && Paths.NamesAreGood(g) && h.reg[ino] != root && h.reg[ino] !in c {
      FoundAsked(g, h, root, p, name, ino, dir, spare, c);
    }
  }

  lemma FoundTransition(g: Graph, parent: Ino, name: string, ino: Ino, dir: bool, spare: Addr)
    requires WellFormed(g) && parent in g.reg && g.reg[parent] in g.nodes && Spare(g, ino, spare)
    requires g.rev.Keys == g.nodes.Keys && (ino in g.reg ==> g.reg[ino] in g.nodes)
    ensures Kernel.Transition(g, Kernel.Lookup(parent, name, Some((ino, dir))),
                              AddStep(g, g.reg[parent], name, ino, dir, spare))
  {
    hide AddStep, WellFormed;
    assert Kernel.AddedAt(g, AddStep(g, g.reg[parent], name, ino, dir, spare), g.reg[parent], name, ino, dir, spare);
  }

  lemma AddForward(g: Graph, p: Addr, name: string, ino: Ino, dir: bool, spare: Addr)
    requires WellFormed(g) && Forward(g) && p in g.nodes && g.nodes[p].dir && spare !in g.nodes
    ensures g.rev.Keys == g.nodes.Keys && (ino in g.reg ==> g.reg[ino] in g.nodes) && Spare(g, ino, spare)
    ensures var h := AddStep(g, p, name, ino, dir, spare); WellFormed(h) && Forward(h)
  {
    hide AddStep;
    AddKeepsForward(g, AddStep(g, p, name, ino, dir, spare), p, name, ino, dir, spare);
  }

  /** The slot is empty; if it was taken, nothing else went but what the slot had kept alive. */
  ghost predicate Vacated(g: Graph, p: Addr, name: string, h: Graph)
    requires WellFormed(g) && p in g.nodes
  {
    && p in h.nodes && name !in h.nodes[p].kids
    && if name in g.nodes[p].kids then
         var c := g.nodes[p].kids[name];
         c in g.nodes && !HasEntry(h, c, name, p) && exists dead :: Emptied(g, p, name, c, h, dead)
       else h == g
  }

  /** Unlink and Rmdir: the slot is emptied once the file system agreed. */
  method Unlink(b: RawBridge, parent: Ino, name: string, fs: Paths.PathResult -> bool, ghost c: seq<Addr>)
    returns (ok: bool, ghost asked: Paths.PathResult)
    requires b.Valid() && WellFormed(b.g) && Forward(b.g)
    requires !Kernel.Panics(b.g, Kernel.Unlink(parent, name)) && Paths.Chain(b.g, b.root, b.g.reg[parent], c)
    modifies b, b.Footprint()
    ensures b.Valid() && WellFormed(b.g) && Forward(b.g)
    ensures asked == old(Asked(b.g, b.root, b.g.reg[parent], name, c)) && ok == fs(asked)
    ensures old(Paths.Reaches(b.g, b.root, b.g.reg[parent], c) && Paths.NamesAreGood(b.g) && Paths.GoodName(name)) ==>
              && asked.Path?
              && Paths.SplitPath(asked.path) == old(NamesDown(b.g, b.root, b.g.reg[parent], c)) + [name]
    ensures old(c[|c| - 1] != b.root) ==> forall placeholder :: Text(asked, placeholder) == placeholder + "/" + name
    ensures ok ==> Vacated(old(b.g), old(b.g.reg[parent]), name, b.g)
    ensures if ok then Kernel.Transition(old(b.g), Kernel.Unlink(parent, name), b.g) else b.g == old(b.g)
  {
    hide RawBridge.Valid, WellFormed, Forward, RemovedBy, RmChildRel, Paths.Chain;
    ForgetCases(b.g, parent, 0);
    b.Known();
    var directory := b.nodes[parent];
    var path := PathOf(b, directory, c);
    asked := EntryPath(path, name);
    AskedSplits(b.g, b.root, directory, name, c);
    ok := fs(EntryPath(path, name));
    if ok {
      var done := b.RmChild(directory, name);
    }
  }

  /** What a rename without flags needs: known directories whose walks end. */
  ghost predicate Renamable(b: RawBridge, parent: Ino, name: string, newParent: Ino, newName: string, c: seq<Addr>,
                            d: seq<Addr>)
    requires WellFormed(b.g)
    reads b
  {
    && !Kernel.Panics(b.g, Kernel.Rename(parent, name, newParent, newName))
    && (name in b.g.nodes[b.g.reg[parent]].kids ==> b.g.nodes[b.g.reg[newParent]].dir)
    && Paths.Chain(b.g, b.root, b.g.reg[parent], c) && Paths.Chain(b.g, b.root, b.g.reg[newParent], d)
  }

  /** Rename: refused with any flag, whatever it names; otherwise the target is overwritten. */
  method Rename(b: RawBridge, flags: nat, parent: Ino, name: string, newParent: Ino, newName: string,
                fs: (Paths.PathResult, Paths.PathResult) -> bool, ghost c: seq<Addr>, ghost d: seq<Addr>)
    returns (ok: bool, ghost asked: Paths.PathResult, ghost newAsked: Paths.PathResult)
    requires b.Valid() && WellFormed(b.g) && Forward(b.g)
    requires flags == 0 ==> Renamable(b, parent, name, newParent, newName, c, d)
    modifies b, b.Footprint()
    ensures b.Valid() && WellFormed(b.g) && Forward(b.g)
    ensures flags != 0 ==> !ok
    ensures flags == 0 ==>
              && asked == old(Asked(b.g, b.root, b.g.reg[parent], name, c))
              && newAsked == old(Asked(b.g, b.root, b.g.reg[newParent], newName, d))
              && ok == fs(asked, newAsked)
    ensures flags == 0 && old(Paths.Reaches(b.g, b.root, b.g.reg[parent], c) && Paths.NamesAreGood(b.g)
                              && Paths.GoodName(name)) ==>
              && asked.Path?
              && Paths.SplitPath(asked.path) == old(NamesDown(b.g, b.root, b.g.reg[parent], c)) + [name]
    ensures flags == 0 && old(c[|c| - 1] != b.root) ==>
              forall placeholder :: Text(asked, placeholder) == placeholder + "/" + name
    ensures flags == 0 && old(Paths.Reaches(b.g, b.root, b.g.reg[newParent], d) && Paths.NamesAreGood(b.g)
                              && Paths.GoodName(newName)) ==>
              && newAsked.Path?
              && Paths.SplitPath(newAsked.path) == old(NamesDown(b.g, b.root, b.g.reg[newParent], d)) + [newName]
    ensures flags == 0 && old(d[|d| - 1] != b.root) ==>
              forall placeholder :: Text(newAsked, placeholder) == placeholder + "/" + newName
    ensures ok ==>
              exists dead :: Rehung(old(b.g), old(b.g.reg[parent]), name, old(b.g.reg[newParent]), newName, b.g, dead)
    ensures if ok then Kernel.Transition(old(b.g), Kernel.Rename(parent, name, newParent, newName), b.g)
            else b.g == old(b.g)
  {
    hide RawBridge.Valid, WellFormed, Forward, RemovedBy, MvTail, Paths.Chain;
    if flags != 0 {
      return false, Paths.Path(""), Paths.Path("");
    }
    ForgetCases(b.g, parent, 0);
    ForgetCases(b.g, newParent, 0);
    b.Known();
    var from, to := b.nodes[parent], b.nodes[newParent];
    var path := PathOf(b, from, c);
    var newPath := PathOf(b, to, d);
    asked, newAsked := EntryPath(path, name), EntryPath(newPath, newName);
    AskedSplits(b.g, b.root, from, name, c);
    AskedSplits(b.g, b.root, to, newName, d);
    ok := fs(EntryPath(path, name), EntryPath(newPath, newName));
    if ok {
      var done := b.MvChild(from, name, to, newName, true);
    }
  }
}
