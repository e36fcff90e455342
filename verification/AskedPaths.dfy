/**
  The paths the file system is asked about: what they say of the directory and the entry,
  and that they are the paths of the inodes before and after the operation.
 */
module AskedPaths {
  import opened Types
  import opened Recency
  import opened InodeGraph
  import opened Cascade
  import opened Coherence
  import opened Paths
  import opened Renames

  /** The path of an entry: below the directory's path or its placeholder. */
  function EntryPath(parent: PathResult, name: string): PathResult {
    match parent
    case Path(path) => Path(ChildPathOf(path, name))
    case Orphaned(ino, below) => Orphaned(ino, below + "/" + name)
  }

  /** The text of a path, given the placeholder. */
  function Text(path: PathResult, placeholder: string): string {
    match path
    case Path(path) => path
    case Orphaned(_, below) => placeholder + below
  }

  /** Whatever the placeholder, an entry's path is childPathOf its directory's. */
  lemma EntryPathText(parent: PathResult, name: string, placeholder: string)
    requires placeholder != ""
    ensures Text(EntryPath(parent, name), placeholder) == ChildPathOf(Text(parent, placeholder), name)
  {
    if parent.Orphaned? {
      assert placeholder + (parent.below + "/" + name) == placeholder + parent.below + "/" + name;
    }
  }

  /** The path asked about is that of the entry, for a directory whose walk is `c`. */
  ghost function Asked(g: Graph, root: Addr, n: Addr, name: string, c: seq<Addr>): PathResult
    requires Chain(g, root, n, c)
  {
    EntryPath(PathOf(g, root, n, c), name)
  }

  /** The names of the walk `c` from the root down to `n`. */
  ghost function NamesDown(g: Graph, root: Addr, n: Addr, c: seq<Addr>): seq<string>
    requires Chain(g, root, n, c)
  {
    ChainNodes(g, root, n, c);
    Names(g, Named(c))
  }

  /**
    Split at "/", the path asked about is the way down to the directory followed by the
    entry's name; for an orphan it is the placeholder, a "/" and the name.
   */
  lemma AskedSplits(g: Graph, root: Addr, n: Addr, name: string, c: seq<Addr>)
    requires Chain(g, root, n, c)
    ensures Reaches(g, root, n, c) && NamesAreGood(g) && GoodName(name) ==>
              var asked := Asked(g, root, n, name, c);
              && asked.Path? && SplitPath(asked.path) == NamesDown(g, root, n, c) + [name]
              && (Symmetric(g) ==> Walk(g, root, NamesDown(g, root, n, c)) == Some(n))
    ensures Reaches(g, root, n, c) ==>
              var dir, asked := PathOf(g, root, n, c), Asked(g, root, n, name, c);
              dir.Path? && asked == Path(if dir.path == "" then name else dir.path + "/" + name)
    ensures c[|c| - 1] != root ==>
              forall placeholder: string :: Text(Asked(g, root, n, name, c), placeholder) == placeholder + "/" + name
  {
    ChainNodes(g, root, n, c);
    if Reaches(g, root, n, c) && NamesAreGood(g) && GoodName(name) {
      var names := Names(g, Named(c));
      NamesGood(g, Named(c));
      JoinSnoc(names, name);
      SplitJoin(names + [name]);
      if Symmetric(g) {
        ChainWalk(g, root, n, c);
      }
    }
    if c[|c| - 1] != root {
      assert "" + "/" + name == "/" + name;
      forall placeholder: string ensures Text(Asked(g, root, n, name, c), placeholder) == placeholder + "/" + name {
        assert placeholder + ("/" + name) == placeholder + "/" + name;
      }
    }
  }

  /** A found entry: the path asked about is from then on the path of the child. */
  lemma FoundAsked(g: Graph, h: Graph, root: Addr, p: Addr, name: string, ino: Ino, dir: bool, spare: Addr,
                   c: seq<Addr>)
    requires WellFormed(g) && NamesAreGood(g) && Spare(g, ino, spare)
    requires Reaches(g, root, p, c) && g.nodes[p].dir && h == AddStep(g, p, name, ino, dir, spare)
    requires ChildFor(g, ino, spare) != root && ChildFor(g, ino, spare) !in c
    ensures var child := ChildFor(g, ino, spare);
            Reaches(h, root, child, [child] + c) && PathOf(h, root, child, [child] + c) == Asked(g, root, p, name, c)
  {
    hide AddStep, WellFormed;
    LookupAgreement(g, h, root, p, name, ino, dir, spare, c);
  }

  /** The path asked about for an existing entry is the path of its inode, where the entry is the newest. */
  lemma NewestAsked(g: Graph, root: Addr, p: Addr, name: string, child: Addr, c: seq<Addr>)
    requires NamesAreGood(g) && Reaches(g, root, p, c) && child in g.nodes && child != root
    requires g.nodes[child].parents != [] && g.nodes[child].parents[0] == Entry(name, p)
    ensures Reaches(g, root, child, [child] + c) && PathOf(g, root, child, [child] + c) == Asked(g, root, p, name, c)
  {
    ChainNodes(g, root, p, c);
    var d := [child] + c;
    assert d[1..] == c;
    assert Named(d) == [child] + Named(c) && Named(d)[1..] == Named(c);
    NamesGood(g, Named(c));
    JoinSnoc(Names(g, Named(c)), name);
  }

  /** After a rename the moved child's path is the second path asked about. */
  lemma MovedAsked(g: Graph, h: Graph, root: Addr, p: Addr, name: string, np: Addr, nname: string, overwrite: bool,
                   child: Addr, d: seq<Addr>, rank: map<Addr, nat>)
    requires WellFormed(g) && Symmetric(g) && Acyclic(g, rank) && NamesAreGood(g)
    requires p in g.nodes && np in g.nodes && g.nodes[np].dir && HasKid(g, p, name, child) && child != root
    requires Reaches(g, root, np, d) && child !in d && MvChildRel(g, p, name, np, nname, overwrite, h, true)
    ensures Reaches(h, root, child, [child] + d) && PathOf(h, root, child, [child] + d) == Asked(g, root, np, nname, d)
  {
    hide WellFormed, MvChildRel, Acyclic;
    HasEntryFrom(g, p, name, child);
    AcyclicEnds(g, root, child, rank);
    var c :| Chain(g, root, child, c);
    RenameOperation(g, h, root, p, name, np, nname, overwrite, child, child, c, 0, d, rank);
    assert c[..1] == [child] && c[..0] == [];
    ChainNodes(g, root, np, d);
    NamesGood(g, Named(d));
    JoinSnoc(Names(g, Named(d)), nname);
    assert Names(g, Named(d)) + [nname] + [] == Names(g, Named(d)) + [nname];
  }

  lemma HasEntryFrom(g: Graph, p: Addr, name: string, child: Addr)
    requires Symmetric(g) && HasKid(g, p, name, child)
    ensures child in g.nodes
  {
    assert HasEntry(g, child, name, p);
  }
}
