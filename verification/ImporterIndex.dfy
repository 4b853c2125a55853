/**
  Who imports a file that is about to be deleted (src/runtime/file-delete.ts,
  src/runtime/reference-target-index.ts). Queries over any roots share three caches; on a fixed tree
  every answer is the one the definition gives. Paths are sequences of names. What parsing a file gives
  is part of the tree; None stands for a file or directory that cannot be read.

  The walk keeps a list of pending directories. `WalkIsComplete` is about the moment at which nothing is
  pending; the lemmas after the class say what one more directory does to the visited, pending and found
  ones. `ImportersFor` is the theorem about any order of queries.
*/
module ImporterIndex {
  import opened Options

  type Path = seq<string>

  datatype Dirent = Dirent(name: string, isDirectory: bool, isFile: bool)

  /** Directories with their entries, and the relative imports (resolved) of the source files. */
  datatype Tree = Tree(
    directories: map<Path, seq<Dirent>>, isSource: Path -> bool, bytes: Path -> nat, imports: Path -> Option<seq<Path>>)

  const INVENTORY_LIMIT := 100_000
  const FILE_LIMIT := 2 * 1024 * 1024
  const SOURCE_LIMIT := 16 * 1024 * 1024

  ghost predicate WellFormed(tree: Tree) {
    forall d, i, j :: d in tree.directories && 0 <= i < j < |tree.directories[d]| ==>
      tree.directories[d][i].name != tree.directories[d][j].name
  }

  predicate Skipped(name: string) {
    (name != [] && name[0] == '.') || name == "node_modules"
  }

  // ---------------------------------------------------------------- aliases of a target

  /** The position of the extension of a file name; the length when it has none. */
  function ExtensionAt(name: string): (i: nat)
    ensures i <= |name|
  {
    var dot := LastDot(name, |name|);
    if dot == 0 then |name| else dot
  }

  function LastDot(name: string, n: nat): (i: nat)
    requires n <= |name|
    ensures i <= n
  {
    if n == 0 then 0 else if name[n - 1] == '.' then n - 1 else LastDot(name, n - 1)
  }

  function Aliases(target: Path): set<Path> {
    {target} +
    if target != [] && ExtensionAt(target[|target| - 1]) < |target[|target| - 1]|
    then {target[..|target| - 1] + [target[|target| - 1][..ExtensionAt(target[|target| - 1])]]}
    else {}
  }

  /** An import names a target by its full path, without its extension, or as the index of a directory. */
  predicate Names(base: Path, target: Path) {
    base in Aliases(target) || base + ["index"] in Aliases(target)
  }

  lemma {:induction false} LastDotAt(stem: string, ext: string, n: nat)
    requires '.' !in ext && |stem| < n <= |stem| + 1 + |ext|
    ensures LastDot(stem + "." + ext, n) == |stem|
  {
    var name := stem + "." + ext;
    if n > |stem| + 1 {
      assert name[n - 1] == ext[n - 2 - |stem|];
      LastDotAt(stem, ext, n - 1);
    } else {
      assert name[|stem|] == '.';
    }
  }

  lemma {:induction false} LastDotMeans(name: string, n: nat)
    requires n <= |name|
    ensures var i := LastDot(name, n);
            (0 < i ==> i < n && name[i] == '.') && forall j :: i < j < n ==> name[j] != '.'
  {
    if n > 0 && name[n - 1] != '.' { LastDotMeans(name, n - 1); }
  }

  /** The alias is the path without an extension of its name, which is not the whole name. */
  ghost predicate WithoutExtension(target: Path, alias: Path) {
    exists dir: Path, stem: string, ext: string ::
      stem != [] && '.' !in ext && target == dir + [stem + "." + ext] && alias == dir + [stem]
  }

  lemma AliasHasStem(target: Path, alias: Path)
    requires alias in Aliases(target) && alias != target
    ensures WithoutExtension(target, alias)
  {
    var dir, name := target[..|target| - 1], target[|target| - 1];
    var dot := ExtensionAt(name);
    LastDotMeans(name, |name|);
    hide LastDot, Aliases;
    var stem, ext := name[..dot], name[dot + 1..];
    assert name == stem + "." + ext;
    assert target == dir + [stem + "." + ext];
  }

  /** A file is known by its path and by that without its extension. */
  lemma AliasesExactly(target: Path, alias: Path)
    ensures alias in Aliases(target) <==> alias == target || WithoutExtension(target, alias)
  {
    if alias != target && alias in Aliases(target) { AliasHasStem(target, alias); }
    if WithoutExtension(target, alias) {
      var dir: Path, stem: string, ext: string :|
        stem != [] && '.' !in ext && target == dir + [stem + "." + ext] && alias == dir + [stem];
      StemIsAlias(dir, stem, ext);
    }
  }

  lemma StemIsAlias(dir: Path, stem: string, ext: string)
    requires stem != [] && '.' !in ext
    ensures dir + [stem] in Aliases(dir + [stem + "." + ext])
  {
    var name := stem + "." + ext;
    var target := dir + [name];
    LastDotAt(stem, ext, |name|);
    hide LastDot;
    assert target[|target| - 1] == name && target[..|target| - 1] == dir;
    assert name[..|stem|] == stem;
  }

  type Index = map<Path, seq<Path>>

  ghost predicate IsIndexOf(index: Index, targets: seq<Path>) {
    && (forall alias :: alias in index ==> forall t :: t in index[alias] ==> t in targets && alias in Aliases(t))
    && (forall t, alias :: t in targets && alias in Aliases(t) ==> alias in index && t in index[alias])
  }

  method CreateReferenceTargetIndex(targets: seq<Path>) returns (index: Index)
    ensures IsIndexOf(index, targets)
  {
    index := map[];
    var i := 0;
    while i < |targets|
      invariant i <= |targets| && IsIndexOf(index, targets[..i])
    {
      var target := targets[i];
      var aliases := Aliases(target);
      ghost var before := index;
      while aliases != {}
        invariant aliases <= Aliases(target)
        invariant forall a :: a in before ==> a in index
        invariant forall a, t :: a in index && t in index[a] ==>
                    (a in before && t in before[a]) || (t == target && a in Aliases(target))
        invariant forall a, t :: a in before && t in before[a] ==> t in index[a]
        invariant forall a :: a in Aliases(target) - aliases ==> a in index && target in index[a]
        decreases aliases
      {
        var alias :| alias in aliases;
        index := index[alias := (if alias in index then index[alias] else []) + [target]];
        aliases := aliases - {alias};
      }
      assert targets[..i + 1] == targets[..i] + [target];
      i := i + 1;
    }
    assert targets[..i] == targets;
  }

  /** referencedTargets: every target that one of the imports names. */
  method ReferencedTargets(index: Index, targets: seq<Path>, bases: seq<Path>) returns (matches: set<Path>)
    requires IsIndexOf(index, targets)
    ensures forall t :: t in matches <==> t in targets && exists base :: base in bases && Names(base, t)
  {
    matches := {};
    var i := 0;
    while i < |bases|
      invariant i <= |bases|
      invariant forall t :: t in matches <==> t in targets && exists base :: base in bases[..i] && Names(base, t)
    {
      var base := bases[i];
      assert bases[..i + 1] == bases[..i] + [base];
      var direct, inside := Matches(index, base), Matches(index, base + ["index"]);
      forall t ensures t in direct || t in inside <==> t in targets && Names(base, t) {
        MatchesAre(index, targets, base, t);
        MatchesAre(index, targets, base + ["index"], t);
      }
      matches := matches + (set t | t in direct) + (set t | t in inside);
      i := i + 1;
    }
    assert bases[..i] == bases;
  }

  function Matches(index: Index, alias: Path): seq<Path> {
    if alias in index then index[alias] else []
  }

  lemma MatchesAre(index: Index, targets: seq<Path>, alias: Path, t: Path)
    requires IsIndexOf(index, targets)
    ensures t in Matches(index, alias) <==> t in targets && alias in Aliases(t)
  {
  }

  // ---------------------------------------------------------------- the definition

  /** An entry that a walk takes: a directory to enter, or a file to look at. */
  predicate Wanted(e: Dirent, directory: bool) {
    !Skipped(e.name) && if directory then e.isDirectory else !e.isDirectory && e.isFile
  }

  predicate Has(tree: Tree, d: Path, name: string, directory: bool) {
    d in tree.directories
    && exists i :: 0 <= i < |tree.directories[d]| && tree.directories[d][i].name == name
                   && Wanted(tree.directories[d][i], directory)
  }

  /** A directory below the root that is not skipped on the way. */
  predicate DirectoryUnder(tree: Tree, root: Path, d: Path)
    decreases |d|
  {
    d == root
    || (d != [] && DirectoryUnder(tree, root, d[..|d| - 1]) && Has(tree, d[..|d| - 1], d[|d| - 1], true))
  }

  predicate FileUnder(tree: Tree, root: Path, f: Path) {
    f != [] && DirectoryUnder(tree, root, f[..|f| - 1]) && Has(tree, f[..|f| - 1], f[|f| - 1], false)
  }

  /** f is a source file under the root, not itself to be deleted, with an import that names the target. */
  predicate Imports(tree: Tree, targets: seq<Path>, root: Path, target: Path, f: Path) {
    && FileUnder(tree, root, f) && f !in targets && target in targets
    && tree.isSource(f) && tree.imports(f).Some?
    && exists base :: base in tree.imports(f).value && Names(base, target)
  }

  ghost predicate Distinct(s: seq<Path>) {
    forall i, j :: 0 <= i < j < |s| ==> s[i] != s[j]
  }

  /** The list has every importer of the target once, and nothing else. */
  ghost predicate ListsImporters(list: seq<Path>, tree: Tree, targets: seq<Path>, root: Path, target: Path) {
    Distinct(list) && forall f :: f in list <==> Imports(tree, targets, root, target, f)
  }

  /** A source file to look at that cannot be read or is too large. */
  predicate BadSource(tree: Tree, targets: seq<Path>, f: Path) {
    f !in targets && tree.isSource(f) && (tree.imports(f).None? || tree.bytes(f) > FILE_LIMIT)
  }

  /** A directory or a source file under the root that cannot be read, or a file that is too large. */
  ghost predicate Unreadable(tree: Tree, targets: seq<Path>, root: Path) {
    || (exists d :: DirectoryUnder(tree, root, d) && d !in tree.directories)
    || (exists f :: FileUnder(tree, root, f) && BadSource(tree, targets, f))
  }

  lemma {:induction false} UnderIsBelow(tree: Tree, root: Path, d: Path)
    requires DirectoryUnder(tree, root, d)
    ensures root <= d
    decreases |d|
  {
    if d != root { UnderIsBelow(tree, root, d[..|d| - 1]); }
  }

  // ---------------------------------------------------------------- one walk over the tree

  ghost predicate AllUnder(tree: Tree, root: Path, visited: set<Path>) {
    forall d :: d in visited ==> DirectoryUnder(tree, root, d)
  }

  ghost predicate Reached(tree: Tree, root: Path, visited: set<Path>, pending: seq<Path>) {
    && Distinct(pending)
    && visited <= tree.directories.Keys
    && (forall d :: d in pending ==> d !in visited && DirectoryUnder(tree, root, d))
    && AllUnder(tree, root, visited)
  }

  /** Every directory seen, except the root, was found by visiting its parent. */
  ghost predicate Linked(root: Path, visited: set<Path>, pending: seq<Path>) {
    && (forall d :: d in visited || d in pending ==> d == root || (d != [] && d[..|d| - 1] in visited))
    && (root in visited || root in pending)
  }

  ghost predicate Closed(tree: Tree, visited: set<Path>, pending: seq<Path>) {
    forall d, n :: d in visited && Has(tree, d, n, true) ==> d + [n] in visited || d + [n] in pending
  }

  ghost predicate FoundIn(tree: Tree, visited: set<Path>, found: seq<Path>) {
    && Distinct(found)
    && (forall f :: f in found <==> f != [] && f[..|f| - 1] in visited && Has(tree, f[..|f| - 1], f[|f| - 1], false))
  }

  /** What a walk from the root knows: visited and pending directories, and the files found so far. */
  ghost predicate Walking(tree: Tree, root: Path, visited: set<Path>, pending: seq<Path>, found: seq<Path>) {
    Reached(tree, root, visited, pending) && Linked(root, visited, pending) && Closed(tree, visited, pending)
    && FoundIn(tree, visited, found)
  }

  lemma WalkStarts(tree: Tree, root: Path)
    ensures Walking(tree, root, {}, [root], [])
  {
  }

  lemma ClosedAt(tree: Tree, visited: set<Path>, parent: Path, d: Path)
    requires Closed(tree, visited, []) && parent in visited
    requires d != [] && parent == d[..|d| - 1] && Has(tree, parent, d[|d| - 1], true)
    ensures d in visited
  {
    assert d == parent + [d[|d| - 1]];
  }

  /** Nothing pending: every directory under the root was visited. */
  lemma {:induction false} AllVisited(tree: Tree, root: Path, visited: set<Path>, d: Path)
    requires Closed(tree, visited, []) && root in visited && DirectoryUnder(tree, root, d)
    ensures d in visited
    decreases |d|
  {
    hide Closed, Has;
    if d != root {
      AllVisited(tree, root, visited, d[..|d| - 1]);
      ClosedAt(tree, visited, d[..|d| - 1], d);
    }
  }

  lemma WalkIsComplete(tree: Tree, root: Path, visited: set<Path>, found: seq<Path>)
    requires Walking(tree, root, visited, [], found)
    ensures Distinct(found) && forall f :: f in found <==> FileUnder(tree, root, f)
    ensures forall d :: DirectoryUnder(tree, root, d) ==> d in tree.directories
  {
    forall d | DirectoryUnder(tree, root, d) ensures d in tree.directories {
      AllVisited(tree, root, visited, d);
    }
    forall f | FileUnder(tree, root, f) ensures f in found {
      AllVisited(tree, root, visited, f[..|f| - 1]);
    }
  }

  /** The wanted entries of a directory, with their full paths. */
  function Select(d: Path, entries: seq<Dirent>, directory: bool): seq<Path> {
    if entries == [] then []
    else (if Wanted(entries[0], directory) then [d + [entries[0].name]] else []) + Select(d, entries[1..], directory)
  }

  predicate NamesDiffer(entries: seq<Dirent>) {
    forall i, j :: 0 <= i < j < |entries| ==> entries[i].name != entries[j].name
  }

  ghost predicate Selected(d: Path, entries: seq<Dirent>, directory: bool, c: Path) {
    exists i :: 0 <= i < |entries| && c == d + [entries[i].name] && Wanted(entries[i], directory)
  }

  lemma {:induction false} SelectIs(d: Path, entries: seq<Dirent>, directory: bool)
    requires NamesDiffer(entries)
    ensures forall c :: c in Select(d, entries, directory) <==> Selected(d, entries, directory, c)
    ensures Distinct(Select(d, entries, directory))
  {
    if entries != [] {
      var rest := Select(d, entries[1..], directory);
      SelectIs(d, entries[1..], directory);
      forall c ensures Selected(d, entries, directory, c)
                  <==> (c == d + [entries[0].name] && Wanted(entries[0], directory)) || c in rest
      {
        if Selected(d, entries[1..], directory, c) {
          var i :| 0 <= i < |entries[1..]| && c == d + [entries[1..][i].name] && Wanted(entries[1..][i], directory);
          assert entries[i + 1] == entries[1..][i];
        }
        if Selected(d, entries, directory, c) {
          var i :| 0 <= i < |entries| && c == d + [entries[i].name] && Wanted(entries[i], directory);
          if i > 0 { assert entries[1..][i - 1] == entries[i]; }
        }
      }
      var first := if Wanted(entries[0], directory) then [d + [entries[0].name]] else [];
      forall x | x in rest ensures x !in first {
        var i :| 0 <= i < |entries[1..]| && x == d + [entries[1..][i].name];
        assert entries[1..][i] == entries[i + 1];
        assert x[|d|] != (d + [entries[0].name])[|d|];
      }
      DistinctAppend(first, rest);
    }
  }

  // ---------------------------------------------------------------- the caches

  class ReferenceVerification {
    const tree: Tree
    const targets: seq<Path>
    const index: Index
    var candidates: nat
    var sourceBytes: nat
    var directories: map<Path, seq<Dirent>>
    var imports: map<Path, seq<Path>>
    var roots: map<Path, map<Path, seq<Path>>>

    constructor (tree: Tree, targets: seq<Path>, index: Index)
      requires WellFormed(tree) && IsIndexOf(index, targets)
      ensures Valid() && this.tree == tree && this.targets == targets
    {
      this.tree, this.targets, this.index := tree, targets, index;
      candidates, sourceBytes, directories, imports, roots := 0, 0, map[], map[], map[];
    }

    /** Every cache holds what the tree and the definition say. */
    ghost predicate Valid()
      reads this
    {
      && WellFormed(tree) && IsIndexOf(index, targets)
      && (forall d :: d in directories ==> d in tree.directories && directories[d] == tree.directories[d])
      && (forall f :: f in imports ==> tree.imports(f) == Some(imports[f]) && tree.bytes(f) <= FILE_LIMIT)
      && (forall root :: root in roots ==> Answers(roots[root], root) && !Unreadable(tree, targets, root))
    }

    /** The importers of every target below a root. */
    ghost predicate Answers(importers: map<Path, seq<Path>>, root: Path)
      reads this
    {
      forall t :: t in targets ==>
        ListsImporters(if t in importers then importers[t] else [], tree, targets, root, t)
    }

    /** The entries of a directory, from the cache or from disk; None past the inventory limit. */
    method ListDirectory(d: Path) returns (entries: Option<seq<Dirent>>)
      requires Valid()
      modifies `candidates, `directories
      ensures Valid()
      ensures entries.Some? ==> d in tree.directories && entries.value == tree.directories[d]
      ensures entries.None? ==> d !in tree.directories || candidates > INVENTORY_LIMIT
    {
      if d in directories {
        return Some(directories[d]);
      }
      if d !in tree.directories {
        return None;
      }
      candidates := candidates + |tree.directories[d]|;
      if candidates > INVENTORY_LIMIT {
        return None;
      }
      directories := directories[d := tree.directories[d]];
      entries := Some(tree.directories[d]);
    }

    /** referenceCandidates: every file under the root, once. */
    method ReferenceCandidates(root: Path) returns (found: Option<seq<Path>>)
      requires Valid()
      modifies `candidates, `directories
      ensures Valid()
      ensures found.Some? ==> Distinct(found.value) && forall f :: f in found.value <==> FileUnder(tree, root, f)
      ensures found.Some? ==> forall d :: DirectoryUnder(tree, root, d) ==> d in tree.directories
      ensures found.None? ==> Unreadable(tree, targets, root) || candidates > INVENTORY_LIMIT
    {
      hide Walking, FileUnder, DirectoryUnder, Select, WellFormed, IsIndexOf, Answers, BadSource;
      var pending, files := [root], [];
      ghost var visited: set<Path> := {};
      WalkStarts(tree, root);
      while pending != []
        invariant Valid() && Walking(tree, root, visited, pending, files)
        decreases tree.directories.Keys - visited
      {
        var d := pending[|pending| - 1];
        assert pending == pending[..|pending| - 1] + [d];
        pending := pending[..|pending| - 1];
        var entries := ListDirectory(d);
        PendingIsUnder(tree, root, visited, pending, d, files);
        if entries.None? {
          return None;
        }
        WalkOneDirectory(tree, root, visited, pending, d, files);
        WalkProgresses(tree, root, visited, pending, d, files);
        pending := pending + Select(d, entries.value, true);
        files := files + Select(d, entries.value, false);
        visited := visited + {d};
      }
      WalkIsComplete(tree, root, visited, files);
      found := Some(files);
    }

    /** The resolved relative imports of a source file, from the cache or parsed; None past a limit. */
    method ReadImports(f: Path) returns (bases: Option<seq<Path>>)
      requires Valid()
      modifies `sourceBytes, `imports
      ensures Valid()
      ensures bases.Some? ==> tree.imports(f) == bases && tree.bytes(f) <= FILE_LIMIT
      ensures bases.None? ==> tree.imports(f).None? || tree.bytes(f) > FILE_LIMIT || sourceBytes > SOURCE_LIMIT
    {
      if f in imports {
        return Some(imports[f]);
      }
      var size := tree.bytes(f);
      sourceBytes := sourceBytes + size;
      if size > FILE_LIMIT || sourceBytes > SOURCE_LIMIT {
        return None;
      }
      bases := tree.imports(f);
      if bases.Some? {
        imports := imports[f := bases.value];
      }
    }

    /**
      importersFor: exactly the importers of the file below the root, each listed once, unless something
      cannot be read or a limit is exceeded. There is no answer for a root that cannot be read.
    */
    method ImportersFor(file: Path, root: Path) returns (answer: Option<seq<Path>>)
      requires Valid() && file in targets
      modifies this
      ensures Valid()
      ensures answer.Some? ==> ListsImporters(answer.value, tree, targets, root, file)
      ensures answer.Some? ==> !Unreadable(tree, targets, root)
      ensures answer.None? ==>
                Unreadable(tree, targets, root) || candidates > INVENTORY_LIMIT || sourceBytes > SOURCE_LIMIT
    {
      if root in roots {
        return Some(if file in roots[root] then roots[root][file] else []);
      }
      var found := ReferenceCandidates(root);
      if found.None? {
        return None;
      }
      var importers: map<Path, seq<Path>> := map[];
      var i := 0;
      while i < |found.value|
        invariant i <= |found.value| && Valid()
        invariant Gathered(importers, root, found.value[..i])
        invariant forall f :: f in found.value[..i] ==> !BadSource(tree, targets, f)
      {
        var candidate := found.value[i];
        assert found.value[..i + 1] == found.value[..i] + [candidate];
        if candidate in targets || !tree.isSource(candidate) {
          SkipCandidate(importers, root, found.value[..i], candidate);
        } else {
          var bases := ReadImports(candidate);
          if bases.None? {
            assert FileUnder(tree, root, candidate);
            assert BadSource(tree, targets, candidate) || sourceBytes > SOURCE_LIMIT;
            return None;
          }
          var matches := ReferencedTargets(index, targets, bases.value);
          importers := AddImporter(importers, root, found.value[..i], candidate, bases.value, matches);
        }
        i := i + 1;
      }
      assert found.value[..i] == found.value;
      GatheredAnswers(importers, root, found.value);
      roots := roots[root := importers];
      answer := Some(if file in importers then importers[file] else []);
    }

    /** The importers among the candidates looked at so far. */
    ghost predicate Gathered(importers: map<Path, seq<Path>>, root: Path, seen: seq<Path>) {
      && (forall t :: t in importers ==> Distinct(importers[t]))
      && (forall t, f :: Listed(importers, t, f) <==> f in seen && Imports(tree, targets, root, t, f))
    }

    lemma SkipCandidate(importers: map<Path, seq<Path>>, root: Path, seen: seq<Path>, candidate: Path)
      requires Gathered(importers, root, seen) && (candidate in targets || !tree.isSource(candidate))
      ensures Gathered(importers, root, seen + [candidate])
    {
      hide Imports;
      assert forall t :: !Imports(tree, targets, root, t, candidate) by {
        forall t ensures !Imports(tree, targets, root, t, candidate) { NotAnImporter(root, t, candidate); }
      }
    }

    lemma NotAnImporter(root: Path, t: Path, f: Path)
      ensures f in targets || !tree.isSource(f) ==> !Imports(tree, targets, root, t, f)
    {
    }

    /** The loop over the targets that a candidate names. */
    method AddImporter(
      before: map<Path, seq<Path>>, ghost root: Path, ghost seen: seq<Path>, candidate: Path,
      ghost bases: seq<Path>, matches: set<Path>)
      returns (importers: map<Path, seq<Path>>)
      requires Gathered(before, root, seen) && candidate !in seen
      requires FileUnder(tree, root, candidate) && candidate !in targets && tree.isSource(candidate)
      requires tree.imports(candidate) == Some(bases)
      requires forall t :: t in matches <==> t in targets && exists base :: base in bases && Names(base, t)
      ensures Gathered(importers, root, seen + [candidate])
    {
      hide Gathered, Imports, FileUnder, Names;
      importers := before;
      var left := matches;
      NothingAdded(before, candidate);
      while left != {}
        invariant left <= matches
        invariant Added(before, matches - left, candidate, importers)
        decreases left
      {
        var target :| target in left;
        AddOne(before, matches - left, target, candidate, importers);
        importers := importers[target := (if target in importers then importers[target] else []) + [candidate]];
        assert matches - left + {target} == matches - (left - {target});
        left := left - {target};
      }
      assert matches - left == matches;
      ImportersAre(root, candidate, bases, matches);
      AddedIsGathered(before, root, seen, candidate, matches, importers);
    }

    lemma ImportersAre(root: Path, candidate: Path, bases: seq<Path>, matches: set<Path>)
      requires FileUnder(tree, root, candidate) && candidate !in targets && tree.isSource(candidate)
      requires tree.imports(candidate) == Some(bases)
      requires forall t :: t in matches <==> t in targets && exists base :: base in bases && Names(base, t)
      ensures forall t :: Imports(tree, targets, root, t, candidate) <==> t in matches
    {
      hide FileUnder, Names;
    }

    lemma AddedIsDistinct(
      before: map<Path, seq<Path>>, candidate: Path, matches: set<Path>, importers: map<Path, seq<Path>>, t: Path)
      requires t in before ==> Distinct(before[t]) && candidate !in before[t]
      requires Added(before, matches, candidate, importers) && t in importers
      ensures Distinct(importers[t])
    {
      var list, more := if t in before then before[t] else [], if t in matches then [candidate] else [];
      assert importers[t] == list + more;
      hide Added;
      DistinctAppend(list, more);
    }

    lemma AddedLists(
      before: map<Path, seq<Path>>, candidate: Path, matches: set<Path>, importers: map<Path, seq<Path>>, t: Path,
      f: Path)
      requires Added(before, matches, candidate, importers)
      ensures Listed(importers, t, f) <==> Listed(before, t, f) || (t in matches && f == candidate)
    {
    }

    lemma AddedIsGathered(
      before: map<Path, seq<Path>>, root: Path, seen: seq<Path>, candidate: Path, matches: set<Path>,
      importers: map<Path, seq<Path>>)
      requires Gathered(before, root, seen) && candidate !in seen && Added(before, matches, candidate, importers)
      requires forall t :: Imports(tree, targets, root, t, candidate) <==> t in matches
      ensures Gathered(importers, root, seen + [candidate])
    {
      hide Imports, Added, Distinct;
      forall t | t in importers ensures Distinct(importers[t]) {
        if t in before {
          assert Listed(before, t, candidate) ==> candidate in seen;
          assert candidate !in before[t];
        }
        AddedIsDistinct(before, candidate, matches, importers, t);
      }
      forall t, f ensures Listed(importers, t, f) <==> f in seen + [candidate] && Imports(tree, targets, root, t, f) {
        AddedLists(before, candidate, matches, importers, t, f);
      }
    }

    lemma GatheredAnswers(importers: map<Path, seq<Path>>, root: Path, found: seq<Path>)
      requires Gathered(importers, root, found)
      requires forall f :: f in found <==> FileUnder(tree, root, f)
      ensures Answers(importers, root)
    {
    }
  }

  predicate Listed(importers: map<Path, seq<Path>>, t: Path, f: Path) {
    t in importers && f in importers[t]
  }

  /** The importers so far, with the candidate appended for the given targets. */
  ghost predicate Added(
    before: map<Path, seq<Path>>, matches: set<Path>, candidate: Path, importers: map<Path, seq<Path>>)
  {
    && importers.Keys == before.Keys + matches
    && forall t :: t in importers ==>
         importers[t] == (if t in before then before[t] else []) + (if t in matches then [candidate] else [])
  }

  lemma NothingAdded(before: map<Path, seq<Path>>, candidate: Path)
    ensures Added(before, {}, candidate, before)
  {
  }

  lemma AddOne(
    before: map<Path, seq<Path>>, done: set<Path>, target: Path, candidate: Path, importers: map<Path, seq<Path>>)
    requires Added(before, done, candidate, importers) && target !in done
    ensures Added(before, done + {target}, candidate,
                  importers[target := (if target in importers then importers[target] else []) + [candidate]])
  {
  }

  lemma PendingIsUnder(tree: Tree, root: Path, visited: set<Path>, others: seq<Path>, d: Path, found: seq<Path>)
    requires Walking(tree, root, visited, others + [d], found)
    ensures DirectoryUnder(tree, root, d)
  {
    assert (others + [d])[|others|] == d;
  }

  lemma WalkProgresses(tree: Tree, root: Path, visited: set<Path>, others: seq<Path>, d: Path, found: seq<Path>)
    requires Walking(tree, root, visited, others + [d], found)
    ensures d !in visited
  {
    assert (others + [d])[|others|] == d;
  }

  /** A child of the directory that is visited now was not seen before. */
  lemma ChildIsNew(
    tree: Tree, root: Path, visited: set<Path>, pending: seq<Path>, found: seq<Path>, d: Path, c: Path)
    requires Walking(tree, root, visited, pending, found) && d in pending
    requires c != [] && c[..|c| - 1] == d
    ensures c != root && c !in visited && c !in pending && c !in found && c != d
  {
    UnderIsBelow(tree, root, d);
    assert |root| <= |d| < |c|;
  }

  lemma SelectedChild(d: Path, entries: seq<Dirent>, directory: bool, c: Path)
    requires Selected(d, entries, directory, c)
    ensures c != [] && c[..|c| - 1] == d
    ensures exists i :: 0 <= i < |entries| && entries[i].name == c[|c| - 1] && Wanted(entries[i], directory)
  {
    var i :| 0 <= i < |entries| && c == d + [entries[i].name] && Wanted(entries[i], directory);
    assert c[..|c| - 1] == d && c[|c| - 1] == entries[i].name;
  }

  lemma SelectHas(tree: Tree, d: Path, directory: bool, c: Path)
    requires WellFormed(tree) && d in tree.directories
    ensures c in Select(d, tree.directories[d], directory)
       <==> c != [] && c[..|c| - 1] == d && Has(tree, d, c[|c| - 1], directory)
  {
    var entries := tree.directories[d];
    SelectIs(d, entries, directory);
    if Selected(d, entries, directory, c) { SelectedChild(d, entries, directory, c); }
    if c != [] && c[..|c| - 1] == d && Has(tree, d, c[|c| - 1], directory) {
      var i :| 0 <= i < |entries| && entries[i].name == c[|c| - 1] && Wanted(entries[i], directory);
      assert c == d + [entries[i].name];
    }
  }

  lemma DistinctAppend(a: seq<Path>, b: seq<Path>)
    requires Distinct(a) && Distinct(b) && forall x :: x in b ==> x !in a
    ensures Distinct(a + b)
  {
    forall i, j | 0 <= i < j < |a + b| ensures (a + b)[i] != (a + b)[j] {
      if i < |a| <= j { assert (a + b)[j] in b && (a + b)[i] in a; }
    }
  }

  lemma PendingStays(tree: Tree, root: Path, visited: set<Path>, others: seq<Path>, d: Path, found: seq<Path>)
    requires WellFormed(tree) && Walking(tree, root, visited, others + [d], found) && d in tree.directories
    ensures var dirs := Select(d, tree.directories[d], true);
            && Distinct(others + dirs)
            && forall c :: c in others + dirs ==> c !in visited + {d} && DirectoryUnder(tree, root, c)
    ensures forall c :: c in Select(d, tree.directories[d], true) ==> c != [] && c[..|c| - 1] == d
  {
    var pending := others + [d];
    assert pending[|others|] == d && d in pending;
    var dirs := Select(d, tree.directories[d], true);
    SelectIs(d, tree.directories[d], true);
    hide Select;
    assert forall c :: c in others ==> c in pending;
    forall i | 0 <= i < |others| ensures others[i] != d { assert pending[i] == others[i]; }
    assert Distinct(others) by {
      forall i, j | 0 <= i < j < |others| ensures others[i] != others[j] { assert pending[i] != pending[j]; }
    }
    forall c | c in dirs
      ensures c !in others && c !in visited + {d} && DirectoryUnder(tree, root, c) && c != [] && c[..|c| - 1] == d
    {
      SelectHas(tree, d, true, c);
      ChildIsNew(tree, root, visited, pending, found, d, c);
    }
    DistinctAppend(others, dirs);
  }

  lemma FoundStays(tree: Tree, root: Path, visited: set<Path>, others: seq<Path>, d: Path, found: seq<Path>)
    requires WellFormed(tree) && Walking(tree, root, visited, others + [d], found) && d in tree.directories
    ensures FoundIn(tree, visited + {d}, found + Select(d, tree.directories[d], false))
  {
    var pending := others + [d];
    assert pending[|others|] == d && d in pending;
    var files := Select(d, tree.directories[d], false);
    SelectIs(d, tree.directories[d], false);
    hide Select;
    forall c | c in files ensures c !in found {
      SelectHas(tree, d, false, c);
      ChildIsNew(tree, root, visited, pending, found, d, c);
    }
    DistinctAppend(found, files);
    forall f ensures f in found + files
                <==> f != [] && f[..|f| - 1] in visited + {d} && Has(tree, f[..|f| - 1], f[|f| - 1], false)
    {
      SelectHas(tree, d, false, f);
    }
  }

  lemma OneMoreUnder(tree: Tree, root: Path, visited: set<Path>, pending: seq<Path>, d: Path)
    requires Reached(tree, root, visited, pending) && d in pending && d in tree.directories
    ensures AllUnder(tree, root, visited + {d}) && visited + {d} <= tree.directories.Keys
  {
    hide DirectoryUnder;
  }

  lemma StillReached(tree: Tree, root: Path, visited: set<Path>, others: seq<Path>, d: Path, found: seq<Path>)
    requires WellFormed(tree) && Walking(tree, root, visited, others + [d], found) && d in tree.directories
    ensures Reached(tree, root, visited + {d}, others + Select(d, tree.directories[d], true))
  {
    PendingStays(tree, root, visited, others, d, found);
    assert (others + [d])[|others|] == d && d in others + [d];
    hide Select, Distinct, DirectoryUnder, AllUnder, Linked, Closed, FoundIn, WellFormed;
    OneMoreUnder(tree, root, visited, others + [d], d);
  }

  lemma StillLinked(tree: Tree, root: Path, visited: set<Path>, others: seq<Path>, d: Path, found: seq<Path>)
    requires WellFormed(tree) && Walking(tree, root, visited, others + [d], found) && d in tree.directories
    ensures Linked(root, visited + {d}, others + Select(d, tree.directories[d], true))
  {
    PendingStays(tree, root, visited, others, d, found);
    var pending := others + [d];
    assert pending[|others|] == d;
    assert forall c :: c in pending <==> c in others || c == d;
    hide Select, Has, DirectoryUnder, Closed, Reached, FoundIn;
  }

  lemma StillClosed(tree: Tree, root: Path, visited: set<Path>, others: seq<Path>, d: Path, found: seq<Path>)
    requires WellFormed(tree) && Walking(tree, root, visited, others + [d], found) && d in tree.directories
    ensures Closed(tree, visited + {d}, others + Select(d, tree.directories[d], true))
  {
    var pending, dirs := others + [d], Select(d, tree.directories[d], true);
    assert forall c :: c in pending <==> c in others || c == d;
    forall n | Has(tree, d, n, true) ensures d + [n] in dirs {
      assert (d + [n])[..|d|] == d && (d + [n])[|d|] == n;
      SelectHas(tree, d, true, d + [n]);
    }
    hide Select, Has, DirectoryUnder, Linked, Reached, FoundIn;
    forall v, n | v in visited + {d} && Has(tree, v, n, true)
      ensures v + [n] in visited + {d} || v + [n] in others + dirs
    {
      if v in visited { assert v + [n] in visited || v + [n] in pending; }
    }
  }

  /** Visiting one pending directory keeps what the walk knows. */
  lemma WalkOneDirectory(
    tree: Tree, root: Path, visited: set<Path>, others: seq<Path>, d: Path, found: seq<Path>)
    requires WellFormed(tree) && Walking(tree, root, visited, others + [d], found) && d in tree.directories
    ensures Walking(tree, root, visited + {d}, others + Select(d, tree.directories[d], true),
                    found + Select(d, tree.directories[d], false))
  {
    hide Reached, Linked, Closed, FoundIn, Select;
    StillReached(tree, root, visited, others, d, found);
    StillLinked(tree, root, visited, others, d, found);
    StillClosed(tree, root, visited, others, d, found);
    FoundStays(tree, root, visited, others, d, found);
  }
}
