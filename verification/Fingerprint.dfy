/** The directory walk that feeds the cache fingerprint, and the byte stream it produces. */
module Fingerprint {
  import opened Wrappers
  import opened Ordering
  import opened Lines

  /**
   * A file whose content cannot be read has none. A directory's entries are those a listing yields,
   * none when it cannot be listed; they have no order of their own, each read may list them differently.
   */
  datatype Tree = File(content: Option<string>) | Dir(children: map<string, Tree>)

  const PATH_LE: (Path, Path) -> bool := Lex(STRING_LE)

  lemma PathsAreOrdered()
    ensures TotalOrder(PATH_LE)
  {
    StringsAreOrdered();
    LexIsTotalOrder(STRING_LE);
  }

  ghost function PathsInOrder(s: set<Path>): (out: seq<Path>)
    ensures multiset(out) == multiset(s) && Sorted(PATH_LE, out)
    ensures forall i :: 0 <= i < |out| ==> out[i] in s
  {
    PathsAreOrdered();
    InOrderArranges(PATH_LE, s);
    var out := InOrder(PATH_LE, s);
    assert forall i :: 0 <= i < |out| ==> out[i] in multiset(out);
    out
  }

  ghost function NamesInOrder(s: set<string>): (out: seq<string>)
    ensures multiset(out) == multiset(s) && Sorted(STRING_LE, out)
    ensures forall i :: 0 <= i < |out| ==> out[i] in s
  {
    StringsAreOrdered();
    InOrderArranges(STRING_LE, s);
    var out := InOrder(STRING_LE, s);
    assert forall i :: 0 <= i < |out| ==> out[i] in multiset(out);
    out
  }

  lemma SortedPaths(listing: seq<Path>, s: set<Path>)
    requires multiset(listing) == multiset(s)
    ensures Sort(PATH_LE, listing) == PathsInOrder(s)
  {
    PathsAreOrdered();
    SortGivesInOrder(PATH_LE, listing, s);
  }

  lemma SortedNames(listing: seq<string>, s: set<string>)
    requires multiset(listing) == multiset(s)
    ensures Sort(STRING_LE, listing) == NamesInOrder(s)
  {
    StringsAreOrdered();
    SortGivesInOrder(STRING_LE, listing, s);
  }

  ghost function FilesUnder(t: Tree, at: Path): set<Path> {
    match t
    case File(_) => {at}
    case Dir(children) => set k, p | k in children && p in FilesUnder(children[k], at + [k]) :: p
  }

  ghost function FilesOf(children: map<string, Tree>, keys: set<string>, at: Path): set<Path>
    requires keys <= children.Keys
  {
    set k, p | k in keys && p in FilesUnder(children[k], at + [k]) :: p
  }

  lemma {:induction false} FilesStartAt(t: Tree, at: Path)
    ensures forall p :: p in FilesUnder(t, at) ==> at <= p
  {
    match t
    case File(_) =>
    case Dir(children) =>
      forall k, p | k in children && p in FilesUnder(children[k], at + [k]) ensures at <= p {
        FilesStartAt(children[k], at + [k]);
      }
  }

  /** Different entries of a directory share no file. */
  lemma SiblingsDisjoint(children: map<string, Tree>, keys: set<string>, k: string, at: Path)
    requires keys <= children.Keys && k in children && k !in keys
    ensures FilesOf(children, keys, at) !! FilesUnder(children[k], at + [k])
    ensures FilesOf(children, keys + {k}, at) == FilesOf(children, keys, at) + FilesUnder(children[k], at + [k])
  {
    FilesStartAt(children[k], at + [k]);
    assert forall p :: p in FilesUnder(children[k], at + [k]) ==> p[|at|] == k;
    forall j, p | j in keys && p in FilesUnder(children[j], at + [j]) ensures p !in FilesUnder(children[k], at + [k]) {
      FilesStartAt(children[j], at + [j]);
      assert p[|at|] == j;
    }
  }

  ghost predicate SplitOf(seen: set<string>, rest: set<string>, all: set<string>) {
    seen !! rest && seen + rest == all
  }

  lemma OneMoreEntry(children: map<string, Tree>, seen: set<string>, rest: set<string>, k: string, at: Path, had: set<Path>)
    requires SplitOf(seen, rest, children.Keys) && k in rest && had !! FilesUnder(Dir(children), at)
    ensures SplitOf(seen + {k}, rest - {k}, children.Keys)
    ensures had + FilesOf(children, seen, at) !! FilesUnder(children[k], at + [k])
    ensures had + FilesOf(children, seen + {k}, at) == had + FilesOf(children, seen, at) + FilesUnder(children[k], at + [k])
    ensures children[k].File? ==>
              (multiset(had + FilesOf(children, seen + {k}, at))
               == multiset(had + FilesOf(children, seen, at)) + multiset{at + [k]})
  {
    SiblingsDisjoint(children, seen, k, at);
    assert FilesUnder(children[k], at + [k]) <= FilesUnder(Dir(children), at);
  }

  /**
   * Recursive collection into one shared list, sorted at the end of every level. From a
   * list holding `had` it leaves the ascending arrangement of `had` and every file under
   * `at`, each once, whatever order the reads came in.
   */
  method CollectFiles(t: Tree, at: Path, out: seq<Path>, ghost had: set<Path>) returns (out': seq<Path>)
    requires t.Dir? && multiset(out) == multiset(had) && had !! FilesUnder(t, at)
    ensures out' == PathsInOrder(had + FilesUnder(t, at))
    decreases t
  {
    var children := t.children;
    out' := out;
    var rest := children.Keys;
    ghost var seen: set<string>, sofar := {}, had;
    assert FilesOf(children, {}, at) == {};
    while rest != {}
      invariant SplitOf(seen, rest, children.Keys)
      invariant sofar == had + FilesOf(children, seen, at) && multiset(out') == multiset(sofar)
      decreases rest
    {
      var k :| k in rest;
      OneMoreEntry(children, seen, rest, k, at, had);
      match children[k] {
        case Dir(_) => out' := CollectFiles(children[k], at + [k], out', sofar);
        case File(_) => out' := out' + [at + [k]];
      }
      seen, sofar := seen + {k}, sofar + FilesUnder(children[k], at + [k]);
      rest := rest - {k};
    }
    assert seen == children.Keys;
    assert FilesOf(children, children.Keys, at) == FilesUnder(t, at);
    SortedPaths(out', sofar);
    out' := Sort(PATH_LE, out');
  }

  // ----- the hashed byte stream -----

  /** What is fed to the hasher, in order. */
  class Hasher {
    var fed: string
    constructor () ensures fed == "" { fed := ""; }
    method Update(bytes: string)
      modifies this
      ensures fed == old(fed) + bytes
    {
      fed := fed + bytes;
    }
  }

  const NUL: string := "\0"

  function Forward(s: string): string {
    seq(|s|, i requires 0 <= i < |s| => if s[i] == '\\' then '/' else s[i])
  }

  /** A path relative to the workspace root, with forward slashes. */
  function Rel(p: Path): string { if p == [] then "" else Forward(Join(p, '/')) }

  function Head(p: Path, tag: string): string { Rel(p) + NUL + tag + NUL }

  function FileRecord(p: Path, content: string): string { Head(p, "file") + content + NUL }

  function Lookup(t: Tree, p: Path): Option<Tree> {
    if p == [] then Some(t)
    else if t.Dir? && p[0] in t.children then Lookup(t.children[p[0]], p[1..])
    else None
  }

  /** Every collected path leads to a file. */
  lemma {:induction false} CollectedAreFiles(t: Tree, at: Path, p: Path)
    requires p in FilesUnder(t, at)
    ensures at <= p && Lookup(t, p[|at|..]).Some? && Lookup(t, p[|at|..]).value.File?
  {
    FilesStartAt(t, at);
    match t
    case File(_) => assert p[|at|..] == [];
    case Dir(children) =>
      var k :| k in children && p in FilesUnder(children[k], at + [k]);
      CollectedAreFiles(children[k], at + [k], p);
      assert p[|at|..][0] == k && p[|at|..][1..] == p[|at + [k]|..];
  }

  /** One stream after another; none when either fails. */
  function Cat(x: Option<string>, y: Option<string>): Option<string> {
    if x.Some? && y.Some? then Some(x.value + y.value) else None
  }

  function FileStream(p: Path, content: Option<string>): Option<string> {
    if content.Some? then Some(FileRecord(p, content.value)) else None
  }

  ghost function Records(t: Tree, at: Path, files: seq<Path>): Option<string>
    requires forall i :: 0 <= i < |files| ==> files[i] in FilesUnder(t, at)
  {
    if files == [] then Some("")
    else
      CollectedAreFiles(t, at, files[0]);
      Cat(FileStream(files[0], Lookup(t, files[0][|at|..]).value.content), Records(t, at, files[1..]))
  }

  /**
   * The stream of one input root: a function of the paths and contents under it, and of nothing
   * else; none when a file cannot be read.
   */
  ghost function PathStream(root: Option<Tree>, at: Path): Option<string> {
    match root
    case None => Some(Head(at, "missing"))
    case Some(File(content)) => FileStream(at, content)
    case Some(Dir(children)) =>
      var files := PathsInOrder(FilesUnder(Dir(children), at));
      Cat(Some(Head(at, "dir")), Records(Dir(children), at, files))
  }

  /** What the hasher has been fed when a stream on top of `before` succeeds. */
  function Fed(before: string, stream: Option<string>): Option<string> { Cat(Some(before), stream) }

  lemma FedCat(before: string, x: Option<string>, y: Option<string>)
    ensures Fed(before, Cat(x, y)) == if x.Some? then Fed(before + x.value, y) else None
  {
    if x.Some? && y.Some? { Assoc(before, x.value, y.value); }
  }

  method HashHead(hasher: Hasher, p: Path, tag: string)
    modifies hasher
    ensures hasher.fed == old(hasher.fed) + Head(p, tag)
  {
    hasher.Update(Rel(p));
    hasher.Update(NUL);
    hasher.Update(tag);
    hasher.Update(NUL);
    assert hasher.fed == old(hasher.fed) + Head(p, tag);
  }

  /** Fails on a file that cannot be read. */
  method HashFile(hasher: Hasher, p: Path, content: Option<string>) returns (ok: bool)
    modifies hasher
    ensures Fed(old(hasher.fed), FileStream(p, content)) == if ok then Some(hasher.fed) else None
  {
    HashHead(hasher, p, "file");
    if content.None? { return false; }
    hasher.Update(content.value);
    hasher.Update(NUL);
    assert hasher.fed == old(hasher.fed) + FileRecord(p, content.value);
    ok := true;
  }

  method HashFiles(hasher: Hasher, t: Tree, at: Path, files: seq<Path>) returns (ok: bool)
    requires forall i :: 0 <= i < |files| ==> files[i] in FilesUnder(t, at)
    modifies hasher
    ensures Fed(old(hasher.fed), Records(t, at, files)) == if ok then Some(hasher.fed) else None
  {
    for i := 0 to |files|
      invariant Fed(hasher.fed, Records(t, at, files[i..])) == Fed(old(hasher.fed), Records(t, at, files))
    {
      CollectedAreFiles(t, at, files[i]);
      assert files[i..][1..] == files[i + 1..];
      var content := Lookup(t, files[i][|at|..]).value.content;
      FedCat(hasher.fed, FileStream(files[i], content), Records(t, at, files[i + 1..]));
      ok := HashFile(hasher, files[i], content);
      if !ok { return; }
    }
    assert files[|files|..] == [] && hasher.fed + "" == hasher.fed;
    ok := true;
  }

  /** Hashes one input root; a directory by its collected files. */
  method HashPathState(hasher: Hasher, root: Option<Tree>, at: Path) returns (ok: bool)
    modifies hasher
    ensures Fed(old(hasher.fed), PathStream(root, at)) == if ok then Some(hasher.fed) else None
  {
    match root
    case None =>
      HashHead(hasher, at, "missing");
      ok := true;
    case Some(File(content)) =>
      ok := HashFile(hasher, at, content);
    case Some(Dir(children)) =>
      ghost var start := hasher.fed;
      HashHead(hasher, at, "dir");
      var files := CollectFiles(Dir(children), at, [], {});
      assert {} + FilesUnder(Dir(children), at) == FilesUnder(Dir(children), at);
      FedCat(start, Some(Head(at, "dir")), Records(Dir(children), at, files));
      ok := HashFiles(hasher, Dir(children), at, files);
  }

  // ----- the walk with exclusions -----

  /** The filtered stream visits entries level by level in name order, leaving out skipped paths. */
  ghost function FilteredStream(t: Tree, at: Path, skip: Path -> bool): Option<string>
    decreases t, 1, 0
  {
    if skip(at) then Some("")
    else
      match t
      case File(content) => FileStream(at, content)
      case Dir(children) =>
        Cat(Some(Head(at, "dir")), FilteredEntries(t, NamesInOrder(children.Keys), at, skip))
  }

  ghost function FilteredEntries(t: Tree, names: seq<string>, at: Path, skip: Path -> bool): Option<string>
    requires t.Dir?
    requires forall i :: 0 <= i < |names| ==> names[i] in t.children
    decreases t, 0, |names|
  {
    if names == [] then Some("")
    else Cat(FilteredStream(t.children[names[0]], at + [names[0]], skip), FilteredEntries(t, names[1..], at, skip))
  }

  /** The stream of one filtered root; a path that does not exist is recorded as missing. */
  ghost function FilteredRoot(root: Option<Tree>, at: Path, skip: Path -> bool): Option<string> {
    match root
    case None => Some(if skip(at) then "" else Head(at, "missing"))
    case Some(t) => FilteredStream(t, at, skip)
  }

  /** The entries of one directory, sorted. */
  method ListDirEntries(children: map<string, Tree>) returns (names: seq<string>)
    ensures names == NamesInOrder(children.Keys)
  {
    names := [];
    var rest := children.Keys;
    while rest != {}
      invariant rest <= children.Keys && multiset(names) == multiset(children.Keys - rest)
      decreases rest
    {
      var k :| k in rest;
      assert children.Keys - (rest - {k}) == children.Keys - rest + {k};
      names := names + [k];
      rest := rest - {k};
    }
    assert children.Keys - rest == children.Keys;
    SortedNames(names, children.Keys);
    names := Sort(STRING_LE, names);
  }

  method HashExisting(hasher: Hasher, t: Tree, at: Path, skip: Path -> bool) returns (ok: bool)
    modifies hasher
    ensures Fed(old(hasher.fed), FilteredStream(t, at, skip)) == if ok then Some(hasher.fed) else None
    decreases t, 1
  {
    if skip(at) {
      assert hasher.fed + "" == hasher.fed;
      return true;
    }
    match t
    case File(content) =>
      ok := HashFile(hasher, at, content);
    case Dir(children) =>
      ghost var start := hasher.fed;
      HashHead(hasher, at, "dir");
      var names := ListDirEntries(children);
      FedCat(start, Some(Head(at, "dir")), FilteredEntries(t, names, at, skip));
      ok := HashEntries(hasher, t, names, at, skip);
  }

  method HashEntries(hasher: Hasher, t: Tree, names: seq<string>, at: Path, skip: Path -> bool) returns (ok: bool)
    requires t.Dir? && forall i :: 0 <= i < |names| ==> names[i] in t.children
    modifies hasher
    ensures Fed(old(hasher.fed), FilteredEntries(t, names, at, skip)) == if ok then Some(hasher.fed) else None
    decreases t, 0
  {
    for i := 0 to |names|
      invariant Fed(hasher.fed, FilteredEntries(t, names[i..], at, skip)) == Fed(old(hasher.fed), FilteredEntries(t, names, at, skip))
    {
      assert names[i..][1..] == names[i + 1..];
      FedCat(hasher.fed, FilteredStream(t.children[names[i]], at + [names[i]], skip), FilteredEntries(t, names[i + 1..], at, skip));
      ok := HashExisting(hasher, t.children[names[i]], at + [names[i]], skip);
      if !ok { return; }
    }
    assert names[|names|..] == [] && hasher.fed + "" == hasher.fed;
    ok := true;
  }

  /** Hashes one root, leaving out what `skip` names; fails on a file that cannot be read. */
  method HashPathStateFiltered(hasher: Hasher, root: Option<Tree>, at: Path, skip: Path -> bool) returns (ok: bool)
    modifies hasher
    ensures Fed(old(hasher.fed), FilteredRoot(root, at, skip)) == if ok then Some(hasher.fed) else None
  {
    match root
    case None =>
      if !skip(at) { HashHead(hasher, at, "missing"); } else { assert hasher.fed + "" == hasher.fed; }
      ok := true;
    case Some(t) =>
      ok := HashExisting(hasher, t, at, skip);
  }
}
