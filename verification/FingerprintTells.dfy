/** When the byte stream determines what was walked: for names and contents without NULs, and not for others. */
module FingerprintTells {
  import opened Wrappers
  import opened Ordering
  import opened Lines
  import opened Fingerprint
  import opened FingerprintLaws

  const ZERO: char := '\0'

  /** A file name as file systems allow it, without a backslash. */
  predicate GoodName(n: string) { n != "" && '/' !in n && '\\' !in n && ZERO !in n }

  predicate GoodPath(p: Path) { forall i :: 0 <= i < |p| ==> GoodName(p[i]) }

  /** All names are good and no readable content holds a NUL. */
  ghost predicate GoodTree(t: Tree) {
    match t
    case File(content) => content.Some? ==> ZERO !in content.value
    case Dir(children) => forall k :: k in children ==> GoodName(k) && GoodTree(children[k])
  }

  // ----- from the stream back to the records -----

  lemma FirstField(a: string, b: string, x: string, y: string)
    requires ZERO !in a && ZERO !in b && a + NUL + x == b + NUL + y
    ensures a == b && x == y
  {
    var all := a + NUL + x;
    assert all[|a|] == ZERO && all[|b|] == ZERO;
    assert (forall i :: 0 <= i < |a| ==> all[i] == a[i]) && forall i :: 0 <= i < |b| ==> all[i] == b[i];
    assert all[..|a|] == a && all[..|b|] == b && all[|a| + 1..] == x && all[|b| + 1..] == y;
  }

  predicate NulFree(fs: seq<string>) { forall i :: 0 <= i < |fs| ==> ZERO !in fs[i] }

  lemma {:induction false} EndedTells(fs: seq<string>, gs: seq<string>)
    requires NulFree(fs) && NulFree(gs) && Ended(fs) == Ended(gs)
    ensures fs == gs
  {
    if fs != [] && gs != [] {
      FirstField(fs[0], gs[0], Ended(fs[1..]), Ended(gs[1..]));
      EndedTells(fs[1..], gs[1..]);
      assert fs == [fs[0]] + fs[1..] && gs == [gs[0]] + gs[1..];
    }
  }

  /** A record as the walks write it: a good path, and a content exactly for a file. */
  predicate GoodRec(r: Rec) {
    && GoodPath(r.path) && r.tag in {"file", "dir", "missing"}
    && (r.tag == "file" <==> r.body.Some?) && (r.body.Some? ==> ZERO !in r.body.value)
  }

  predicate GoodRecs(rs: seq<Rec>) { forall i :: 0 <= i < |rs| ==> GoodRec(rs[i]) }

  lemma {:induction false} JoinHolds(p: Path, c: char)
    requires |p| > 0 && c != '/' && Free(p, c)
    ensures c !in Join(p, '/')
  {
    if |p| > 1 {
      assert forall i :: 0 <= i < |p[1..]| ==> p[1..][i] == p[i + 1];
      JoinHolds(p[1..], c);
    }
  }

  lemma RelIsJoin(p: Path)
    requires GoodPath(p)
    ensures p != [] ==> Rel(p) == Join(p, '/') && Rel(p) != ""
    ensures ZERO !in Rel(p)
  {
    if p != [] {
      JoinHolds(p, '\\');
      JoinHolds(p, ZERO);
      assert Forward(Join(p, '/')) == Join(p, '/');
    }
  }

  lemma RelTells(p: Path, q: Path)
    requires GoodPath(p) && GoodPath(q) && Rel(p) == Rel(q)
    ensures p == q
  {
    RelIsJoin(p);
    RelIsJoin(q);
    if p != [] && q != [] {
      SplitJoin(p, '/');
      SplitJoin(q, '/');
    }
  }

  lemma FieldsAreFree(r: Rec)
    requires GoodRec(r)
    ensures NulFree(FieldsOf(r))
  {
    RelIsJoin(r.path);
  }

  lemma {:induction false} AllFieldsAreFree(rs: seq<Rec>)
    requires GoodRecs(rs)
    ensures NulFree(Fields(rs))
  {
    if rs != [] {
      FieldsAreFree(rs[0]);
      AllFieldsAreFree(rs[1..]);
    }
  }

  lemma OneRecTells(x: Rec, y: Rec, xs: seq<string>, ys: seq<string>)
    requires GoodRec(x) && GoodRec(y) && FieldsOf(x) + xs == FieldsOf(y) + ys
    ensures x == y && xs == ys
  {
    var all := FieldsOf(x) + xs;
    assert all[0] == Rel(x.path) == Rel(y.path) && all[1] == x.tag == y.tag;
    RelTells(x.path, y.path);
    assert |FieldsOf(x)| == |FieldsOf(y)|;
    assert all[..|FieldsOf(x)|] == FieldsOf(x) && all[..|FieldsOf(y)|] == FieldsOf(y);
    assert all[|FieldsOf(x)|..] == xs && all[|FieldsOf(y)|..] == ys;
    if x.body.Some? { assert FieldsOf(x)[2] == x.body.value && FieldsOf(y)[2] == y.body.value; }
  }

  lemma {:induction false} FieldsTell(xs: seq<Rec>, ys: seq<Rec>)
    requires GoodRecs(xs) && GoodRecs(ys) && Fields(xs) == Fields(ys)
    ensures xs == ys
  {
    if xs != [] && ys != [] {
      OneRecTells(xs[0], ys[0], Fields(xs[1..]), Fields(ys[1..]));
      FieldsTell(xs[1..], ys[1..]);
      assert xs == [xs[0]] + xs[1..] && ys == [ys[0]] + ys[1..];
    }
  }

  lemma StreamTells(xs: seq<Rec>, ys: seq<Rec>)
    requires GoodRecs(xs) && GoodRecs(ys) && Code(xs) == Code(ys)
    ensures xs == ys
  {
    AllFieldsAreFree(xs);
    AllFieldsAreFree(ys);
    EndedTells(Fields(xs), Fields(ys));
    FieldsTell(xs, ys);
  }

  // ----- the walk of collected files -----

  ghost predicate Found(t: Tree, at: Path, p: Path) {
    at <= p && Lookup(t, p[|at|..]).Some? && Lookup(t, p[|at|..]).value.File?
  }

  ghost function ContentAt(t: Tree, at: Path, p: Path): Option<string>
    requires Found(t, at, p)
  {
    Lookup(t, p[|at|..]).value.content
  }

  lemma {:induction false} FileRecsAre(t: Tree, at: Path, files: seq<Path>)
    requires forall i :: 0 <= i < |files| ==> files[i] in FilesUnder(t, at)
    ensures |FileRecs(t, at, files)| == |files|
    ensures forall i :: 0 <= i < |files| ==>
              Found(t, at, files[i]) && FileRecs(t, at, files)[i] == FileRec(files[i], ContentAt(t, at, files[i]))
  {
    if files != [] {
      CollectedAreFiles(t, at, files[0]);
      FileRecsAre(t, at, files[1..]);
    }
  }

  lemma {:induction false} GoodFiles(t: Tree, at: Path, p: Path)
    requires GoodTree(t) && GoodPath(at) && p in FilesUnder(t, at)
    ensures GoodPath(p) && Found(t, at, p) && (ContentAt(t, at, p).Some? ==> ZERO !in ContentAt(t, at, p).value)
  {
    CollectedAreFiles(t, at, p);
    match t
    case File(_) => assert p[|at|..] == [];
    case Dir(children) =>
      var k :| k in children && p in FilesUnder(children[k], at + [k]);
      GoodFiles(children[k], at + [k], p);
      assert p[|at|..][0] == k && p[|at|..][1..] == p[|at + [k]|..];
  }

  /** The same files with the same contents. */
  ghost predicate SameFiles(t: Tree, u: Tree, at: Path) {
    && FilesUnder(t, at) == FilesUnder(u, at)
    && forall p :: p in FilesUnder(t, at) ==> Found(t, at, p) && Found(u, at, p) && ContentAt(t, at, p) == ContentAt(u, at, p)
  }

  lemma PathRecsAreGood(t: Tree, at: Path)
    requires GoodTree(t) && GoodPath(at) && PathStream(Some(t), at).Some?
    ensures GoodRecs(PathRecs(Some(t), at)) && AllRead(PathRecs(Some(t), at))
  {
    PathStreamIs(Some(t), at);
    if t.Dir? {
      var files := PathsInOrder(FilesUnder(t, at));
      FileRecsAre(t, at, files);
      var rs := [Rec(at, "dir", None)] + FileRecs(t, at, files);
      forall i | 0 <= i < |files| ensures GoodRec(FileRecs(t, at, files)[i]) {
        assert rs[i + 1] == FileRecs(t, at, files)[i];
        GoodFiles(t, at, files[i]);
      }
    } else {
      assert PathRecs(Some(t), at)[0] == FileRec(at, t.content);
    }
  }

  lemma FileRecsTell(t: Tree, u: Tree, at: Path, fs: seq<Path>, gs: seq<Path>)
    requires forall i :: 0 <= i < |fs| ==> fs[i] in FilesUnder(t, at)
    requires forall i :: 0 <= i < |gs| ==> gs[i] in FilesUnder(u, at)
    requires FileRecs(t, at, fs) == FileRecs(u, at, gs)
    ensures fs == gs
    ensures forall i :: 0 <= i < |fs| ==> Found(t, at, fs[i]) && Found(u, at, fs[i]) && ContentAt(t, at, fs[i]) == ContentAt(u, at, fs[i])
  {
    FileRecsAre(t, at, fs);
    FileRecsAre(u, at, gs);
    forall i | 0 <= i < |fs|
      ensures fs[i] == gs[i] && Found(t, at, fs[i]) && Found(u, at, gs[i]) && ContentAt(t, at, fs[i]) == ContentAt(u, at, gs[i])
    {
      assert FileRecs(t, at, fs)[i] == FileRecs(u, at, gs)[i];
    }
  }

  lemma SameRecsSameFiles(t: Tree, u: Tree, at: Path)
    requires t.Dir? && u.Dir? && PathRecs(Some(t), at) == PathRecs(Some(u), at)
    ensures SameFiles(t, u, at)
  {
    var fs, gs := PathsInOrder(FilesUnder(t, at)), PathsInOrder(FilesUnder(u, at));
    ArrangedOnce(PATH_LE, FilesUnder(t, at), fs);
    ArrangedOnce(PATH_LE, FilesUnder(u, at), gs);
    assert PathRecs(Some(t), at)[1..] == FileRecs(t, at, fs);
    assert PathRecs(Some(u), at)[1..] == FileRecs(u, at, gs);
    FileRecsTell(t, u, at, fs, gs);
    forall p | p in FilesUnder(t, at) ensures Found(t, at, p) && Found(u, at, p) && ContentAt(t, at, p) == ContentAt(u, at, p) {
      assert p in fs;
    }
  }

  lemma SameFilesSameRecs(t: Tree, u: Tree, at: Path)
    requires t.Dir? && u.Dir? && SameFiles(t, u, at)
    ensures PathRecs(Some(t), at) == PathRecs(Some(u), at)
  {
    var fs := PathsInOrder(FilesUnder(t, at));
    FileRecsAre(t, at, fs);
    FileRecsAre(u, at, fs);
    assert FileRecs(t, at, fs) == FileRecs(u, at, fs);
  }

  /**
   * Among roots with good names and NUL-free contents the stream of the collected files is the
   * same exactly when the files and their contents are.
   */
  lemma FilesAreToldApart(t: Tree, u: Tree, at: Path)
    requires GoodTree(t) && GoodTree(u) && GoodPath(at) && PathStream(Some(t), at).Some? && PathStream(Some(u), at).Some?
    ensures PathStream(Some(t), at) == PathStream(Some(u), at) <==> (t.Dir? <==> u.Dir?) && SameFiles(t, u, at)
  {
    PathStreamIs(Some(t), at);
    PathStreamIs(Some(u), at);
    PathRecsAreGood(t, at);
    PathRecsAreGood(u, at);
    if PathStream(Some(t), at) == PathStream(Some(u), at) {
      StreamTells(PathRecs(Some(t), at), PathRecs(Some(u), at));
      assert PathRecs(Some(t), at)[0] == PathRecs(Some(u), at)[0];
      if t.Dir? { SameRecsSameFiles(t, u, at); }
    }
    if t.Dir? && u.Dir? && SameFiles(t, u, at) { SameFilesSameRecs(t, u, at); }
    if t.File? && u.File? && SameFiles(t, u, at) {
      assert at in FilesUnder(t, at) && Lookup(t, at[|at|..]) == Some(t) && Lookup(u, at[|at|..]) == Some(u);
    }
  }

  // ----- the walk with exclusions -----

  /** The part of the tree the walk does not leave out. */
  function Pruned(t: Tree, at: Path, skip: Path -> bool): Option<Tree> {
    if skip(at) then None
    else
      match t
      case File(_) => Some(t)
      case Dir(children) =>
        Some(Dir(map k | k in children && Pruned(children[k], at + [k], skip).Some? :: Pruned(children[k], at + [k], skip).value))
  }

  const NEVER: Path -> bool := (p: Path) => false

  ghost predicate RecFor(t: Tree, at: Path, r: Rec) {
    && at <= r.path && Lookup(t, r.path[|at|..]).Some?
    && match Lookup(t, r.path[|at|..]).value
       case File(content) => r == FileRec(r.path, content)
       case Dir(_) => r == Rec(r.path, "dir", None)
  }

  ghost predicate RecBelow(t: Tree, names: seq<string>, at: Path, r: Rec)
    requires t.Dir?
  {
    exists k :: k in names && k in t.children && RecFor(t.children[k], at + [k], r)
  }

  lemma DirRecs(t: Tree, names: seq<string>, at: Path, r: Rec)
    requires t.Dir? && forall k :: k in names <==> k in t.children
    ensures RecFor(t, at, r) <==> r == Rec(at, "dir", None) || RecBelow(t, names, at, r)
  {
    if RecFor(t, at, r) && r.path != at {
      var k := r.path[|at|];
      assert r.path[|at|..][0] == k && r.path[|at|..][1..] == r.path[|at + [k]|..];
      assert RecFor(t.children[k], at + [k], r);
    }
    if RecFor(t, at, r) && r.path == at { assert r.path[|at|..] == []; }
    if r == Rec(at, "dir", None) { assert r.path[|at|..] == []; }
    if RecBelow(t, names, at, r) {
      var k :| k in names && k in t.children && RecFor(t.children[k], at + [k], r);
      assert r.path[|at|] == k && r.path[|at|..][0] == k && r.path[|at|..][1..] == r.path[|at + [k]|..];
    }
  }

  lemma {:induction false} EntryRecsMean(t: Tree, names: seq<string>, at: Path)
    requires t.Dir? && forall i :: 0 <= i < |names| ==> names[i] in t.children
    ensures forall r :: r in EntryRecs(t, names, at, NEVER) <==> RecBelow(t, names, at, r)
    decreases t, 0, |names|
  {
    if names != [] {
      RecsMean(t.children[names[0]], at + [names[0]]);
      EntryRecsMean(t, names[1..], at);
      forall r ensures r in EntryRecs(t, names, at, NEVER) <==> RecBelow(t, names, at, r) {
        assert names == [names[0]] + names[1..];
        if RecFor(t.children[names[0]], at + [names[0]], r) { assert names[0] in names; }
        if RecBelow(t, names[1..], at, r) {
          var k :| k in names[1..] && k in t.children && RecFor(t.children[k], at + [k], r);
          assert k in names;
        }
      }
    }
  }

  /** The records of a whole tree are one for each file and directory in it. */
  lemma {:induction false} RecsMean(t: Tree, at: Path)
    ensures forall r :: r in FilteredRecs(t, at, NEVER) <==> RecFor(t, at, r)
    decreases t, 1, 0
  {
    match t
    case File(content) =>
      forall r ensures r in FilteredRecs(t, at, NEVER) <==> RecFor(t, at, r) {
        if RecFor(t, at, r) { assert r.path[|at|..] == [] && r.path == at; }
        if r == FileRec(at, content) { assert at[|at|..] == []; }
      }
    case Dir(children) =>
      var names := NamesInOrder(children.Keys);
      NamesAreAll(children.Keys);
      EntryRecsMean(t, names, at);
      forall r ensures r in FilteredRecs(t, at, NEVER) <==> RecFor(t, at, r) { DirRecs(t, names, at, r); }
  }

  lemma ChildLookups(t: Tree, u: Tree, at: Path, k: string)
    requires t.Dir? && u.Dir? && (k in t.children || k in u.children)
    requires forall r :: RecFor(t, at, r) <==> RecFor(u, at, r)
    ensures k in t.children && k in u.children
    ensures forall r :: RecFor(t.children[k], at + [k], r) <==> RecFor(u.children[k], at + [k], r)
  {
    forall v: Tree, r: Rec | v.Dir?
      ensures k in v.children && RecFor(v.children[k], at + [k], r) <==> at + [k] <= r.path && RecFor(v, at, r)
    {
      if at + [k] <= r.path {
        assert r.path[|at|..][0] == k && r.path[|at|..][1..] == r.path[|at + [k]|..];
      }
    }
    forall v: Tree | v.Dir? && k in v.children ensures exists r: Rec :: at + [k] <= r.path && RecFor(v, at, r) {
      var r := match v.children[k] case File(content) => FileRec(at + [k], content) case Dir(_) => Rec(at + [k], "dir", None);
      assert (at + [k])[|at + [k]|..] == [];
      assert RecFor(v.children[k], at + [k], r);
    }
  }

  /** Trees that answer every lookup alike are the same tree. */
  lemma {:induction false} LookupsDecide(t: Tree, u: Tree, at: Path)
    requires forall r :: RecFor(t, at, r) <==> RecFor(u, at, r)
    ensures t == u
  {
    assert at[|at|..] == [];
    match t
    case File(content) => assert RecFor(t, at, FileRec(at, content));
    case Dir(children) =>
      assert RecFor(t, at, Rec(at, "dir", None));
      forall k | k in children || k in u.children ensures k in children && k in u.children && children[k] == u.children[k] {
        ChildLookups(t, u, at, k);
        LookupsDecide(children[k], u.children[k], at + [k]);
      }
      assert children == u.children;
  }

  /** The names of `keep`, in the order they come. */
  function Among(names: seq<string>, keep: set<string>): seq<string> {
    if names == [] then [] else (if names[0] in keep then [names[0]] else []) + Among(names[1..], keep)
  }

  lemma {:induction false} AmongMeans(names: seq<string>, keep: set<string>)
    ensures forall k :: k in Among(names, keep) <==> k in names && k in keep
    ensures (forall i, j :: 0 <= i < j < |names| ==> names[i] != names[j])
            ==> forall i, j :: 0 <= i < j < |Among(names, keep)| ==> Among(names, keep)[i] != Among(names, keep)[j]
    ensures Sorted(STRING_LE, names) ==> Sorted(STRING_LE, Among(names, keep))
  {
    if names != [] {
      var rest := Among(names[1..], keep);
      AmongMeans(names[1..], keep);
      assert names == [names[0]] + names[1..];
      if Sorted(STRING_LE, names) {
        forall y | y in multiset(rest) ensures STRING_LE(names[0], y) {
          assert y in rest && y in names[1..];
          var i :| 0 <= i < |names[1..]| && names[1..][i] == y;
          assert names[i + 1] == y;
        }
        FirstBelowRest(STRING_LE, names[0], rest);
      }
    }
  }

  lemma KeptInOrder(names: seq<string>, all: set<string>, keep: set<string>)
    requires names == NamesInOrder(all) && keep <= all
    ensures Among(names, keep) == NamesInOrder(keep)
  {
    AmongMeans(names, keep);
    NamesAreAll(all);
    DistinctIsSet(Among(names, keep), keep);
    StringsAreOrdered();
    SortedIsUnique(STRING_LE, Among(names, keep), NamesInOrder(keep));
  }

  lemma PrunedChild(t: Tree, v: Tree, k: string, at: Path, skip: Path -> bool)
    requires t.Dir? && !skip(at) && Some(v) == Pruned(t, at, skip) && k in t.children
    ensures v.Dir? && (k in v.children <==> Pruned(t.children[k], at + [k], skip).Some?)
    ensures k in v.children ==> Some(v.children[k]) == Pruned(t.children[k], at + [k], skip)
  {
  }

  lemma AmongIsThere(names: seq<string>, v: Tree)
    requires v.Dir?
    ensures forall i :: 0 <= i < |Among(names, v.children.Keys)| ==> Among(names, v.children.Keys)[i] in v.children
  {
    AmongMeans(names, v.children.Keys);
    assert forall i :: 0 <= i < |Among(names, v.children.Keys)| ==> Among(names, v.children.Keys)[i] in Among(names, v.children.Keys);
  }

  lemma NextEntryRecs(v: Tree, k: string, rest: seq<string>, at: Path)
    requires v.Dir? && k in v.children && forall i :: 0 <= i < |rest| ==> rest[i] in v.children
    ensures EntryRecs(v, [k] + rest, at, NEVER) == FilteredRecs(v.children[k], at + [k], NEVER) + EntryRecs(v, rest, at, NEVER)
  {
    assert ([k] + rest)[1..] == rest;
  }

  lemma {:induction false} PrunedEntriesAre(t: Tree, v: Tree, names: seq<string>, at: Path, skip: Path -> bool)
    requires t.Dir? && !skip(at) && Some(v) == Pruned(t, at, skip)
    requires forall i :: 0 <= i < |names| ==> names[i] in t.children
    ensures v.Dir? && forall i :: 0 <= i < |Among(names, v.children.Keys)| ==> Among(names, v.children.Keys)[i] in v.children
    ensures EntryRecs(t, names, at, skip) == EntryRecs(v, Among(names, v.children.Keys), at, NEVER)
    decreases t, 0, |names|
  {
    AmongIsThere(names, v);
    if names != [] {
      var k, rest := names[0], Among(names[1..], v.children.Keys);
      AmongIsThere(names[1..], v);
      PrunedEntriesAre(t, v, names[1..], at, skip);
      PrunedRecsAre(t.children[k], at + [k], skip);
      PrunedChild(t, v, k, at, skip);
      if k in v.children {
        NextEntryRecs(v, k, rest, at);
      } else {
        assert Among(names, v.children.Keys) == rest;
        assert FilteredRecs(t.children[k], at + [k], skip) == [];
      }
    }
  }

  lemma {:induction false} PrunedRecsAre(t: Tree, at: Path, skip: Path -> bool)
    ensures FilteredRecs(t, at, skip) == match Pruned(t, at, skip) case None => [] case Some(v) => FilteredRecs(v, at, NEVER)
    decreases t, 1, 0
  {
    if !skip(at) && t.Dir? {
      var v := Pruned(t, at, skip).value;
      var names := NamesInOrder(t.children.Keys);
      NamesAreAll(t.children.Keys);
      PrunedEntriesAre(t, v, names, at, skip);
      KeptInOrder(names, t.children.Keys, v.children.Keys);
    }
  }

  lemma {:induction false} PrunedIsGood(t: Tree, at: Path, skip: Path -> bool)
    requires GoodTree(t)
    ensures Pruned(t, at, skip).Some? ==> GoodTree(Pruned(t, at, skip).value)
  {
    if !skip(at) && t.Dir? {
      forall k | k in t.children { PrunedIsGood(t.children[k], at + [k], skip); }
    }
  }

  lemma {:induction false} LookupIsGood(t: Tree, p: Path)
    requires GoodTree(t) && Lookup(t, p).Some?
    ensures GoodPath(p) && GoodTree(Lookup(t, p).value)
  {
    if p != [] {
      LookupIsGood(t.children[p[0]], p[1..]);
      assert p == [p[0]] + p[1..];
    }
  }

  lemma WholeRecsAreGood(t: Tree, at: Path)
    requires GoodTree(t) && GoodPath(at) && AllRead(FilteredRecs(t, at, NEVER))
    ensures GoodRecs(FilteredRecs(t, at, NEVER))
  {
    RecsMean(t, at);
    var rs := FilteredRecs(t, at, NEVER);
    forall i | 0 <= i < |rs| ensures GoodRec(rs[i]) {
      assert rs[i] in rs;
      LookupIsGood(t, rs[i].path[|at|..]);
      assert rs[i].path == at + rs[i].path[|at|..];
    }
  }

  /**
   * Among trees with good names and NUL-free contents the filtered stream is the same exactly
   * when what the walk does not leave out is: every directory, file and content.
   */
  lemma TreesAreToldApart(t: Tree, u: Tree, at: Path, skip: Path -> bool)
    requires GoodTree(t) && GoodTree(u) && GoodPath(at)
    requires FilteredRoot(Some(t), at, skip).Some? && FilteredRoot(Some(u), at, skip).Some?
    ensures FilteredRoot(Some(t), at, skip) == FilteredRoot(Some(u), at, skip) <==> Pruned(t, at, skip) == Pruned(u, at, skip)
  {
    FilteredStreamIs(t, at, skip);
    FilteredStreamIs(u, at, skip);
    PrunedRecsAre(t, at, skip);
    PrunedRecsAre(u, at, skip);
    if !skip(at) && FilteredStream(t, at, skip) == FilteredStream(u, at, skip) {
      PrunedIsGood(t, at, skip);
      PrunedIsGood(u, at, skip);
      var v, w := Pruned(t, at, skip).value, Pruned(u, at, skip).value;
      WholeRecsAreGood(v, at);
      WholeRecsAreGood(w, at);
      StreamTells(FilteredRecs(v, at, NEVER), FilteredRecs(w, at, NEVER));
      RecsMean(v, at);
      RecsMean(w, at);
      LookupsDecide(v, w, at);
    }
  }

  // ----- contents with NULs -----

  const TWO_FILES: Tree := Dir(map["a" := File(Some("x")), "b" := File(Some("y"))])

  const SPELT: string := "x" + NUL + "b" + NUL + "file" + NUL + "y"

  const ONE_FILE: Tree := Dir(map["a" := File(Some(SPELT))])

  lemma TwoNames()
    ensures NamesInOrder({"a", "b"}) == ["a", "b"] && NamesInOrder({"a"}) == ["a"]
  {
    StringsAreOrdered();
    assert multiset(["a", "b"]) == multiset({"a", "b"}) && multiset(["a"]) == multiset({"a"});
    assert "a"[0] < "b"[0];
    assert STRING_LE("a", "b");
    SortedIsUnique(STRING_LE, ["a", "b"], NamesInOrder({"a", "b"}));
    SortedIsUnique(STRING_LE, ["a"], NamesInOrder({"a"}));
  }

  lemma RecsOfOne(t: Tree, name: string, content: string)
    requires t.Dir? && name in t.children && t.children[name] == File(Some(content))
    ensures EntryRecs(t, [name], [], NEVER) == [FileRec([name], Some(content))]
  {
    assert [] + [name] == [name] && [name][1..] == [];
  }

  lemma RecsOfPair(t: Tree, m: string, n: string, c: string, d: string)
    requires t.Dir? && m in t.children && n in t.children
    requires t.children[m] == File(Some(c)) && t.children[n] == File(Some(d))
    ensures EntryRecs(t, [m, n], [], NEVER) == [FileRec([m], Some(c)), FileRec([n], Some(d))]
  {
    RecsOfOne(t, n, d);
    assert [m, n][1..] == [n] && [] + [m] == [m];
  }

  lemma RecsOfTwo()
    ensures FilteredRecs(TWO_FILES, [], NEVER) == [Rec([], "dir", None), FileRec(["a"], Some("x")), FileRec(["b"], Some("y"))]
  {
    TwoNames();
    assert TWO_FILES.children.Keys == {"a", "b"};
    RecsOfPair(TWO_FILES, "a", "b", "x", "y");
  }

  lemma RecsOfOneFile()
    ensures FilteredRecs(ONE_FILE, [], NEVER) == [Rec([], "dir", None), FileRec(["a"], Some(SPELT))]
  {
    TwoNames();
    assert ONE_FILE.children.Keys == {"a"};
    RecsOfOne(ONE_FILE, "a", SPELT);
  }

  lemma {:induction false} NulsInside(fs: seq<string>, x: string, g: string, h: string, y: string)
    ensures Ended(fs + [x, g, h, y]) == Ended(fs + [x + NUL + g + NUL + h + NUL + y])
  {
    EndedConcat(fs, [x, g, h, y]);
    EndedConcat(fs, [x + NUL + g + NUL + h + NUL + y]);
    assert [x, g, h, y] == [x, g] + [h, y];
    EndedConcat([x, g], [h, y]);
    EndedTwo(x, g);
    EndedTwo(h, y);
    assert [x + NUL + g + NUL + h + NUL + y][1..] == [];
  }

  lemma BothRead(c: string)
    ensures AllRead([Rec([], "dir", None), FileRec(["a"], Some("x")), FileRec(["b"], Some("y"))])
    ensures AllRead([Rec([], "dir", None), FileRec(["a"], Some(c))])
  {
  }

  lemma OneFields(r: Rec)
    ensures Fields([r]) == FieldsOf(r)
  {
    assert [r][1..] == [];
  }

  lemma FieldsOfBoth()
    ensures Fields([Rec([], "dir", None), FileRec(["a"], Some("x")), FileRec(["b"], Some("y"))])
            == ["", "dir", Rel(["a"]), "file"] + ["x", Rel(["b"]), "file", "y"]
    ensures forall c :: Fields([Rec([], "dir", None), FileRec(["a"], Some(c))]) == ["", "dir", Rel(["a"]), "file"] + [c]
  {
    var a, b, d := FileRec(["a"], Some("x")), FileRec(["b"], Some("y")), Rec([], "dir", None);
    FieldsConcat([d], [a, b]);
    FieldsConcat([a], [b]);
    assert [d] + [a, b] == [d, a, b] && [a] + [b] == [a, b];
    OneFields(d);
    OneFields(a);
    OneFields(b);
    forall c ensures Fields([d, FileRec(["a"], Some(c))]) == ["", "dir", Rel(["a"]), "file"] + [c] {
      var e := FileRec(["a"], Some(c));
      FieldsConcat([d], [e]);
      assert [d] + [e] == [d, e];
      OneFields(e);
    }
  }

  lemma SameCode()
    ensures Code([Rec([], "dir", None), FileRec(["a"], Some("x")), FileRec(["b"], Some("y"))])
            == Code([Rec([], "dir", None), FileRec(["a"], Some(SPELT))])
  {
    NulsInside(["", "dir", Rel(["a"]), "file"], "x", "b", "file", "y");
    assert Rel(["b"]) == "b";
    FieldsOfBoth();
  }

  /** A file whose content spells the next file's record: one file and two give the same stream. */
  lemma NulHidesAFile()
    ensures FilteredStream(TWO_FILES, [], NEVER) == FilteredStream(ONE_FILE, [], NEVER) != None && TWO_FILES != ONE_FILE
  {
    FilteredStreamIs(TWO_FILES, [], NEVER);
    FilteredStreamIs(ONE_FILE, [], NEVER);
    RecsOfTwo();
    RecsOfOneFile();
    SameCode();
    BothRead(SPELT);
    assert "b" in TWO_FILES.children && "b" !in ONE_FILE.children;
  }
}
