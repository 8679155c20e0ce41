/** What the fingerprint's byte stream tells apart: the files, directories and contents it depends on. */
module FingerprintLaws {
  import opened Wrappers
  import opened Ordering
  import opened Lines
  import opened Fingerprint

  // ----- the stream as a list of records -----

  /** One visited path: a tag and, for a file, its content. */
  datatype Rec = Rec(path: Path, tag: string, body: Option<string>)

  function FieldsOf(r: Rec): seq<string> { [Rel(r.path), r.tag] + if r.body.Some? then [r.body.value] else [] }

  function Fields(rs: seq<Rec>): seq<string> { if rs == [] then [] else FieldsOf(rs[0]) + Fields(rs[1..]) }

  /** Each field, ended by a NUL. */
  function Ended(fs: seq<string>): string { if fs == [] then "" else fs[0] + NUL + Ended(fs[1..]) }

  function Code(rs: seq<Rec>): string { Ended(Fields(rs)) }

  lemma {:induction false} FieldsConcat(x: seq<Rec>, y: seq<Rec>)
    ensures Fields(x + y) == Fields(x) + Fields(y)
  {
    if x == [] {
      assert x + y == y;
    } else {
      FieldsConcat(x[1..], y);
      assert (x + y)[0] == x[0] && (x + y)[1..] == x[1..] + y;
      Assoc(FieldsOf(x[0]), Fields(x[1..]), Fields(y));
    }
  }

  lemma {:induction false} EndedConcat(x: seq<string>, y: seq<string>)
    ensures Ended(x + y) == Ended(x) + Ended(y)
  {
    if x == [] {
      assert x + y == y;
    } else {
      EndedConcat(x[1..], y);
      assert (x + y)[0] == x[0] && (x + y)[1..] == x[1..] + y;
      Assoc(x[0] + NUL, Ended(x[1..]), Ended(y));
    }
  }

  predicate AllRead(rs: seq<Rec>) { forall i :: 0 <= i < |rs| && rs[i].tag == "file" ==> rs[i].body.Some? }

  /** The stream of some records; none when one of them could not be read. */
  function Stream(rs: seq<Rec>): Option<string> { if AllRead(rs) then Some(Code(rs)) else None }

  lemma ReadConcat(x: seq<Rec>, y: seq<Rec>)
    ensures AllRead(x + y) <==> AllRead(x) && AllRead(y)
  {
    assert forall i :: 0 <= i < |x| ==> (x + y)[i] == x[i];
    assert forall i :: 0 <= i < |y| ==> (x + y)[|x| + i] == y[i];
  }

  lemma StreamConcat(x: seq<Rec>, y: seq<Rec>)
    ensures Stream(x + y) == Cat(Stream(x), Stream(y))
  {
    FieldsConcat(x, y);
    EndedConcat(Fields(x), Fields(y));
    ReadConcat(x, y);
  }

  function FileRec(p: Path, content: Option<string>): Rec { Rec(p, "file", content) }

  lemma {:induction false} EndedTwo(a: string, b: string)
    ensures Ended([a, b]) == a + NUL + b + NUL
  {
    assert [a, b][1..] == [b] && [b][1..] == [];
    assert Ended([b]) == b + NUL;
    Assoc(a + NUL, b, NUL);
  }

  lemma {:induction false} EndedThree(a: string, b: string, c: string)
    ensures Ended([a, b, c]) == a + NUL + b + NUL + c + NUL
  {
    assert [a, b, c][1..] == [b, c];
    EndedTwo(b, c);
    assert a + NUL + (b + NUL + c + NUL) == a + NUL + b + NUL + c + NUL;
  }

  lemma OneRecord(r: Rec)
    ensures Code([r]) == Ended(FieldsOf(r)) && (AllRead([r]) <==> r.tag == "file" ==> r.body.Some?)
  {
    assert [r][1..] == [] && [r][0] == r;
    assert Fields([r]) == FieldsOf(r);
  }

  lemma FileStreamIs(p: Path, content: Option<string>)
    ensures FileStream(p, content) == Stream([FileRec(p, content)])
  {
    OneRecord(FileRec(p, content));
    if content.Some? {
      EndedThree(Rel(p), "file", content.value);
      assert FieldsOf(FileRec(p, content)) == [Rel(p), "file", content.value];
    }
  }

  lemma HeadIs(p: Path, tag: string)
    requires tag != "file"
    ensures Some(Head(p, tag)) == Stream([Rec(p, tag, None)])
  {
    OneRecord(Rec(p, tag, None));
    EndedTwo(Rel(p), tag);
    assert FieldsOf(Rec(p, tag, None)) == [Rel(p), tag];
  }

  // ----- the records of a root -----

  ghost function FileRecs(t: Tree, at: Path, files: seq<Path>): seq<Rec>
    requires forall i :: 0 <= i < |files| ==> files[i] in FilesUnder(t, at)
  {
    if files == [] then []
    else
      CollectedAreFiles(t, at, files[0]);
      [FileRec(files[0], Lookup(t, files[0][|at|..]).value.content)] + FileRecs(t, at, files[1..])
  }

  lemma {:induction false} RecordsAre(t: Tree, at: Path, files: seq<Path>)
    requires forall i :: 0 <= i < |files| ==> files[i] in FilesUnder(t, at)
    ensures Records(t, at, files) == Stream(FileRecs(t, at, files))
  {
    if files != [] {
      CollectedAreFiles(t, at, files[0]);
      var content := Lookup(t, files[0][|at|..]).value.content;
      RecordsAre(t, at, files[1..]);
      FileStreamIs(files[0], content);
      StreamConcat([FileRec(files[0], content)], FileRecs(t, at, files[1..]));
    }
  }

  ghost function PathRecs(root: Option<Tree>, at: Path): seq<Rec> {
    match root
    case None => [Rec(at, "missing", None)]
    case Some(File(content)) => [FileRec(at, content)]
    case Some(Dir(children)) =>
      [Rec(at, "dir", None)] + FileRecs(Dir(children), at, PathsInOrder(FilesUnder(Dir(children), at)))
  }

  lemma PathStreamIs(root: Option<Tree>, at: Path)
    ensures PathStream(root, at) == Stream(PathRecs(root, at))
  {
    match root
    case None => HeadIs(at, "missing");
    case Some(File(content)) => FileStreamIs(at, content);
    case Some(Dir(children)) =>
      var files := PathsInOrder(FilesUnder(Dir(children), at));
      HeadIs(at, "dir");
      RecordsAre(Dir(children), at, files);
      StreamConcat([Rec(at, "dir", None)], FileRecs(Dir(children), at, files));
  }

  ghost function EntryRecs(t: Tree, names: seq<string>, at: Path, skip: Path -> bool): seq<Rec>
    requires t.Dir? && forall i :: 0 <= i < |names| ==> names[i] in t.children
    decreases t, 0, |names|
  {
    if names == [] then []
    else FilteredRecs(t.children[names[0]], at + [names[0]], skip) + EntryRecs(t, names[1..], at, skip)
  }

  ghost function FilteredRecs(t: Tree, at: Path, skip: Path -> bool): seq<Rec>
    decreases t, 1, 0
  {
    if skip(at) then []
    else
      match t
      case File(content) => [FileRec(at, content)]
      case Dir(children) => [Rec(at, "dir", None)] + EntryRecs(t, NamesInOrder(children.Keys), at, skip)
  }

  lemma {:induction false} EntriesAre(t: Tree, names: seq<string>, at: Path, skip: Path -> bool)
    requires t.Dir? && forall i :: 0 <= i < |names| ==> names[i] in t.children
    ensures FilteredEntries(t, names, at, skip) == Stream(EntryRecs(t, names, at, skip))
    decreases t, 0, |names|
  {
    if names != [] {
      FilteredStreamIs(t.children[names[0]], at + [names[0]], skip);
      EntriesAre(t, names[1..], at, skip);
      StreamConcat(FilteredRecs(t.children[names[0]], at + [names[0]], skip), EntryRecs(t, names[1..], at, skip));
    }
  }

  lemma {:induction false} FilteredStreamIs(t: Tree, at: Path, skip: Path -> bool)
    ensures FilteredStream(t, at, skip) == Stream(FilteredRecs(t, at, skip))
    decreases t, 1, 0
  {
    if !skip(at) {
      match t
      case File(content) => FileStreamIs(at, content);
      case Dir(children) =>
        var names := NamesInOrder(children.Keys);
        HeadIs(at, "dir");
        EntriesAre(t, names, at, skip);
        StreamConcat([Rec(at, "dir", None)], EntryRecs(t, names, at, skip));
    }
  }

  // ----- one edited file -----

  /** The two trees are alike except that the file at `p` holds different readable contents. */
  ghost predicate EditedAt(t: Tree, u: Tree, p: Path) {
    if p == [] then t.File? && u.File? && t.content.Some? && u.content.Some? && t.content != u.content
    else
      && t.Dir? && u.Dir? && t.children.Keys == u.children.Keys && p[0] in t.children
      && EditedAt(t.children[p[0]], u.children[p[0]], p[1..])
      && forall k :: k in t.children && k != p[0] ==> t.children[k] == u.children[k]
  }

  /** The lists differ in the content of one file record. */
  ghost predicate OneBodyDiffers(x: seq<Rec>, y: seq<Rec>) {
    exists a, b, p: Path, c: string, d: string :: c != d && x == a + [FileRec(p, Some(c))] + b && y == a + [FileRec(p, Some(d))] + b
  }

  lemma MiddlesDiffer(a: string, x: string, y: string, b: string)
    requires a + x + b == a + y + b
    ensures x == y
  {
    assert |x| == |y|;
    assert (a + x + b)[|a|..|a| + |x|] == x && (a + y + b)[|a|..|a| + |y|] == y;
  }

  lemma Regrouped(a: string, b: string, c: string, d: string)
    ensures a + (b + c) + d == a + b + (c + d)
  {
  }

  lemma {:induction false} EndedAround(a: seq<string>, c: string, b: seq<string>)
    ensures Ended(a + [c] + b) == Ended(a) + c + (NUL + Ended(b))
  {
    EndedConcat(a + [c], b);
    EndedConcat(a, [c]);
    assert [c][1..] == [] && Ended([c]) == c + NUL;
    Regrouped(Ended(a), c, NUL, Ended(b));
  }

  lemma FieldsAround(a: seq<Rec>, p: Path, c: string, b: seq<Rec>)
    ensures Fields(a + [FileRec(p, Some(c))] + b) == (Fields(a) + [Rel(p), "file"]) + [c] + Fields(b)
  {
    var r := FileRec(p, Some(c));
    FieldsConcat(a + [r], b);
    FieldsConcat(a, [r]);
    assert [r][1..] == [] && Fields([r]) == [Rel(p), "file"] + [c];
    Assoc(Fields(a), [Rel(p), "file"], [c]);
  }

  lemma CodeAround(a: seq<Rec>, p: Path, c: string, b: seq<Rec>)
    ensures Code(a + [FileRec(p, Some(c))] + b) == Ended(Fields(a) + [Rel(p), "file"]) + c + (NUL + Code(b))
  {
    FieldsAround(a, p, c, b);
    EndedAround(Fields(a) + [Rel(p), "file"], c, Fields(b));
  }

  lemma CodesDiffer(a: seq<Rec>, p: Path, c: string, d: string, b: seq<Rec>)
    requires Code(a + [FileRec(p, Some(c))] + b) == Code(a + [FileRec(p, Some(d))] + b)
    ensures c == d
  {
    CodeAround(a, p, c, b);
    CodeAround(a, p, d, b);
    MiddlesDiffer(Ended(Fields(a) + [Rel(p), "file"]), c, d, NUL + Code(b));
  }

  lemma OneBodyShows(x: seq<Rec>, y: seq<Rec>)
    requires OneBodyDiffers(x, y)
    ensures Code(x) != Code(y)
  {
    var a, b, p: Path, c: string, d: string :| c != d && x == a + [FileRec(p, Some(c))] + b && y == a + [FileRec(p, Some(d))] + b;
    if Code(x) == Code(y) { CodesDiffer(a, p, c, d, b); }
  }

  lemma OneBodyWithin(u: seq<Rec>, x: seq<Rec>, y: seq<Rec>, v: seq<Rec>)
    requires OneBodyDiffers(x, y)
    ensures OneBodyDiffers(u + x + v, u + y + v)
  {
    var a, b, p: Path, c: string, d: string :| c != d && x == a + [FileRec(p, Some(c))] + b && y == a + [FileRec(p, Some(d))] + b;
    assert u + x + v == (u + a) + [FileRec(p, Some(c))] + (b + v);
    assert u + y + v == (u + a) + [FileRec(p, Some(d))] + (b + v);
  }

  lemma OneBodyFirst(p: Path, c: string, d: string, rest: seq<Rec>)
    requires c != d
    ensures OneBodyDiffers([FileRec(p, Some(c))] + rest, [FileRec(p, Some(d))] + rest)
  {
    assert [FileRec(p, Some(c))] + rest == [] + [FileRec(p, Some(c))] + rest;
    assert [FileRec(p, Some(d))] + rest == [] + [FileRec(p, Some(d))] + rest;
  }

  lemma OneBodyAhead(x: seq<Rec>, y: seq<Rec>, v: seq<Rec>)
    requires OneBodyDiffers(x, y)
    ensures OneBodyDiffers(x + v, y + v)
  {
    OneBodyWithin([], x, y, v);
    assert [] + x + v == x + v && [] + y + v == y + v;
  }

  lemma OneBodyBehind(u: seq<Rec>, x: seq<Rec>, y: seq<Rec>)
    requires OneBodyDiffers(x, y)
    ensures OneBodyDiffers(u + x, u + y)
  {
    OneBodyWithin(u, x, y, []);
    assert u + x + [] == u + x && u + y + [] == u + y;
  }

  /** The path, or a directory above it, is left out of the walk. */
  ghost predicate LeftOut(skip: Path -> bool, at: Path, p: Path) { exists i :: 0 <= i <= |p| && skip(at + p[..i]) }

  lemma LeftOutBelow(skip: Path -> bool, at: Path, p: Path)
    ensures p == [] ==> (LeftOut(skip, at, p) <==> skip(at))
    ensures p != [] ==> (LeftOut(skip, at, p) <==> skip(at) || LeftOut(skip, at + [p[0]], p[1..]))
  {
    assert at + p[..0] == at;
    if p != [] {
      forall i | 0 <= i < |p| ensures at + p[..i + 1] == at + [p[0]] + p[1..][..i] {}
      if LeftOut(skip, at + [p[0]], p[1..]) {
        var i :| 0 <= i <= |p[1..]| && skip(at + [p[0]] + p[1..][..i]);
        assert at + p[..i + 1] == at + [p[0]] + p[1..][..i];
      }
      if i :| 1 <= i <= |p| && skip(at + p[..i]) {
        assert at + p[..i] == at + [p[0]] + p[1..][..i - 1];
      }
    }
  }

  lemma NamesAreAll(s: set<string>)
    ensures forall k :: k in s <==> k in NamesInOrder(s)
    ensures forall i, j :: 0 <= i < j < |NamesInOrder(s)| ==> NamesInOrder(s)[i] != NamesInOrder(s)[j]
  {
    ArrangedOnce(STRING_LE, s, NamesInOrder(s));
  }

  lemma {:induction false} EditInEntries(t: Tree, u: Tree, p: Path, names: seq<string>, at: Path, skip: Path -> bool)
    requires p != [] && EditedAt(t, u, p)
    requires forall i :: 0 <= i < |names| ==> names[i] in t.children
    requires forall i, j :: 0 <= i < j < |names| ==> names[i] != names[j]
    ensures if p[0] !in names || LeftOut(skip, at + [p[0]], p[1..]) then EntryRecs(t, names, at, skip) == EntryRecs(u, names, at, skip)
            else OneBodyDiffers(EntryRecs(t, names, at, skip), EntryRecs(u, names, at, skip))
    decreases |p|, 0, |names|
  {
    if names != [] {
      var k, rest := names[0], names[1..];
      EditInEntries(t, u, p, rest, at, skip);
      var x, y := FilteredRecs(t.children[k], at + [k], skip), FilteredRecs(u.children[k], at + [k], skip);
      var xs, ys := EntryRecs(t, rest, at, skip), EntryRecs(u, rest, at, skip);
      if k == p[0] {
        EditShows(t.children[k], u.children[k], p[1..], at + [k], skip);
        if !LeftOut(skip, at + [k], p[1..]) {
          OneBodyAhead(x, y, xs);
        }
      } else if p[0] in rest && !LeftOut(skip, at + [p[0]], p[1..]) {
        OneBodyBehind(x, xs, ys);
      }
    }
  }

  lemma {:induction false} EditShows(t: Tree, u: Tree, p: Path, at: Path, skip: Path -> bool)
    requires EditedAt(t, u, p)
    ensures if LeftOut(skip, at, p) then FilteredRecs(t, at, skip) == FilteredRecs(u, at, skip)
            else OneBodyDiffers(FilteredRecs(t, at, skip), FilteredRecs(u, at, skip))
    decreases |p|, 1, 0
  {
    LeftOutBelow(skip, at, p);
    if !skip(at) {
      if p == [] {
        OneBodyFirst(at, t.content.value, u.content.value, []);
        assert [FileRec(at, t.content)] + [] == [FileRec(at, t.content)] && [FileRec(at, u.content)] + [] == [FileRec(at, u.content)];
      } else {
        var names := NamesInOrder(t.children.Keys);
        NamesAreAll(t.children.Keys);
        EditInEntries(t, u, p, names, at, skip);
        if !LeftOut(skip, at, p) {
          var head, x, y := [Rec(at, "dir", None)], EntryRecs(t, names, at, skip), EntryRecs(u, names, at, skip);
          OneBodyBehind(head, x, y);
        }
      }
    }
  }

  /** Editing a file moves none: the files are the same and every other content is. */
  lemma {:induction false} EditedFiles(t: Tree, u: Tree, p: Path, at: Path)
    requires EditedAt(t, u, p)
    ensures FilesUnder(t, at) == FilesUnder(u, at) && at + p in FilesUnder(t, at)
    decreases |p|
  {
    if p == [] {
      assert at + p == at;
    } else {
      var k := p[0];
      EditedFiles(t.children[k], u.children[k], p[1..], at + [k]);
      assert at + [k] + p[1..] == at + p;
      assert forall j :: j in t.children && j != k ==> FilesUnder(t.children[j], at + [j]) == FilesUnder(u.children[j], at + [j]);
    }
  }

  lemma {:induction false} EditedLookup(t: Tree, u: Tree, p: Path, q: Path)
    requires EditedAt(t, u, p) && Lookup(t, q).Some? && Lookup(t, q).value.File? && Lookup(u, q).Some? && Lookup(u, q).value.File?
    ensures if q == p then EditedAt(Lookup(t, q).value, Lookup(u, q).value, []) else Lookup(t, q) == Lookup(u, q)
    decreases |p|
  {
    if p != [] && q != [] && q[0] == p[0] {
      EditedLookup(t.children[p[0]], u.children[p[0]], p[1..], q[1..]);
      assert q == [q[0]] + q[1..] && p == [p[0]] + p[1..];
    }
  }

  lemma {:induction false} EditInFiles(t: Tree, u: Tree, p: Path, at: Path, files: seq<Path>)
    requires EditedAt(t, u, p) && FilesUnder(t, at) == FilesUnder(u, at)
    requires forall i :: 0 <= i < |files| ==> files[i] in FilesUnder(t, at)
    requires forall i, j :: 0 <= i < j < |files| ==> files[i] != files[j]
    ensures if at + p in files then OneBodyDiffers(FileRecs(t, at, files), FileRecs(u, at, files))
            else FileRecs(t, at, files) == FileRecs(u, at, files)
  {
    if files != [] {
      var f, rest := files[0], files[1..];
      CollectedAreFiles(t, at, f);
      CollectedAreFiles(u, at, f);
      EditedLookup(t, u, p, f[|at|..]);
      EditInFiles(t, u, p, at, rest);
      var x, y := FileRec(f, Lookup(t, f[|at|..]).value.content), FileRec(f, Lookup(u, f[|at|..]).value.content);
      assert f == at + f[|at|..];
      if f == at + p {
        assert f[|at|..] == p && at + p !in rest;
        OneBodyFirst(f, x.body.value, y.body.value, FileRecs(t, at, rest));
      } else if at + p in rest {
        OneBodyBehind([x], FileRecs(t, at, rest), FileRecs(u, at, rest));
      }
    }
  }

  /** One edited file always shows in the stream of its root, whatever the contents are. */
  lemma EditIsSeen(t: Tree, u: Tree, p: Path, at: Path)
    requires EditedAt(t, u, p) && PathStream(Some(t), at).Some? && PathStream(Some(u), at).Some?
    ensures PathStream(Some(t), at) != PathStream(Some(u), at)
  {
    PathStreamIs(Some(t), at);
    PathStreamIs(Some(u), at);
    EditedFiles(t, u, p, at);
    if p == [] {
      OneBodyFirst(at, t.content.value, u.content.value, []);
      assert [FileRec(at, t.content)] + [] == PathRecs(Some(t), at) && [FileRec(at, u.content)] + [] == PathRecs(Some(u), at);
      OneBodyShows(PathRecs(Some(t), at), PathRecs(Some(u), at));
    } else {
      var files := PathsInOrder(FilesUnder(t, at));
      ArrangedOnce(PATH_LE, FilesUnder(t, at), files);
      EditInFiles(t, u, p, at, files);
      var head, x, y := [Rec(at, "dir", None)], FileRecs(t, at, files), FileRecs(u, at, files);
      OneBodyBehind(head, x, y);
      OneBodyShows(head + x, head + y);
    }
  }

  /** It shows in a filtered stream exactly when the path is not left out of the walk. */
  lemma EditIsSeenIff(t: Tree, u: Tree, p: Path, at: Path, skip: Path -> bool)
    requires EditedAt(t, u, p)
    requires FilteredRoot(Some(t), at, skip).Some? && FilteredRoot(Some(u), at, skip).Some?
    ensures FilteredRoot(Some(t), at, skip) == FilteredRoot(Some(u), at, skip)
      <==> exists i :: 0 <= i <= |p| && skip(at + p[..i])
  {
    FilteredStreamIs(t, at, skip);
    FilteredStreamIs(u, at, skip);
    EditShows(t, u, p, at, skip);
    if !LeftOut(skip, at, p) { OneBodyShows(FilteredRecs(t, at, skip), FilteredRecs(u, at, skip)); }
  }
}
