/** The sidecar cache manifest: the tab-separated printer and the parser that must undo it. */
module SidecarManifest {
  import opened Ordering
  import opened Lines

  datatype AuxAsset = AuxAsset(name: string, zst: string)

  /** `zst` and the aux `zst`s are file names inside the cache directory. */
  datatype Sidecar = Sidecar(name: string, domain: string, zst: string, hash: string, aux: seq<AuxAsset>)

  /** What stands at the manifest's path. */
  datatype ManifestFile = Absent | Locked | Readable(raw: string)

  datatype Loaded =
    | Hit(sidecars: seq<Sidecar>)
    | Miss                          // no manifest, or a file it names is gone
    | BadSidecar | BadAux | AuxBeforeSidecar
    | Unreadable                    // there is a manifest, but it cannot be read

  function BundleFile(name: string): string { name + ".mjs.zst" }

  function Row(fields: seq<string>): string
    requires |fields| > 0
  {
    Join(fields, '\t')
  }

  // ----- printing -----

  function AuxLines(name: string, aux: seq<AuxAsset>): seq<string> {
    seq(|aux|, i requires 0 <= i < |aux| => Row(["aux", name, aux[i].name, aux[i].zst]))
  }

  function SidecarLines(s: Sidecar): seq<string> {
    [Row(["sidecar", s.name, s.domain, s.hash])] + AuxLines(s.name, s.aux)
  }

  function ManifestLines(ss: seq<Sidecar>): seq<string> {
    if ss == [] then [] else SidecarLines(ss[0]) + ManifestLines(ss[1..])
  }

  /** One sidecar's rows, behind what is already written. */
  method WriteSidecar(before: string, s: Sidecar) returns (out: string)
    ensures out == before + Terminated(SidecarLines(s))
  {
    var first := Row(["sidecar", s.name, s.domain, s.hash]) + "\n";
    ghost var aux := AuxLines(s.name, s.aux);
    assert SidecarLines(s)[1..] == aux;
    Assoc(before, first, Terminated(aux));
    out := before + first;
    for j := 0 to |s.aux|
      invariant out + Terminated(aux[j..]) == before + Terminated(SidecarLines(s))
    {
      assert aux[j..][1..] == aux[j + 1..];
      var row := Row(["aux", s.name, s.aux[j].name, s.aux[j].zst]) + "\n";
      Assoc(out, row, Terminated(aux[j + 1..]));
      out := out + row;
    }
  }

  method WriteManifest(ss: seq<Sidecar>) returns (out: string)
    ensures out == Terminated(ManifestLines(ss))
  {
    out := "";
    for i := 0 to |ss|
      invariant out + Terminated(ManifestLines(ss[i..])) == Terminated(ManifestLines(ss))
    {
      assert ss[i..][1..] == ss[i + 1..];
      TerminatedConcat(SidecarLines(ss[i]), ManifestLines(ss[i + 1..]));
      Assoc(out, Terminated(SidecarLines(ss[i])), Terminated(ManifestLines(ss[i + 1..])));
      out := WriteSidecar(out, ss[i]);
    }
  }

  // ----- parsing -----

  function Field(fields: seq<string>, i: nat): string { if i < |fields| then fields[i] else "" }

  datatype Parse = Going(table: map<string, Sidecar>) | Stop(outcome: Loaded)

  function ParseLine(table: map<string, Sidecar>, line: string, present: set<string>): Parse {
    var f := Split(line, '\t');
    if f[0] == "sidecar" then
      var name, domain, hash := Field(f, 1), Field(f, 2), Field(f, 3);
      if name == "" || domain == "" || hash == "" then Stop(BadSidecar)
      else if BundleFile(name) !in present then Stop(Miss)
      else Going(table[name := Sidecar(name, domain, BundleFile(name), hash, [])])
    else if f[0] == "aux" then
      var name, asset, zst := Field(f, 1), Field(f, 2), Field(f, 3);
      if name == "" || asset == "" || zst == "" then Stop(BadAux)
      else if zst !in present then Stop(Miss)
      else if name !in table then Stop(AuxBeforeSidecar)
      else Going(table[name := table[name].(aux := table[name].aux + [AuxAsset(asset, zst)])])
    else Going(table)
  }

  /** A row of tab-free fields, read for what it is: each way it can be refused, missed, filed or passed over. */
  lemma RowsMean(table: map<string, Sidecar>, kind: string, a: string, b: string, c: string, present: set<string>)
    requires '\t' !in kind && '\t' !in a && '\t' !in b && '\t' !in c
    ensures var r := ParseLine(table, Row([kind, a, b, c]), present);
            && (kind == "sidecar" && (a == "" || b == "" || c == "") ==> r == Stop(BadSidecar))
            && (kind == "sidecar" && a != "" && b != "" && c != "" && a + ".mjs.zst" !in present ==> r == Stop(Miss))
            && (kind == "sidecar" && a != "" && b != "" && c != "" && a + ".mjs.zst" in present ==>
                  r == Going(table[a := Sidecar(a, b, a + ".mjs.zst", c, [])]))
            && (kind == "aux" && (a == "" || b == "" || c == "") ==> r == Stop(BadAux))
            && (kind == "aux" && a != "" && b != "" && c != "" && c !in present ==> r == Stop(Miss))
            && (kind == "aux" && a != "" && b != "" && c != "" && c in present && a !in table ==> r == Stop(AuxBeforeSidecar))
            && (kind == "aux" && a != "" && b != "" && c != "" && c in present && a in table ==>
                  r == Going(table[a := table[a].(aux := table[a].aux + [AuxAsset(b, c)])]))
            && (kind !in {"sidecar", "aux"} ==> r == Going(table))
  {
    SplitJoin([kind, a, b, c], '\t');
  }

  function ParseLines(table: map<string, Sidecar>, ls: seq<string>, present: set<string>): Parse
    decreases |ls|
  {
    if ls == [] then Going(table)
    else
      match ParseLine(table, ls[0], present)
      case Going(next) => ParseLines(next, ls[1..], present)
      case Stop(o) => Stop(o)
  }

  /** A tree map keyed by name yields its values in name order. */
  ghost predicate InKeyOrder(table: map<string, Sidecar>, out: seq<Sidecar>) {
    && |out| == |table|
    && (forall i :: 0 <= i < |out| ==> out[i].name in table && out[i] == table[out[i].name])
    && (forall i, j :: 0 <= i < j < |out| ==> STRING_LE(out[i].name, out[j].name) && out[i].name != out[j].name)
  }

  /** Every value is filed under its own name. */
  ghost predicate Keyed(table: map<string, Sidecar>) { forall k :: k in table ==> table[k].name == k }

  function ValuesOf(table: map<string, Sidecar>, keys: seq<string>): seq<Sidecar>
    requires forall i :: 0 <= i < |keys| ==> keys[i] in table
  {
    seq(|keys|, i requires 0 <= i < |keys| => table[keys[i]])
  }

  lemma ValuesAreInOrder(table: map<string, Sidecar>, keys: seq<string>)
    requires Keyed(table) && Arranges(STRING_LE, table.Keys, keys)
    ensures forall i :: 0 <= i < |keys| ==> keys[i] in table
    ensures InKeyOrder(table, ValuesOf(table, keys))
  {
    ArrangedOnce(STRING_LE, table.Keys, keys);
    assert |table| == |table.Keys|;
    forall i | 0 <= i < |keys| ensures keys[i] in table { assert keys[i] in table.Keys; }
  }

  method ValuesInKeyOrder(table: map<string, Sidecar>) returns (out: seq<Sidecar>)
    requires Keyed(table)
    ensures InKeyOrder(table, out)
  {
    StringsAreOrdered();
    var keys := SortedElements(STRING_LE, table.Keys);
    ValuesAreInOrder(table, keys);
    out := ValuesOf(table, keys);
  }

  /** What the parser's end state is reported as. */
  ghost predicate Outcome(p: Parse, r: Loaded) {
    match p
    case Stop(o) => r == o
    case Going(table) => r.Hit? && InKeyOrder(table, r.sidecars)
  }

  lemma ParseNext(table: map<string, Sidecar>, ls: seq<string>, i: nat, present: set<string>)
    requires i < |ls|
    ensures ParseLines(table, ls[i..], present) ==
            match ParseLine(table, ls[i], present)
            case Going(next) => ParseLines(next, ls[i + 1..], present)
            case Stop(o) => Stop(o)
  {
    assert ls[i..][1..] == ls[i + 1..];
  }

  /** The line loop over the sorted map. */
  method LoadLines(ls: seq<string>, present: set<string>) returns (r: Loaded)
    ensures Outcome(ParseLines(map[], ls, present), r)
  {
    var table: map<string, Sidecar> := map[];
    assert ls[0..] == ls;
    for i := 0 to |ls|
      invariant Keyed(table)
      invariant ParseLines(table, ls[i..], present) == ParseLines(map[], ls, present)
    {
      ParseNext(table, ls, i, present);
      var next := ParseLine(table, ls[i], present);
      if next.Stop? { return next.outcome; }
      table := next.table;
    }
    var out := ValuesInKeyOrder(table);
    r := Hit(out);
  }

  /** Reads a manifest, checking each file it names against `present`. */
  method LoadManifest(file: ManifestFile, present: set<string>) returns (r: Loaded)
    ensures file.Absent? ==> r == Miss
    ensures file.Locked? ==> r == Unreadable
    ensures file.Readable? ==> Outcome(ParseLines(map[], TextLines(file.raw), present), r)
  {
    match file
    case Absent => r := Miss;
    case Locked => r := Unreadable;
    case Readable(raw) => r := LoadLines(TextLines(raw), present);
  }

  // ----- the round trip -----

  predicate CleanField(s: string) { s != "" && '\t' !in s && '\n' !in s }

  /** Names without tabs and newlines; the last field of a line must also survive carriage-return stripping. */
  ghost predicate Clean(s: Sidecar) {
    && CleanField(s.name) && CleanField(s.domain) && CleanField(s.hash) && WithoutCr(s.hash) == s.hash
    && s.zst == BundleFile(s.name)
    && forall i :: 0 <= i < |s.aux| ==>
         CleanField(s.aux[i].name) && CleanField(s.aux[i].zst) && WithoutCr(s.aux[i].zst) == s.aux[i].zst
  }

  ghost predicate Writable(ss: seq<Sidecar>) {
    && (forall i :: 0 <= i < |ss| ==> Clean(ss[i]))
    && (forall i, j :: 0 <= i < j < |ss| ==> ss[i].name != ss[j].name)
  }

  ghost predicate FilesPresent(s: Sidecar, present: set<string>) {
    s.zst in present && forall i :: 0 <= i < |s.aux| ==> s.aux[i].zst in present
  }

  ghost predicate TablePresent(table: map<string, Sidecar>, present: set<string>) {
    forall n :: n in table ==> FilesPresent(table[n], present)
  }

  /** What a manifest is loaded as names only files that are there. */
  lemma {:induction false} LoadedFilesPresent(table: map<string, Sidecar>, ls: seq<string>, present: set<string>)
    requires TablePresent(table, present)
    ensures match ParseLines(table, ls, present)
            case Going(t) => TablePresent(t, present)
            case Stop(o) => !o.Hit?
    decreases |ls|
  {
    if ls != [] && ParseLine(table, ls[0], present).Going? {
      LoadedFilesPresent(ParseLine(table, ls[0], present).table, ls[1..], present);
    }
  }

  lemma HitFilesPresent(ls: seq<string>, present: set<string>, r: Loaded)
    requires r.Hit? && Outcome(ParseLines(map[], ls, present), r)
    ensures forall i :: 0 <= i < |r.sidecars| ==> FilesPresent(r.sidecars[i], present)
  {
    LoadedFilesPresent(map[], ls, present);
    var table := ParseLines(map[], ls, present).table;
    assert forall i :: 0 <= i < |r.sidecars| ==> r.sidecars[i] == table[r.sidecars[i].name];
  }

  /** A four-field row reads back as its fields, contains no newline and ends in no carriage return. */
  lemma RowRoundTrip(kind: string, a: string, b: string, z: string)
    requires kind in {"sidecar", "aux"} && CleanField(a) && CleanField(b) && CleanField(z) && WithoutCr(z) == z
    ensures Split(Row([kind, a, b, z]), '\t') == [kind, a, b, z]
    ensures '\n' !in Row([kind, a, b, z]) && WithoutCr(Row([kind, a, b, z])) == Row([kind, a, b, z])
  {
    var fs := [kind, a, b, z];
    SplitJoin(fs, '\t');
    assert fs[1..] == [a, b, z] && fs[1..][1..] == [b, z] && fs[1..][1..][1..] == [z];
    assert Join([b, z], '\t') == b + ['\t'] + z;
    assert Join([a, b, z], '\t') == a + ['\t'] + Join([b, z], '\t');
    assert Row(fs) == kind + ['\t'] + Join([a, b, z], '\t');
    assert Row(fs)[|Row(fs)| - 1] == z[|z| - 1];
  }

  /** No line holds a newline or ends in a carriage return. */
  ghost predicate PlainLines(ls: seq<string>) {
    Free(ls, '\n') && forall i :: 0 <= i < |ls| ==> WithoutCr(ls[i]) == ls[i]
  }

  lemma SidecarLinesPlain(s: Sidecar)
    requires Clean(s)
    ensures PlainLines(SidecarLines(s))
  {
    RowRoundTrip("sidecar", s.name, s.domain, s.hash);
    var aux := AuxLines(s.name, s.aux);
    forall i | 0 <= i < |s.aux| ensures '\n' !in aux[i] && WithoutCr(aux[i]) == aux[i] {
      RowRoundTrip("aux", s.name, s.aux[i].name, s.aux[i].zst);
    }
  }

  lemma PlainConcat(x: seq<string>, y: seq<string>)
    requires PlainLines(x) && PlainLines(y)
    ensures PlainLines(x + y)
  {
  }

  lemma {:induction false} ManifestLinesPlain(ss: seq<Sidecar>)
    requires forall i :: 0 <= i < |ss| ==> Clean(ss[i])
    ensures PlainLines(ManifestLines(ss))
  {
    if ss != [] {
      ManifestLinesPlain(ss[1..]);
      SidecarLinesPlain(ss[0]);
      PlainConcat(SidecarLines(ss[0]), ManifestLines(ss[1..]));
    }
  }

  lemma {:induction false} ManifestLinesReadBack(ss: seq<Sidecar>)
    requires forall i :: 0 <= i < |ss| ==> Clean(ss[i])
    ensures TextLines(Terminated(ManifestLines(ss))) == ManifestLines(ss)
  {
    ManifestLinesPlain(ss);
    LinesRoundTrip(ManifestLines(ss));
  }

  lemma {:induction false} ParseConcat(table: map<string, Sidecar>, x: seq<string>, y: seq<string>, present: set<string>)
    ensures ParseLines(table, x + y, present) ==
            match ParseLines(table, x, present)
            case Going(next) => ParseLines(next, y, present)
            case Stop(o) => Stop(o)
    decreases |x|
  {
    if x == [] {
      assert x + y == y;
    } else {
      assert (x + y)[0] == x[0] && (x + y)[1..] == x[1..] + y;
      match ParseLine(table, x[0], present)
      case Going(next) => ParseConcat(next, x[1..], y, present);
      case Stop(_) =>
    }
  }

  /** The aux rows of one sidecar append its assets in order, or miss on the first absent file. */
  lemma {:induction false} ParseAux(table: map<string, Sidecar>, s: Sidecar, k: nat, present: set<string>)
    requires Clean(s) && k <= |s.aux| && s.name in table && table[s.name] == s.(aux := s.aux[..k])
    ensures ParseLines(table, AuxLines(s.name, s.aux)[k..], present) ==
            if forall i :: k <= i < |s.aux| ==> s.aux[i].zst in present then Going(table[s.name := s]) else Stop(Miss)
    decreases |s.aux| - k
  {
    var ls := AuxLines(s.name, s.aux)[k..];
    if k == |s.aux| {
      assert s.aux[..k] == s.aux && table[s.name := s] == table;
    } else {
      RowRoundTrip("aux", s.name, s.aux[k].name, s.aux[k].zst);
      assert ls[0] == Row(["aux", s.name, s.aux[k].name, s.aux[k].zst]) && ls[1..] == AuxLines(s.name, s.aux)[k + 1..];
      if s.aux[k].zst in present {
        assert s.aux[..k] + [s.aux[k]] == s.aux[..k + 1] && AuxAsset(s.aux[k].name, s.aux[k].zst) == s.aux[k];
        var next := table[s.name := s.(aux := s.aux[..k + 1])];
        assert ParseLine(table, ls[0], present) == Going(next);
        ParseAux(next, s, k + 1, present);
        assert next[s.name := s] == table[s.name := s];
      }
    }
  }

  lemma ParseSidecar(table: map<string, Sidecar>, s: Sidecar, present: set<string>)
    requires Clean(s)
    ensures ParseLines(table, SidecarLines(s), present) ==
            if FilesPresent(s, present) then Going(table[s.name := s]) else Stop(Miss)
  {
    RowRoundTrip("sidecar", s.name, s.domain, s.hash);
    var ls := SidecarLines(s);
    assert ls[1..] == AuxLines(s.name, s.aux) == AuxLines(s.name, s.aux)[0..];
    if s.zst in present {
      var first := table[s.name := s.(aux := [])];
      assert ParseLine(table, ls[0], present) == Going(first);
      assert s.aux[..0] == [];
      ParseAux(first, s, 0, present);
      assert first[s.name := s] == table[s.name := s];
    }
  }

  ghost function Filed(table: map<string, Sidecar>, ss: seq<Sidecar>): map<string, Sidecar>
    decreases |ss|
  {
    if ss == [] then table else Filed(table[ss[0].name := ss[0]], ss[1..])
  }

  lemma {:induction false} ParseManifest(table: map<string, Sidecar>, ss: seq<Sidecar>, present: set<string>)
    requires forall i :: 0 <= i < |ss| ==> Clean(ss[i])
    ensures ParseLines(table, ManifestLines(ss), present) ==
            if forall i :: 0 <= i < |ss| ==> FilesPresent(ss[i], present) then Going(Filed(table, ss)) else Stop(Miss)
    decreases |ss|
  {
    if ss != [] {
      ParseConcat(table, SidecarLines(ss[0]), ManifestLines(ss[1..]), present);
      ParseSidecar(table, ss[0], present);
      if FilesPresent(ss[0], present) {
        ParseManifest(table[ss[0].name := ss[0]], ss[1..], present);
        assert forall i :: 0 <= i < |ss[1..]| ==> ss[1..][i] == ss[i + 1];
        assert forall i :: 1 <= i < |ss| ==> ss[i] == ss[1..][i - 1];
      }
    }
  }

  lemma {:induction false} FiledDistinct(table: map<string, Sidecar>, ss: seq<Sidecar>)
    requires forall i, j :: 0 <= i < j < |ss| ==> ss[i].name != ss[j].name
    requires forall i :: 0 <= i < |ss| ==> ss[i].name !in table
    ensures |Filed(table, ss)| == |table| + |ss|
    ensures forall k :: k in Filed(table, ss) <==> k in table || exists i :: 0 <= i < |ss| && ss[i].name == k
    ensures forall k :: k in table ==> Filed(table, ss)[k] == table[k]
    ensures forall i :: 0 <= i < |ss| ==> Filed(table, ss)[ss[i].name] == ss[i]
    decreases |ss|
  {
    if ss != [] {
      var next := table[ss[0].name := ss[0]];
      assert forall i :: 1 <= i < |ss| ==> ss[i] == ss[1..][i - 1];
      FiledDistinct(next, ss[1..]);
      assert next.Keys == table.Keys + {ss[0].name};
      assert |next| == |table| + 1;
    }
  }

  /** `out` is `ss` rearranged into name order. */
  ghost predicate ByName(ss: seq<Sidecar>, out: seq<Sidecar>) {
    && multiset(out) == multiset(ss)
    && forall i, j :: 0 <= i < j < |out| ==> STRING_LE(out[i].name, out[j].name) && out[i].name != out[j].name
  }

  /** Two duplicate-free sequences of one length, one within the other, hold the same elements. */
  lemma {:induction false} DistinctSameSize<T>(x: seq<T>, y: seq<T>)
    requires |x| == |y| && forall i :: 0 <= i < |x| ==> x[i] in y
    requires forall i, j :: 0 <= i < j < |x| ==> x[i] != x[j]
    ensures multiset(x) == multiset(y)
    decreases |x|
  {
    if x != [] {
      var j :| 0 <= j < |y| && y[j] == x[0];
      var y' := y[..j] + y[j + 1..];
      forall i | 1 <= i < |x| ensures x[i] in y' {
        var k :| 0 <= k < |y| && y[k] == x[i];
        assert y'[if k < j then k else k - 1] == x[i];
      }
      DistinctSameSize(x[1..], y');
      assert y == y[..j] + [y[j]] + y[j + 1..] && x == [x[0]] + x[1..];
    }
  }

  lemma InOrderIsRearranged(table: map<string, Sidecar>, ss: seq<Sidecar>, out: seq<Sidecar>)
    requires InKeyOrder(table, out) && |table| == |ss|
    requires forall i, j :: 0 <= i < j < |ss| ==> ss[i].name != ss[j].name
    requires forall k :: k in table ==> exists i :: 0 <= i < |ss| && ss[i].name == k
    requires forall i :: 0 <= i < |ss| ==> ss[i].name in table && table[ss[i].name] == ss[i]
    ensures ByName(ss, out)
  {
    forall i | 0 <= i < |out| ensures out[i] in ss {
      var j :| 0 <= j < |ss| && ss[j].name == out[i].name;
      assert ss[j] == out[i];
    }
    DistinctSameSize(out, ss);
  }

  /**
   * The manifest round trip: loading what the writer wrote gives back the same sidecars,
   * aux lists in order, sorted by name; or a miss when a file is gone. It never reports a
   * malformed entry or an aux line before its sidecar.
   */
  lemma ManifestRoundTrip(ss: seq<Sidecar>, present: set<string>, r: Loaded)
    requires Writable(ss)
    requires Outcome(ParseLines(map[], TextLines(Terminated(ManifestLines(ss))), present), r)
    ensures if forall i :: 0 <= i < |ss| ==> FilesPresent(ss[i], present)
            then r.Hit? && ByName(ss, r.sidecars) else r == Miss
  {
    ManifestLinesReadBack(ss);
    ParseManifest(map[], ss, present);
    FiledDistinct(map[], ss);
    if r.Hit? { InOrderIsRearranged(Filed(map[], ss), ss, r.sidecars); }
  }

  lemma {:induction false} ManifestConcat(x: seq<Sidecar>, y: seq<Sidecar>)
    ensures ManifestLines(x + y) == ManifestLines(x) + ManifestLines(y)
  {
    if x == [] {
      assert x + y == y;
    } else {
      ManifestConcat(x[1..], y);
      assert (x + y)[0] == x[0] && (x + y)[1..] == x[1..] + y;
      Assoc(SidecarLines(x[0]), ManifestLines(x[1..]), ManifestLines(y));
    }
  }
}
