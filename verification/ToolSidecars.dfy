/** The per-trace count files: where they live, when they are rewritten, and what a reader gets from them. */
module ToolSidecars {
  import opened Wrappers
  import opened Lines
  import opened ToolCounts

  // ----- names -----

  const JSON: string := ".json"

  const TRACE: string := "trace.json"

  const TOOLS: string := ".tools.json"

  function Stem(rel: string): string { if EndsWith(rel, JSON) then rel[..|rel| - |JSON|] else rel }

  function SidecarRel(rel: string): string { Stem(rel) + TOOLS }

  predicate IsTraceName(name: string) { EndsWith(name, TRACE) }

  predicate IsTrace(p: Path) { p != [] && IsTraceName(p[|p| - 1]) }

  function SidecarPath(p: Path): (s: Path)
    requires p != []
    ensures |s| == |p| && s[..|p| - 1] == p[..|p| - 1]
  {
    p[..|p| - 1] + [SidecarRel(p[|p| - 1])]
  }

  lemma SuffixCancels(a: string, b: string, c: string)
    ensures a + c == b + c <==> a == b
  {
    if a + c == b + c {
      assert |a| == |b|;
      assert (a + c)[..|a|] == a && (b + c)[..|b|] == b;
    }
  }

  lemma StemRestores(a: string)
    ensures a == if EndsWith(a, JSON) then Stem(a) + JSON else Stem(a)
    ensures Stem(a + JSON) == a
  {
    assert (a + JSON)[|a|..] == JSON && (a + JSON)[..|a|] == a;
  }

  /** Exactly the names that differ by one dropped `.json` share a sidecar. */
  lemma SidecarCollision(a: string, b: string)
    ensures SidecarRel(a) == SidecarRel(b) <==>
            a == b || (b == a + JSON && !EndsWith(a, JSON)) || (a == b + JSON && !EndsWith(b, JSON))
  {
    SuffixCancels(Stem(a), Stem(b), TOOLS);
    StemRestores(a);
    StemRestores(b);
  }

  lemma SidecarNameIsNoTrace(a: string)
    ensures !IsTraceName(SidecarRel(a))
  {
    var s := SidecarRel(a);
    assert s[|s| - |TRACE|..] == TOOLS[1..];
    assert TOOLS[1..][1] == 'o' && TRACE[1] == 'r';
  }

  lemma TraceNameEndsInJson(a: string)
    requires IsTraceName(a)
    ensures EndsWith(a, JSON)
  {
    assert a[|a| - |TRACE|..][|TRACE| - |JSON|..] == a[|a| - |JSON|..];
    assert TRACE[|TRACE| - |JSON|..] == JSON;
  }

  lemma SharedName(a: string, b: string)
    requires IsTraceName(a) && IsTraceName(b) && SidecarRel(a) == SidecarRel(b)
    ensures a == b
  {
    SidecarCollision(a, b);
    TraceNameEndsInJson(a);
    TraceNameEndsInJson(b);
  }

  lemma SidecarPathEnds(p: Path)
    requires p != []
    ensures SidecarPath(p)[|p| - 1] == SidecarRel(p[|p| - 1]) && p == SidecarPath(p)[..|p| - 1] + [p[|p| - 1]]
  {
  }

  lemma SharedSidecar(p: Path, q: Path)
    requires IsTrace(p) && IsTrace(q) && SidecarPath(p) == SidecarPath(q)
    ensures p == q
  {
    SidecarPathEnds(p);
    SidecarPathEnds(q);
    SharedName(p[|p| - 1], q[|q| - 1]);
  }

  /** No sidecar is a trace, and two traces never share one. */
  lemma SidecarsStandApart(p: Path, q: Path)
    requires p != [] && IsTrace(q)
    ensures !IsTrace(SidecarPath(p)) && SidecarPath(p) != q
    ensures IsTrace(p) && SidecarPath(p) == SidecarPath(q) ==> p == q
  {
    SidecarNameIsNoTrace(p[|p| - 1]);
    if IsTrace(p) && SidecarPath(p) == SidecarPath(q) { SharedSidecar(p, q); }
  }

  lemma SuffixIsInTheTail(head: string, tail: string)
    requires EndsWith(tail, JSON)
    ensures EndsWith(head + tail, JSON) && SidecarRel(head + tail) == head + SidecarRel(tail)
  {
    var s := head + tail;
    assert s[|s| - |JSON|..] == tail[|tail| - |JSON|..];
    assert Stem(s) == head + Stem(tail);
    Assoc(head, Stem(tail), TOOLS);
  }

  /** Swapping the suffix of the whole path text is swapping it in the file name. */
  lemma {:induction false} SidecarOfJoinedPath(p: Path)
    requires p != [] && EndsWith(p[|p| - 1], JSON)
    ensures SidecarRel(Join(p, '/')) == Join(SidecarPath(p), '/') && EndsWith(Join(p, '/'), JSON)
  {
    if |p| > 1 {
      assert p[1..][|p| - 2] == p[|p| - 1];
      SidecarOfJoinedPath(p[1..]);
      assert SidecarPath(p)[1..] == SidecarPath(p[1..]);
      SuffixIsInTheTail(p[0] + ['/'], Join(p[1..], '/'));
    }
  }

  // ----- contents -----

  /** The JSON library: reading text and showing values. */
  datatype Serde = Serde(parse: string -> Option<Value>, show: Value -> string)

  ghost predicate Faithful(sd: Serde) { forall v :: sd.parse(sd.show(v)) == Some(v) }

  const U32_LIMIT: nat := 0x1_0000_0000

  function RowValue(row: Row): Value { Object(map["name" := Str(row.0), "count" := Number(row.1)]) }

  function RowsValue(rows: seq<Row>): (v: Value)
    ensures v.Array? && |v.items| == |rows|
  {
    Array(seq(|rows|, i requires 0 <= i < |rows| => RowValue(rows[i])))
  }

  function RowFrom(v: Value): Option<Row> {
    var name, count := AsStr(Get(v, "name")), Get(v, "count");
    if name.Some? && count.Some? && count.value.Number? && 0 <= count.value.n < U32_LIMIT
    then Some((name.value, count.value.n)) else None
  }

  function RowsFromItems(items: seq<Value>): Option<seq<Row>> {
    if items == [] then Some([])
    else
      var first, rest := RowFrom(items[0]), RowsFromItems(items[1..]);
      if first.Some? && rest.Some? then Some([first.value] + rest.value) else None
  }

  function RowsFrom(v: Value): Option<seq<Row>> { if v.Array? then RowsFromItems(v.items) else None }

  /** Rows survive the file format exactly when every count fits its 32 bits. */
  lemma {:induction false} RowsRoundTrip(rows: seq<Row>)
    ensures RowsFrom(RowsValue(rows)) == Some(rows) <==> forall i :: 0 <= i < |rows| ==> rows[i].1 < U32_LIMIT
    ensures RowsFrom(RowsValue(rows)) == Some(rows) || RowsFrom(RowsValue(rows)) == None
  {
    if rows != [] {
      RowsRoundTrip(rows[1..]);
      assert RowsValue(rows).items[1..] == RowsValue(rows[1..]).items;
      assert RowFrom(RowValue(rows[0])) == if rows[0].1 < U32_LIMIT then Some(rows[0]) else None;
      assert rows == [rows[0]] + rows[1..];
    }
  }

  /** What a sidecar of a trace with this parsed content must hold. */
  ghost function Body(sd: Serde, trace: Value): string { sd.show(RowsValue(Tally(Calls(trace)))) }

  // ----- the disk -----

  datatype Entry = Entry(content: string, mtime: nat)

  type Files = map<Path, Entry>

  function Lookup(f: Files, p: Path): Option<Entry> { if p in f then Some(f[p]) else None }

  /** How one write ends: it lands at some time, is refused, or stops with a part of the text on disk. */
  datatype Fate = Lands(at: nat) | Refused | Torn(at: nat, left: string)

  predicate Below(d: Path, p: Path) { |d| < |p| && p[..|d|] == d }

  /** `links` are the symbolic links; a directory holds a file or a link somewhere below it. */
  ghost predicate IsDir(f: Files, links: set<Path>, d: Path) { exists p :: p in f.Keys + links && Below(d, p) }

  /** A path is a file, a link or a directory, and no two of them. */
  ghost predicate Tidy(f: Files, links: set<Path>) {
    f.Keys !! links && forall p :: p in f.Keys + links ==> !IsDir(f, links, p)
  }

  /** Nothing is written over a directory or in place of a link. */
  ghost predicate Lawful(f: Files, links: set<Path>, fates: Path -> Fate) {
    forall p :: IsDir(f, links, p) || p in links ==> fates(p) == Refused
  }

  predicate Current(f: Files, t: Path)
    requires t != []
  {
    SidecarPath(t) in f && t in f && f[SidecarPath(t)].mtime >= f[t].mtime
  }

  /** The trace parses and has no current sidecar. */
  predicate Wants(f: Files, sd: Serde, t: Path) { t != [] && t in f && !Current(f, t) && sd.parse(f[t].content).Some? }

  ghost function SidecarAfter(f: Files, sd: Serde, fates: Path -> Fate, t: Path): Option<Entry>
    requires t != []
  {
    var s := SidecarPath(t);
    if !Wants(f, sd, t) then Lookup(f, s)
    else match fates(s)
      case Lands(at) => Some(Entry(Body(sd, sd.parse(f[t].content).value), at))
      case Refused => Lookup(f, s)
      case Torn(at, left) => Some(Entry(left, at))
  }

  ghost function Sidecars(traces: set<Path>): set<Path> { set t | t in traces && t != [] :: SidecarPath(t) }

  /** `g` is `f` with the sidecars of `traces` brought up to date as far as the writes allowed. */
  ghost predicate Swept(f: Files, g: Files, sd: Serde, fates: Path -> Fate, traces: set<Path>) {
    && (forall t :: t in traces && t != [] ==> Lookup(g, SidecarPath(t)) == SidecarAfter(f, sd, fates, t))
    && (forall p :: p !in Sidecars(traces) ==> Lookup(g, p) == Lookup(f, p))
  }

  function Names(f: Files, links: set<Path>, d: Path): set<string> {
    set p | p in f.Keys + links && Below(d, p) :: p[|d|]
  }

  class Disk {
    var files: Files
    const fates: Path -> Fate
    const closed: set<Path>
    const links: set<Path>

    constructor (files: Files, fates: Path -> Fate, closed: set<Path>, links: set<Path>)
      ensures this.files == files && this.fates == fates && this.closed == closed && this.links == links
    {
      this.files, this.fates, this.closed, this.links := files, fates, closed, links;
    }

    /** Names in one directory, in no particular order; nothing when it cannot be listed. */
    method ReadDir(d: Path) returns (names: Option<set<string>>)
      ensures names == if d in closed then None else Some(Names(files, links, d))
    {
      if d in closed { return None; }
      names := Some(set p | p in files.Keys + links && Below(d, p) :: p[|d|]);
    }

    method Write(p: Path, body: string) returns (ok: bool)
      modifies this
      ensures ok == fates(p).Lands?
      ensures files == match fates(p)
              case Lands(at) => old(files)[p := Entry(body, at)]
              case Refused => old(files)
              case Torn(at, left) => old(files)[p := Entry(left, at)]
    {
      ok := fates(p).Lands?;
      match fates(p) {
        case Lands(at) => files := files[p := Entry(body, at)];
        case Refused =>
        case Torn(at, left) => files := files[p := Entry(left, at)];
      }
    }
  }

  // ----- the walk -----

  predicate Listed(closed: set<Path>, d: Path, p: Path) { forall k :: |d| <= k < |p| ==> p[..k] !in closed }

  /** The trace files below `d` through listable directories. */
  ghost function TracesUnder(f: Files, closed: set<Path>, d: Path): set<Path> {
    set p | p in f && Below(d, p) && IsTrace(p) && Listed(closed, d, p)
  }

  ghost function TracesVia(f: Files, closed: set<Path>, d: Path, names: set<string>): set<Path> {
    set p | p in TracesUnder(f, closed, d) && p[|d|] in names
  }

  ghost predicate Distinct(out: seq<Path>) { forall i, j :: 0 <= i < j < |out| ==> out[i] != out[j] }

  /** `out` lists the paths of `s`, each once, after those it held before. */
  ghost predicate Gathers(before: seq<Path>, out: seq<Path>, s: set<Path>) {
    exists more :: out == before + more && Distinct(more) && forall p :: p in more <==> p in s
  }

  lemma DistinctConcat(x: seq<Path>, y: seq<Path>)
    requires Distinct(x) && Distinct(y) && forall p :: p in x ==> p !in y
    ensures Distinct(x + y)
  {
    forall i, j | 0 <= i < j < |x + y| ensures (x + y)[i] != (x + y)[j] {
      if i < |x| <= j { assert (x + y)[i] in x && (x + y)[j] in y; }
    }
  }

  lemma GathersMore(before: seq<Path>, mid: seq<Path>, out: seq<Path>, s: set<Path>, t: set<Path>)
    requires Gathers(before, mid, s) && Gathers(mid, out, t) && s !! t
    ensures Gathers(before, out, s + t)
  {
    var x :| mid == before + x && Distinct(x) && forall p :: p in x <==> p in s;
    var y :| out == mid + y && Distinct(y) && forall p :: p in y <==> p in t;
    Assoc(before, x, y);
    DistinctConcat(x, y);
  }

  lemma GathersNone(before: seq<Path>)
    ensures Gathers(before, before, {})
  {
    assert before == before + [] && Distinct([]);
  }

  lemma GathersOne(before: seq<Path>, p: Path)
    ensures Gathers(before, before + [p], {p})
  {
    assert Distinct([p]);
  }

  lemma DirectChild(d: Path, p: Path)
    requires Below(d, p)
    ensures |p| == |d| + 1 ==> p == d + [p[|d|]]
  {
    assert p[..|d| + 1] == p[..|d|] + [p[|d|]];
  }

  /** The part of a directory's traces one entry leads to. */
  lemma OneEntry(f: Files, links: set<Path>, closed: set<Path>, d: Path, n: string)
    requires Tidy(f, links) && d !in closed
    ensures TracesVia(f, closed, d, {n}) ==
            if d + [n] in links then {}
            else if d + [n] in f then (if IsTraceName(n) then {d + [n]} else {})
            else TracesUnder(f, closed, d + [n])
  {
    var c := d + [n];
    forall p | p in TracesVia(f, closed, d, {n}) && |p| > |c| ensures Below(c, p) && Listed(closed, c, p) {
      assert p[..|c|] == p[..|d|] + [p[|d|]];
    }
    forall p | p in f && Below(c, p) ensures Below(d, p) && p[|d|] == n {
      assert p[..|d|] == p[..|c|][..|d|];
      assert p[|d|] == p[..|c|][|d|];
    }
    forall p | p in f && Below(c, p) && Listed(closed, c, p) ensures Listed(closed, d, p) {
      forall k | |d| <= k < |p| ensures p[..k] !in closed {
        if k == |d| { assert p[..k] == d; }
      }
    }
    if c in f {
      assert !IsDir(f, links, c);
      assert c[..|d|] == d && Below(d, c);
      forall k | |d| <= k < |c| ensures c[..k] !in closed { assert c[..k] == d; }
      forall p | p in TracesVia(f, closed, d, {n}) ensures p == c { DirectChild(d, p); }
    } else {
      forall p | p in TracesVia(f, closed, d, {n}) ensures Below(c, p) { DirectChild(d, p); }
      if c in links { assert !IsDir(f, links, c); }
    }
  }

  lemma OneMoreEntry(f: Files, closed: set<Path>, d: Path, done: set<string>, n: string)
    requires n !in done
    ensures TracesVia(f, closed, d, done + {n}) == TracesVia(f, closed, d, done) + TracesVia(f, closed, d, {n})
    ensures TracesVia(f, closed, d, done) !! TracesVia(f, closed, d, {n})
  {
  }

  lemma DeeperThan(f: Files, links: set<Path>, d: Path, n: string)
    requires n in Names(f, links, d) && d + [n] !in f && d + [n] !in links
    ensures exists p :: p in f.Keys + links && |p| >= |d| + 2
  {
    var p :| p in f.Keys + links && Below(d, p) && p[|d|] == n;
    DirectChild(d, p);
  }

  method CollectTraces(disk: Disk, d: Path, out: seq<Path>, ghost height: nat) returns (out': seq<Path>)
    requires Tidy(disk.files, disk.links) && (forall p :: p in disk.files.Keys + disk.links ==> |p| <= |d| + height)
    ensures Gathers(out, out', TracesUnder(disk.files, disk.closed, d))
    decreases height
  {
    out' := out;
    GathersNone(out);
    var names := disk.ReadDir(d);
    if names.None? {
      assert forall p :: Below(d, p) ==> p[..|d|] in disk.closed;
      assert TracesUnder(disk.files, disk.closed, d) == {};
      return;
    }
    var rest := names.value;
    ghost var all := rest;
    assert TracesVia(disk.files, disk.closed, d, all - rest) == {};
    while rest != {}
      invariant rest <= all && Gathers(out, out', TracesVia(disk.files, disk.closed, d, all - rest))
      decreases rest
    {
      var n :| n in rest;
      ghost var before := out';
      var path := d + [n];
      OneEntry(disk.files, disk.links, disk.closed, d, n);
      OneMoreEntry(disk.files, disk.closed, d, all - rest, n);
      if path in disk.links {
        GathersNone(out');
      } else if path !in disk.files {
        DeeperThan(disk.files, disk.links, d, n);
        out' := CollectTraces(disk, path, out', height - 1);
      } else if IsTraceName(n) {
        GathersOne(out', path);
        out' := out' + [path];
      } else {
        GathersNone(out');
      }
      GathersMore(out, before, out', TracesVia(disk.files, disk.closed, d, all - rest),
                  TracesVia(disk.files, disk.closed, d, {n}));
      assert all - (rest - {n}) == all - rest + {n};
      rest := rest - {n};
    }
    assert TracesVia(disk.files, disk.closed, d, all) == TracesUnder(disk.files, disk.closed, d);
    assert all - {} == all;
  }

  // ----- the sweep -----

  lemma SidecarsOf(traces: set<Path>, t: Path)
    requires IsTrace(t) && forall u :: u in traces ==> IsTrace(u)
    ensures t !in Sidecars(traces) && (SidecarPath(t) in Sidecars(traces) <==> t in traces)
  {
    forall u | u in traces ensures SidecarPath(u) != t && (SidecarPath(u) == SidecarPath(t) ==> u == t) {
      SidecarsStandApart(u, t);
    }
  }

  lemma SweptNothing(f: Files, sd: Serde, fates: Path -> Fate)
    ensures Swept(f, f, sd, fates, {})
  {
  }

  /** One more trace: only its sidecar may change, to what the trace asks for. */
  lemma SweptOneMore(f: Files, g: Files, h: Files, sd: Serde, fates: Path -> Fate, done: set<Path>, t: Path)
    requires Swept(f, g, sd, fates, done) && IsTrace(t) && t !in done && forall u :: u in done ==> IsTrace(u)
    requires Lookup(h, SidecarPath(t)) == SidecarAfter(g, sd, fates, t)
    requires forall p :: p != SidecarPath(t) ==> Lookup(h, p) == Lookup(g, p)
    ensures Swept(f, h, sd, fates, done + {t})
    ensures Wants(g, sd, t) == Wants(f, sd, t)
  {
    SidecarsOf(done, t);
    assert Lookup(g, t) == Lookup(f, t) && Lookup(g, SidecarPath(t)) == Lookup(f, SidecarPath(t));
    assert SidecarAfter(g, sd, fates, t) == SidecarAfter(f, sd, fates, t);
    forall u | u in done + {t} ensures Lookup(h, SidecarPath(u)) == SidecarAfter(f, sd, fates, u) {
      if u != t { SidecarsStandApart(u, t); }
    }
    assert Sidecars(done + {t}) == Sidecars(done) + {SidecarPath(t)};
  }

  /** Reads and counts one trace; nothing when it is gone or does not parse. */
  method ReadTrace(disk: Disk, sd: Serde, t: Path) returns (body: Option<string>)
    ensures body == if t in disk.files && sd.parse(disk.files[t].content).Some?
                    then Some(Body(sd, sd.parse(disk.files[t].content).value)) else None
  {
    if t !in disk.files { return None; }
    var trace := sd.parse(disk.files[t].content);
    if trace.None? { return None; }
    var tools := CountToolsInTrace(trace.value);
    body := Some(sd.show(RowsValue(tools)));
  }

  /** `Some(true)` wrote, `Some(false)` found a current sidecar, `None` skipped the trace. */
  method WriteOne(disk: Disk, sd: Serde, t: Path) returns (r: Option<bool>)
    requires IsTrace(t)
    modifies disk
    ensures Lookup(disk.files, SidecarPath(t)) == SidecarAfter(old(disk.files), sd, disk.fates, t)
    ensures forall p :: p != SidecarPath(t) ==> Lookup(disk.files, p) == Lookup(old(disk.files), p)
    ensures r == Some(true) <==> Wants(old(disk.files), sd, t) && disk.fates(SidecarPath(t)).Lands?
    ensures r == Some(false) <==> Current(old(disk.files), t)
  {
    var sidecar := SidecarPath(t);
    if Current(disk.files, t) { return Some(false); }
    var body := ReadTrace(disk, sd, t);
    if body.None? { return None; }
    var ok := disk.Write(sidecar, body.value);
    r := if ok then Some(true) else None;
  }

  /** The traces whose sidecars a sweep writes. */
  ghost function Rewritten(f: Files, sd: Serde, fates: Path -> Fate, traces: set<Path>): set<Path> {
    set t | t in traces && Wants(f, sd, t) && fates(SidecarPath(t)).Lands?
  }

  const BENCHES: seq<string> := ["swe", "terminal-bench-2.0", "memory"]

  function TraceDir(root: Path, i: nat): Path
    requires i < |BENCHES|
  {
    root + [BENCHES[i], "trace"]
  }

  predicate Chosen(only: Option<string>, i: nat)
    requires i < |BENCHES|
  {
    only.None? || only.value == BENCHES[i]
  }

  /** The traces of the first `n` benches the caller asked for. */
  ghost function Selected(f: Files, closed: set<Path>, root: Path, only: Option<string>, n: nat): set<Path>
    requires n <= |BENCHES|
  {
    if n == 0 then {}
    else Selected(f, closed, root, only, n - 1)
         + (if Chosen(only, n - 1) then TracesUnder(f, closed, TraceDir(root, n - 1)) else {})
  }

  function BenchOf(root: Path, t: Path): string { if |t| > |root| then t[|root|] else "" }

  lemma UnderOneBench(f: Files, closed: set<Path>, root: Path, i: nat, t: Path)
    requires i < |BENCHES| && t in TracesUnder(f, closed, TraceDir(root, i))
    ensures IsTrace(t) && t in f && BenchOf(root, t) == BENCHES[i]
  {
    assert t[..|root| + 2][|root|] == BENCHES[i];
  }

  lemma {:induction false} SelectedAreTraces(f: Files, closed: set<Path>, root: Path, only: Option<string>, n: nat, t: Path)
    requires n <= |BENCHES| && t in Selected(f, closed, root, only, n)
    ensures IsTrace(t) && t in f && BenchOf(root, t) in BENCHES[..n]
  {
    if t in Selected(f, closed, root, only, n - 1) {
      SelectedAreTraces(f, closed, root, only, n - 1, t);
      assert BENCHES[..n - 1] <= BENCHES[..n];
    } else {
      UnderOneBench(f, closed, root, n - 1, t);
      assert BENCHES[..n][n - 1] == BENCHES[n - 1];
    }
  }

  lemma BenchesAreDistinct(i: nat, j: nat)
    requires i < j < |BENCHES|
    ensures BENCHES[i] != BENCHES[j]
  {
    assert |BENCHES[0]| == 3 && |BENCHES[1]| == 18 && |BENCHES[2]| == 6;
  }

  lemma RefusedStays(f: Files, g: Files, sd: Serde, fates: Path -> Fate, traces: set<Path>, p: Path)
    requires Swept(f, g, sd, fates, traces) && fates(p) == Refused
    ensures Lookup(g, p) == Lookup(f, p)
  {
    if p in Sidecars(traces) {
      var t :| t in traces && t != [] && SidecarPath(t) == p;
      assert SidecarAfter(f, sd, fates, t) == Lookup(f, p);
    }
  }

  lemma SameParent(t: Path, p: Path, d: Path)
    requires t != [] && SidecarPath(t) == p && Below(d, p)
    ensures Below(d, t)
  {
    assert t[..|d|] == t[..|t| - 1][..|d|];
    assert p[..|d|] == p[..|p| - 1][..|d|];
  }

  lemma DirWasDir(f: Files, g: Files, links: set<Path>, sd: Serde, fates: Path -> Fate, traces: set<Path>, d: Path)
    requires Swept(f, g, sd, fates, traces) && IsDir(g, links, d)
    requires forall t :: t in traces ==> IsTrace(t) && t in f
    ensures IsDir(f, links, d)
  {
    var p :| p in g.Keys + links && Below(d, p);
    if p !in f && p !in links {
      assert Lookup(g, p) != Lookup(f, p);
      var t :| t in traces && SidecarPath(t) == p;
      SameParent(t, p, d);
    }
  }

  lemma SweptStaysTidy(f: Files, g: Files, links: set<Path>, sd: Serde, fates: Path -> Fate, traces: set<Path>)
    requires Swept(f, g, sd, fates, traces) && Tidy(f, links) && Lawful(f, links, fates)
    requires forall t :: t in traces ==> IsTrace(t) && t in f
    ensures Tidy(g, links)
  {
    forall p | p in links ensures p !in g && !IsDir(g, links, p) {
      RefusedStays(f, g, sd, fates, traces, p);
      if IsDir(g, links, p) { DirWasDir(f, g, links, sd, fates, traces, p); }
    }
    forall p | IsDir(g, links, p) ensures p !in g {
      DirWasDir(f, g, links, sd, fates, traces, p);
      RefusedStays(f, g, sd, fates, traces, p);
    }
  }

  /** Sweeping leaves the traces, and so what the walk finds, as they were; files stay files. */
  lemma SweptKeepsTraces(f: Files, g: Files, links: set<Path>, sd: Serde, fates: Path -> Fate, traces: set<Path>,
                         closed: set<Path>, d: Path)
    requires Swept(f, g, sd, fates, traces) && Tidy(f, links) && Lawful(f, links, fates)
    requires forall t :: t in traces ==> IsTrace(t) && t in f
    ensures TracesUnder(g, closed, d) == TracesUnder(f, closed, d) && Tidy(g, links)
  {
    forall p | IsTrace(p) ensures p in g <==> p in f {
      SidecarsOf(traces, p);
      assert Lookup(g, p) == Lookup(f, p);
    }
    SweptStaysTidy(f, g, links, sd, fates, traces);
  }

  lemma BenchesApart(f: Files, closed: set<Path>, root: Path, only: Option<string>, n: nat)
    requires n < |BENCHES|
    ensures Selected(f, closed, root, only, n) !! TracesUnder(f, closed, TraceDir(root, n))
  {
    forall t | t in Selected(f, closed, root, only, n) ensures t !in TracesUnder(f, closed, TraceDir(root, n)) {
      SelectedAreTraces(f, closed, root, only, n, t);
      var i :| 0 <= i < n && BENCHES[..n][i] == BenchOf(root, t);
      BenchesAreDistinct(i, n);
      if t in TracesUnder(f, closed, TraceDir(root, n)) { UnderOneBench(f, closed, root, n, t); }
    }
  }

  /** How far a sweep has come: these traces are done and this many sidecars were written. */
  ghost predicate SweepState(f: Files, g: Files, sd: Serde, fates: Path -> Fate, done: set<Path>, written: nat) {
    && Swept(f, g, sd, fates, done)
    && (forall t :: t in done ==> IsTrace(t) && t in f)
    && written == |Rewritten(f, sd, fates, done)|
  }

  lemma RewrittenOneMore(f: Files, sd: Serde, fates: Path -> Fate, done: set<Path>, t: Path)
    requires t != [] && t !in done
    ensures |Rewritten(f, sd, fates, done + {t})|
            == |Rewritten(f, sd, fates, done)| + if Wants(f, sd, t) && fates(SidecarPath(t)).Lands? then 1 else 0
  {
    var before, now := Rewritten(f, sd, fates, done), Rewritten(f, sd, fates, done + {t});
    if Wants(f, sd, t) && fates(SidecarPath(t)).Lands? {
      assert now == before + {t};
    } else {
      assert now == before;
    }
  }

  lemma SweepStateOneMore(f: Files, g: Files, h: Files, sd: Serde, fates: Path -> Fate, done: set<Path>, written: nat, t: Path)
    requires SweepState(f, g, sd, fates, done, written) && IsTrace(t) && t in f && t !in done
    requires Lookup(h, SidecarPath(t)) == SidecarAfter(g, sd, fates, t)
    requires forall p :: p != SidecarPath(t) ==> Lookup(h, p) == Lookup(g, p)
    ensures SweepState(f, h, sd, fates, done + {t},
                       written + if Wants(g, sd, t) && fates(SidecarPath(t)).Lands? then 1 else 0)
  {
    SweptOneMore(f, g, h, sd, fates, done, t);
    RewrittenOneMore(f, sd, fates, done, t);
  }

  function Members(traces: seq<Path>): set<Path> { set t | t in traces }

  lemma OneMoreMember(before: set<Path>, traces: seq<Path>, i: nat)
    requires i < |traces| && Distinct(traces) && forall t :: t in traces ==> t !in before
    ensures before + Members(traces[..i + 1]) == before + Members(traces[..i]) + {traces[i]}
    ensures traces[i] !in before + Members(traces[..i])
  {
    assert traces[..i + 1] == traces[..i] + [traces[i]];
  }

  /** One bench's traces, in the order the walk found them. */
  method SweepTraces(disk: Disk, sd: Serde, traces: seq<Path>, soFar: nat, ghost f: Files, ghost before: set<Path>)
    returns (written: nat)
    requires SweepState(f, disk.files, sd, disk.fates, before, soFar)
    requires Distinct(traces) && forall t :: t in traces ==> IsTrace(t) && t in f && t !in before
    modifies disk
    ensures SweepState(f, disk.files, sd, disk.fates, before + Members(traces), written)
  {
    written := soFar;
    assert before + Members(traces[..0]) == before;
    for i := 0 to |traces|
      invariant SweepState(f, disk.files, sd, disk.fates, before + Members(traces[..i]), written)
    {
      ghost var g := disk.files;
      OneMoreMember(before, traces, i);
      var r := WriteOne(disk, sd, traces[i]);
      SweepStateOneMore(f, g, disk.files, sd, disk.fates, before + Members(traces[..i]), written, traces[i]);
      if r == Some(true) { written := written + 1; }
    }
    assert traces[..|traces|] == traces;
  }

  ghost predicate AllWithin(ps: set<Path>, n: nat) { forall p :: p in ps ==> |p| <= n }

  lemma {:induction false} LongestOf(ps: set<Path>)
    ensures exists n: nat :: AllWithin(ps, n)
  {
    if ps == {} {
      assert AllWithin(ps, 0);
    } else {
      var p :| p in ps;
      LongestOf(ps - {p});
      var n: nat :| AllWithin(ps - {p}, n);
      assert AllWithin(ps, n + |p|);
    }
  }

  ghost function Longest(ps: set<Path>): (n: nat)
    ensures forall p :: p in ps ==> |p| <= n
  {
    LongestOf(ps);
    var n: nat :| AllWithin(ps, n);
    n
  }

  lemma Collected(out: seq<Path>, s: set<Path>)
    requires Gathers([], out, s)
    ensures Distinct(out) && Members(out) == s
  {
    var more :| out == [] + more && Distinct(more) && forall p :: p in more <==> p in s;
    assert out == more;
  }

  method SweepDir(disk: Disk, sd: Serde, d: Path, soFar: nat, ghost f: Files, ghost done: set<Path>) returns (written: nat)
    requires SweepState(f, disk.files, sd, disk.fates, done, soFar)
    requires Tidy(f, disk.links) && Lawful(f, disk.links, disk.fates) && done !! TracesUnder(f, disk.closed, d)
    modifies disk
    ensures SweepState(f, disk.files, sd, disk.fates, done + TracesUnder(f, disk.closed, d), written)
  {
    SweptKeepsTraces(f, disk.files, disk.links, sd, disk.fates, done, disk.closed, d);
    var traces := CollectTraces(disk, d, [], Longest(disk.files.Keys + disk.links));
    Collected(traces, TracesUnder(f, disk.closed, d));
    written := SweepTraces(disk, sd, traces, soFar, f, done);
  }

  /** What one more bench adds to the selection. */
  lemma OneMoreBench(f: Files, closed: set<Path>, root: Path, only: Option<string>, n: nat)
    requires n < |BENCHES|
    ensures var before := Selected(f, closed, root, only, n);
            && Selected(f, closed, root, only, n + 1)
               == before + (if Chosen(only, n) then TracesUnder(f, closed, TraceDir(root, n)) else {})
            && before !! TracesUnder(f, closed, TraceDir(root, n))
  {
    BenchesApart(f, closed, root, only, n);
  }

  method SweepBench(disk: Disk, sd: Serde, root: Path, only: Option<string>, n: nat, soFar: nat, ghost f: Files,
                    ghost done: set<Path>, ghost after: set<Path>)
    returns (written: nat)
    requires n < |BENCHES| && Tidy(f, disk.links) && Lawful(f, disk.links, disk.fates)
    requires done !! TracesUnder(f, disk.closed, TraceDir(root, n))
    requires after == done + (if Chosen(only, n) then TracesUnder(f, disk.closed, TraceDir(root, n)) else {})
    requires SweepState(f, disk.files, sd, disk.fates, done, soFar)
    modifies disk
    ensures SweepState(f, disk.files, sd, disk.fates, after, written)
  {
    if Chosen(only, n) {
      written := SweepDir(disk, sd, TraceDir(root, n), soFar, f, done);
    } else {
      assert after == done;
      written := soFar;
    }
  }

  /** The first `count` benches, one after the other. */
  method SweepBenches(disk: Disk, sd: Serde, root: Path, only: Option<string>, count: nat) returns (written: nat)
    requires count <= |BENCHES|
    requires Tidy(disk.files, disk.links) && Lawful(disk.files, disk.links, disk.fates)
    modifies disk
    ensures SweepState(old(disk.files), disk.files, sd, disk.fates,
                       Selected(old(disk.files), disk.closed, root, only, count), written)
  {
    written := 0;
    ghost var f := disk.files;
    ghost var done := Selected(f, disk.closed, root, only, 0);
    SweptNothing(f, sd, disk.fates);
    for n := 0 to count
      invariant done == Selected(f, disk.closed, root, only, n)
      invariant SweepState(f, disk.files, sd, disk.fates, done, written)
    {
      OneMoreBench(f, disk.closed, root, only, n);
      ghost var after := Selected(f, disk.closed, root, only, n + 1);
      written := SweepBench(disk, sd, root, only, n, written, f, done, after);
      done := after;
    }
  }

  method WriteToolCountSidecars(disk: Disk, sd: Serde, root: Path, only: Option<string>) returns (written: nat)
    requires Tidy(disk.files, disk.links) && Lawful(disk.files, disk.links, disk.fates)
    modifies disk
    ensures SweepState(old(disk.files), disk.files, sd, disk.fates,
                       Selected(old(disk.files), disk.closed, root, only, |BENCHES|), written)
  {
    written := SweepBenches(disk, sd, root, only, |BENCHES|);
  }

  // ----- names and benches, spelt out -----

  /** The count file of `x.json` is `x.tools.json`; a trace is a name that ends in `trace.json`. */
  lemma NamesSpelt(a: string)
    ensures SidecarRel(a + ".json") == a + ".tools.json"
    ensures IsTraceName(a) <==> exists x :: a == x + "trace.json"
  {
    StemRestores(a);
    if IsTraceName(a) { assert a == a[..|a| - |TRACE|] + TRACE; }
    if x :| a == x + "trace.json" { assert a[|a| - |TRACE|..] == TRACE; }
  }

  /** A trace is selected exactly when it is below the trace directory of a bench that was asked for; all are by default. */
  lemma SelectedIff(f: Files, closed: set<Path>, root: Path, only: Option<string>, t: Path)
    ensures t in Selected(f, closed, root, only, |BENCHES|) <==>
              exists bench :: bench in {"swe", "terminal-bench-2.0", "memory"} && (only == None || only == Some(bench))
                              && t in TracesUnder(f, closed, root + [bench, "trace"])
  {
    assert |BENCHES| == 3;
    forall n: nat | n < |BENCHES|
      ensures Selected(f, closed, root, only, n + 1)
              == Selected(f, closed, root, only, n) + (if Chosen(only, n) then TracesUnder(f, closed, TraceDir(root, n)) else {})
    {
    }
    assert Selected(f, closed, root, only, 0) == {};
    if t in Selected(f, closed, root, only, 3) {
      var n :| 0 <= n < 3 && Chosen(only, n) && t in TracesUnder(f, closed, TraceDir(root, n));
      assert BENCHES[n] in {"swe", "terminal-bench-2.0", "memory"};
    }
    forall bench | bench in {"swe", "terminal-bench-2.0", "memory"} && (only == None || only == Some(bench))
                   && t in TracesUnder(f, closed, root + [bench, "trace"])
      ensures t in Selected(f, closed, root, only, 3)
    {
      var n: nat := if bench == "swe" then 0 else if bench == "terminal-bench-2.0" then 1 else 2;
      assert BENCHES[n] == bench && Chosen(only, n);
    }
  }

  /** A row of the file names its tool under `name` and its calls under `count`. */
  lemma RowSpelt(rows: seq<Row>, i: nat)
    requires i < |rows|
    ensures RowsValue(rows).Array? && |RowsValue(rows).items| == |rows|
    ensures var v := RowsValue(rows).items[i];
            v.Object? && v.fields.Keys == {"name", "count"}
            && v.fields["name"] == Str(rows[i].0) && v.fields["count"] == Number(rows[i].1)
  {
  }
}
