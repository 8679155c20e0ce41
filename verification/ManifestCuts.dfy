/** A manifest write that stops half-way: what each cut of the text loads as, and which cuts do no harm. */
module ManifestCuts {
  import opened Lines
  import opened Ordering
  import opened SidecarManifest

  // ----- where a cut falls -----

  /** `k` whole lines and the part `q` of the next, without its newline. */
  datatype Cut = Cut(k: nat, q: string)

  function CutAt(ls: seq<string>, n: nat): Cut
    requires n <= |Terminated(ls)|
  {
    if ls == [] then Cut(0, "")
    else if n <= |ls[0]| then Cut(0, ls[0][..n])
    else
      var c := CutAt(ls[1..], n - |ls[0]| - 1);
      Cut(c.k + 1, c.q)
  }

  lemma {:induction false} CutIsPrefix(ls: seq<string>, n: nat)
    requires n <= |Terminated(ls)|
    ensures var c := CutAt(ls, n);
            && c.k <= |ls| && (if c.k < |ls| then c.q <= ls[c.k] else c.q == "")
            && Terminated(ls)[..n] == Terminated(ls[..c.k]) + c.q
            && (n + 1 >= |Terminated(ls)| <==> c.k == |ls| || (c.k + 1 == |ls| && c.q == ls[c.k]))
  {
    if ls != [] {
      var line, rest := ls[0] + ['\n'], Terminated(ls[1..]);
      var c := CutAt(ls, n);
      if n <= |ls[0]| {
        assert (line + rest)[..n] == ls[0][..n];
        assert Terminated(ls[..0]) + c.q == c.q;
        if |ls| > 1 { assert |Terminated(ls[1..])| >= 1; }
      } else {
        var m := n - |line|;
        CutIsPrefix(ls[1..], m);
        assert (line + rest)[..n] == line + rest[..m];
        assert ls[..c.k][0] == ls[0] && ls[..c.k][1..] == ls[1..][..c.k - 1];
        Assoc(line, Terminated(ls[1..][..c.k - 1]), c.q);
      }
    }
  }

  lemma FreeOneMore(ls: seq<string>, q: string)
    requires Free(ls, '\n') && '\n' !in q
    ensures Free(ls + [q], '\n')
  {
  }

  lemma {:induction false} TerminatedThenText(ls: seq<string>, q: string)
    ensures Terminated(ls) + q == Join(ls + [q], '\n')
  {
    if ls != [] {
      TerminatedThenText(ls[1..], q);
      assert (ls + [q])[1..] == ls[1..] + [q];
      Assoc(ls[0] + ['\n'], Terminated(ls[1..]), q);
    }
  }

  /** Reading a cut text: its whole lines, then the broken one if anything of it is there. */
  lemma {:induction false} LinesOfCut(ls: seq<string>, q: string)
    requires Free(ls, '\n') && '\n' !in q && forall i :: 0 <= i < |ls| ==> WithoutCr(ls[i]) == ls[i]
    ensures TextLines(Terminated(ls) + q) == ls + (if q == "" then [] else [q])
  {
    TerminatedThenText(ls, q);
    FreeOneMore(ls, q);
    SplitJoin(ls + [q], '\n');
    LinesOfPieces(ls, q);
  }

  // ----- one broken row -----

  /** A prefix reaching past a separator holds all before it and a prefix of the rest. */
  lemma PrefixPastSeparator(a: string, rest: string, q: string)
    requires q <= a + ['\t'] + rest
    ensures |q| <= |a| ==> q == a[..|q|]
    ensures |q| > |a| ==> q == a + ['\t'] + q[|a| + 1..] && q[|a| + 1..] <= rest
  {
    var all := a + ['\t'] + rest;
    assert q == all[..|q|];
    if |q| > |a| { assert all[|a| + 1..] == rest; }
  }

  lemma {:induction false} SplitOfPrefix(a: string, rest: string, q: string)
    requires '\t' !in a && q <= a + ['\t'] + rest
    ensures |q| <= |a| ==> q == a[..|q|] && Split(q, '\t') == [q]
    ensures |q| > |a| ==> q[|a| + 1..] <= rest && Split(q, '\t') == [a] + Split(q[|a| + 1..], '\t')
  {
    PrefixPastSeparator(a, rest, q);
    if |q| <= |a| {
      OnePiece(q, '\t');
    } else {
      SplitConcat(a, q[|a| + 1..], '\t');
      OnePiece(a, '\t');
    }
  }

  /** The text before the last field. */
  function Head(kind: string, a: string, b: string): string { kind + ['\t'] + a + ['\t'] + b + ['\t'] }

  lemma RowIsHeadAndField(kind: string, a: string, b: string, z: string)
    ensures Row([kind, a, b, z]) == kind + ['\t'] + (a + ['\t'] + (b + ['\t'] + z))
    ensures Row([kind, a, b, z]) == Head(kind, a, b) + z
  {
    var fs := [kind, a, b, z];
    assert fs[1..] == [a, b, z] && fs[1..][1..] == [b, z] && fs[1..][1..][1..] == [z];
    assert Join([b, z], '\t') == b + ['\t'] + z;
    assert Join([a, b, z], '\t') == a + ['\t'] + (b + ['\t'] + z);
    Assoc(a + ['\t'], b + ['\t'], z);
    Assoc(kind + ['\t'], a + ['\t'] + (b + ['\t']), z);
  }

  /** The fields behind one more in front. */
  lemma FieldShift(a: string, fs: seq<string>)
    ensures ([a] + fs)[0] == a
    ensures Field([a] + fs, 0) == a && Field([a] + fs, 1) == Field(fs, 0)
    ensures Field([a] + fs, 2) == Field(fs, 1) && Field([a] + fs, 3) == Field(fs, 2)
  {
  }

  lemma DropTwice(q: string, m: nat, n: nat)
    requires m + n <= |q|
    ensures q[m..][n..] == q[m + n..]
  {
  }

  lemma PrefixLacks(p: string, s: string, c: char)
    requires p <= s && c !in s
    ensures c !in p
  {
    assert p == s[..|p|];
  }

  /** The last two fields of a row, cut. */
  lemma {:induction false} BrokenPair(b: string, z: string, q: string)
    requires CleanField(b) && CleanField(z) && q <= b + ['\t'] + z
    ensures var f := Split(q, '\t');
            if |q| <= |b| + 1 then Field(f, 1) == ""
            else Field(f, 0) == b && Field(f, 1) == q[|b| + 1..]
  {
    SplitOfPrefix(b, z, q);
    if |q| > |b| {
      var tail := q[|b| + 1..];
      PrefixLacks(tail, z, '\t');
      OnePiece(tail, '\t');
      FieldShift(b, [tail]);
    }
  }

  /** The fields after the kind, cut: short of the last one, or with that one shortened. */
  lemma {:induction false} BrokenFields(a: string, b: string, z: string, q: string, h: nat)
    requires CleanField(a) && CleanField(b) && CleanField(z) && h == |a| + |b| + 2
    requires q <= a + ['\t'] + (b + ['\t'] + z)
    ensures var f := Split(q, '\t');
            if |q| <= h then Field(f, 2) == "" else Field(f, 0) == a && Field(f, 1) == b && Field(f, 2) == q[h..]
  {
    var rest := b + ['\t'] + z;
    SplitOfPrefix(a, rest, q);
    if |q| > |a| {
      var tail := q[|a| + 1..];
      BrokenPair(b, z, tail);
      FieldShift(a, Split(tail, '\t'));
      if |q| > h { DropTwice(q, |a| + 1, |b| + 1); }
    }
  }

  /** All four fields, `h` being the length of the text before the last. */
  lemma {:induction false} BrokenParts(kind: string, a: string, b: string, z: string, q: string, h: nat)
    requires '\t' !in kind && CleanField(a) && CleanField(b) && CleanField(z) && h == |kind| + |a| + |b| + 3
    requires q <= kind + ['\t'] + (a + ['\t'] + (b + ['\t'] + z)) && |q| > |kind|
    ensures var f := Split(q, '\t');
            && f[0] == kind
            && if |q| <= h then Field(f, 3) == "" else Field(f, 1) == a && Field(f, 2) == b && Field(f, 3) == q[h..]
  {
    var rest := a + ['\t'] + (b + ['\t'] + z);
    SplitOfPrefix(kind, rest, q);
    var tail := q[|kind| + 1..];
    BrokenFields(a, b, z, tail, |a| + |b| + 2);
    FieldShift(kind, Split(tail, '\t'));
    if |q| > h { DropTwice(q, |kind| + 1, |a| + |b| + 2); }
  }

  /**
   * A row cut inside its kind is one unknown word; from there up to its last field it lacks that
   * field; after that the last field is shortened.
   */
  lemma {:induction false} BrokenRow(kind: string, a: string, b: string, z: string, q: string)
    requires '\t' !in kind && CleanField(a) && CleanField(b) && CleanField(z) && q <= Row([kind, a, b, z])
    ensures var f := Split(q, '\t');
            if |q| < |kind| then f[0] == kind[..|q|]
            else if |q| <= |Head(kind, a, b)| then f[0] == kind && Field(f, 3) == ""
            else f[0] == kind && Field(f, 1) == a && Field(f, 2) == b && Field(f, 3) == q[|Head(kind, a, b)|..]
  {
    RowIsHeadAndField(kind, a, b, z);
    if |q| > |kind| {
      BrokenParts(kind, a, b, z, q, |Head(kind, a, b)|);
    } else {
      SplitOfPrefix(kind, a + ['\t'] + (b + ['\t'] + z), q);
      assert kind[..|kind|] == kind;
    }
  }

  // ----- which row is broken -----

  /** Line `k` of the manifest is row `j` of sidecar `i`; row 0 is the sidecar's own. */
  function Spot(ss: seq<Sidecar>, k: nat): (r: (nat, nat))
    requires k < |ManifestLines(ss)|
    ensures r.0 < |ss| && r.1 <= |ss[r.0].aux|
  {
    if k <= |ss[0].aux| then (0, k)
    else
      var (i, j) := Spot(ss[1..], k - |ss[0].aux| - 1);
      (i + 1, j)
  }

  lemma {:induction false} SpotIsThere(ss: seq<Sidecar>, k: nat)
    requires k < |ManifestLines(ss)|
    ensures var (i, j) := Spot(ss, k);
            && ManifestLines(ss)[..k] == ManifestLines(ss[..i]) + SidecarLines(ss[i])[..j]
            && ManifestLines(ss)[k] == SidecarLines(ss[i])[j]
            && (k + 1 == |ManifestLines(ss)| <==> i + 1 == |ss| && j == |ss[i].aux|)
  {
    var first, rest := SidecarLines(ss[0]), ManifestLines(ss[1..]);
    if k <= |ss[0].aux| {
      assert (first + rest)[..k] == first[..k] == ManifestLines(ss[..0]) + first[..k];
      assert |ss| > 1 ==> |rest| > 0;
    } else {
      var m := k - |first|;
      SpotIsThere(ss[1..], m);
      var (i, j) := Spot(ss[1..], m);
      assert (first + rest)[..k] == first + rest[..m];
      assert ss[..i + 1][0] == ss[0] && ss[..i + 1][1..] == ss[1..][..i];
      Assoc(first, ManifestLines(ss[1..][..i]), SidecarLines(ss[i + 1])[..j]);
    }
  }

  /** What the whole lines in front of row `j` of sidecar `i` stand for. */
  function Upto(ss: seq<Sidecar>, i: nat, j: nat): seq<Sidecar>
    requires i < |ss| && j <= |ss[i].aux|
  {
    if j == 0 then ss[..i] else ss[..i] + [ss[i].(aux := ss[i].aux[..j - 1])]
  }

  lemma {:induction false} UptoLines(ss: seq<Sidecar>, i: nat, j: nat)
    requires i < |ss| && j <= |ss[i].aux|
    ensures ManifestLines(Upto(ss, i, j)) == ManifestLines(ss[..i]) + SidecarLines(ss[i])[..j]
    ensures Writable(ss) ==> Writable(Upto(ss, i, j))
  {
    if j > 0 {
      var s := ss[i].(aux := ss[i].aux[..j - 1]);
      ManifestConcat(ss[..i], [s]);
      assert [s][1..] == [] && ManifestLines([s]) == SidecarLines(s) + [] == SidecarLines(s);
      assert SidecarLines(s) == SidecarLines(ss[i])[..j];
    } else {
      assert SidecarLines(ss[i])[..0] == [];
    }
  }

  /** The same with row `j` read as well, its last field shortened to `z`. */
  function UptoShort(ss: seq<Sidecar>, i: nat, j: nat, z: string): seq<Sidecar>
    requires i < |ss| && j <= |ss[i].aux|
  {
    if j == 0 then ss[..i] + [ss[i].(hash := z, aux := [])]
    else ss[..i] + [ss[i].(aux := ss[i].aux[..j - 1] + [AuxAsset(ss[i].aux[j - 1].name, z)])]
  }

  /** The file a row names. */
  function FileOf(ss: seq<Sidecar>, i: nat, j: nat, z: string): string
    requires i < |ss|
  {
    if j == 0 then BundleFile(ss[i].name) else z
  }

  lemma {:induction false} FiledLast(table: map<string, Sidecar>, ss: seq<Sidecar>, s: Sidecar)
    ensures Filed(table, ss + [s]) == Filed(table, ss)[s.name := s]
    decreases |ss|
  {
    if ss == [] {
      assert ss + [s] == [s] && [s][1..] == [];
    } else {
      assert (ss + [s])[0] == ss[0] && (ss + [s])[1..] == ss[1..] + [s];
      FiledLast(table[ss[0].name := ss[0]], ss[1..], s);
    }
  }

  function RowKind(j: nat): string { if j == 0 then "sidecar" else "aux" }

  /** The fields of row `j` of `s` with the last one shortened to `z`. */
  predicate RowReads(s: Sidecar, j: nat, z: string, f: seq<string>)
    requires j <= |s.aux|
  {
    && f != [] && f[0] == RowKind(j) && Field(f, 1) == s.name && Field(f, 3) == z
    && Field(f, 2) == if j == 0 then s.domain else s.aux[j - 1].name
  }

  /** Reading the shortened row on top of the whole lines. */
  lemma ShortRowFiles(ss: seq<Sidecar>, i: nat, j: nat, z: string, q: string, present: set<string>)
    requires Writable(ss) && i < |ss| && j <= |ss[i].aux| && z != ""
    requires RowReads(ss[i], j, z, Split(q, '\t'))
    ensures ParseLine(Filed(map[], Upto(ss, i, j)), q, present) ==
            if FileOf(ss, i, j, z) in present then Going(Filed(map[], UptoShort(ss, i, j, z))) else Stop(Miss)
  {
    var s, last := ss[i], UptoShort(ss, i, j, z)[i];
    FiledLast(map[], ss[..i], last);
    assert Clean(s);
    if j > 0 { FiledLast(map[], ss[..i], s.(aux := s.aux[..j - 1])); }
  }

  // ----- what a cut loads as -----

  /** What a cut does: nothing, refused by the parser, a shorter listing, or a shortened last field. */
  datatype Damage = Intact | Rejected | Shorter | Altered

  function RowHead(s: Sidecar, j: nat): string
    requires j <= |s.aux|
  {
    if j == 0 then Head("sidecar", s.name, s.domain) else Head("aux", s.name, s.aux[j - 1].name)
  }

  function Text(ss: seq<Sidecar>): string { Terminated(ManifestLines(ss)) }

  /** Decided by where the cut falls in its row: the kind, the fields before the last, or the last field. */
  function DamageOf(ss: seq<Sidecar>, n: nat): Damage
    requires n <= |Text(ss)|
  {
    var c := CutAt(ManifestLines(ss), n);
    if n + 1 >= |Text(ss)| || c.k >= |ManifestLines(ss)| then Intact
    else
      var (i, j) := Spot(ss, c.k);
      if |c.q| < |RowKind(j)| then Shorter
      else if |c.q| <= |RowHead(ss[i], j)| then Rejected
      else Altered
  }

  ghost predicate AllPresent(ss: seq<Sidecar>, present: set<string>) {
    forall i :: 0 <= i < |ss| ==> FilesPresent(ss[i], present)
  }

  /** The parser on the text cut after `n` characters. */
  ghost predicate LoadsCut(ss: seq<Sidecar>, n: nat, present: set<string>, r: Loaded) {
    n <= |Text(ss)| && Outcome(ParseLines(map[], TextLines(Text(ss)[..n]), present), r)
  }

  lemma CutLines(ss: seq<Sidecar>, n: nat)
    requires Writable(ss) && n <= |Text(ss)|
    ensures var (ls, c) := (ManifestLines(ss), CutAt(ManifestLines(ss), n));
            c.k <= |ls| && TextLines(Text(ss)[..n]) == ls[..c.k] + (if c.q == "" then [] else [c.q])
  {
    var ls, c := ManifestLines(ss), CutAt(ManifestLines(ss), n);
    CutIsPrefix(ls, n);
    ManifestLinesPlain(ss);
    if c.k < |ls| { PrefixLacks(c.q, ls[c.k], '\n'); }
    LinesOfCut(ls[..c.k], c.q);
  }

  lemma IntactLines(ss: seq<Sidecar>, n: nat)
    requires Writable(ss) && n <= |Text(ss)| && n + 1 >= |Text(ss)|
    ensures TextLines(Text(ss)[..n]) == ManifestLines(ss)
  {
    var ls, c := ManifestLines(ss), CutAt(ManifestLines(ss), n);
    CutLines(ss, n);
    CutIsPrefix(ls, n);
    if c.k == |ls| {
      assert ls[..c.k] == ls;
    } else {
      SpotIsThere(ss, c.k);
      assert c.q != "" && ls == ls[..c.k] + [c.q];
    }
  }

  lemma IntactLoads(ss: seq<Sidecar>, n: nat, present: set<string>, r: Loaded)
    requires Writable(ss) && LoadsCut(ss, n, present, r) && n + 1 >= |Text(ss)|
    ensures if AllPresent(ss, present) then r.Hit? && ByName(ss, r.sidecars) else r == Miss
  {
    IntactLines(ss, n);
    ManifestLinesReadBack(ss);
    ManifestRoundTrip(ss, present, r);
  }

  /** The broken row's fields. */
  lemma BrokenRowFields(ss: seq<Sidecar>, n: nat)
    requires Writable(ss) && n + 1 < |Text(ss)|
    ensures var c := CutAt(ManifestLines(ss), n);
            c.k < |ManifestLines(ss)| &&
            var (i, j) := Spot(ss, c.k);
            && c.q <= SidecarLines(ss[i])[j]
            && (DamageOf(ss, n).Shorter? ==> Split(c.q, '\t')[0] == RowKind(j)[..|c.q|] && |c.q| < |RowKind(j)|)
            && (DamageOf(ss, n).Rejected? ==> Split(c.q, '\t')[0] == RowKind(j) && Field(Split(c.q, '\t'), 3) == "")
            && (DamageOf(ss, n).Altered? ==>
                  && |c.q| > |RowHead(ss[i], j)|
                  && RowReads(ss[i], j, c.q[|RowHead(ss[i], j)|..], Split(c.q, '\t')))
  {
    var c := CutAt(ManifestLines(ss), n);
    CutIsPrefix(ManifestLines(ss), n);
    SpotIsThere(ss, c.k);
    var (i, j) := Spot(ss, c.k);
    var s := ss[i];
    assert Clean(s);
    if j == 0 {
      BrokenRow("sidecar", s.name, s.domain, s.hash, c.q);
    } else {
      assert SidecarLines(s)[j] == AuxLines(s.name, s.aux)[j - 1];
      BrokenRow("aux", s.name, s.aux[j - 1].name, s.aux[j - 1].zst, c.q);
    }
  }

  /** The row at which the text breaks off: sidecar, row within it, and what is left of it. */
  ghost function BreakOf(ss: seq<Sidecar>, n: nat): (r: (nat, nat, string))
    requires Writable(ss) && n + 1 < |Text(ss)|
    ensures r.0 < |ss| && r.1 <= |ss[r.0].aux|
  {
    BrokenRowFields(ss, n);
    var c := CutAt(ManifestLines(ss), n);
    var (i, j) := Spot(ss, c.k);
    (i, j, c.q)
  }

  /** The last field as the cut leaves it. */
  ghost function ShortField(ss: seq<Sidecar>, n: nat): string
    requires Writable(ss) && n + 1 < |Text(ss)|
  {
    var (i, j, q) := BreakOf(ss, n);
    if |RowHead(ss[i], j)| <= |q| then q[|RowHead(ss[i], j)|..] else ""
  }

  /** The broken row in a cut's own terms. */
  lemma BreakReads(ss: seq<Sidecar>, n: nat)
    requires Writable(ss) && n + 1 < |Text(ss)| && DamageOf(ss, n).Altered?
    ensures var (i, j, q) := BreakOf(ss, n);
            q != "" && ShortField(ss, n) != "" && RowReads(ss[i], j, ShortField(ss, n), Split(q, '\t'))
  {
    BrokenRowFields(ss, n);
  }

  /** The whole lines are the manifest of what they stand for. */
  lemma {:induction false} CutIsUptoAndBreak(ss: seq<Sidecar>, n: nat)
    requires Writable(ss) && n + 1 < |Text(ss)|
    ensures var (i, j, q) := BreakOf(ss, n);
            && TextLines(Text(ss)[..n]) == ManifestLines(Upto(ss, i, j)) + (if q == "" then [] else [q])
            && Writable(Upto(ss, i, j))
  {
    CutLines(ss, n);
    BrokenRowFields(ss, n);
    var c := CutAt(ManifestLines(ss), n);
    SpotIsThere(ss, c.k);
    var (i, j) := Spot(ss, c.k);
    UptoLines(ss, i, j);
  }

  lemma OneLine(table: map<string, Sidecar>, q: string, present: set<string>)
    ensures ParseLines(table, [q], present) == ParseLine(table, q, present)
  {
    assert [q][1..] == [];
  }

  /** Parsing stops at an absent file, or comes to the broken row with what the whole lines stand for. */
  lemma ParseUpto(x: seq<Sidecar>, q: string, present: set<string>)
    requires Writable(x)
    ensures ParseLines(map[], ManifestLines(x) + (if q == "" then [] else [q]), present) ==
            if !AllPresent(x, present) then Stop(Miss)
            else if q == "" then Going(Filed(map[], x))
            else ParseLine(Filed(map[], x), q, present)
  {
    var tail := if q == "" then [] else [q];
    ParseConcat(map[], ManifestLines(x), tail, present);
    ParseManifest(map[], x, present);
    if q != "" { OneLine(Filed(map[], x), q, present); }
  }

  lemma FiledLoads(x: seq<Sidecar>, r: Loaded)
    requires forall i, j :: 0 <= i < j < |x| ==> x[i].name != x[j].name
    requires Outcome(Going(Filed(map[], x)), r)
    ensures r.Hit? && ByName(x, r.sidecars)
  {
    FiledDistinct(map[], x);
    InOrderIsRearranged(Filed(map[], x), x, r.sidecars);
  }

  lemma UnknownWord(table: map<string, Sidecar>, j: nat, q: string, present: set<string>)
    requires |q| < |RowKind(j)| && Split(q, '\t')[0] == RowKind(j)[..|q|]
    ensures ParseLine(table, q, present) == Going(table)
  {
    assert RowKind(j)[..|q|] != "sidecar";
    assert j == 0 && |q| == 3 ==> "sidecar"[..3][0] == 's';
  }

  /** Cut inside the kind of a row: only the whole lines count. */
  lemma ShorterLoads(ss: seq<Sidecar>, n: nat, present: set<string>, r: Loaded)
    requires Writable(ss) && LoadsCut(ss, n, present, r) && n + 1 < |Text(ss)| && DamageOf(ss, n).Shorter?
    ensures var (i, j, q) := BreakOf(ss, n);
            if AllPresent(Upto(ss, i, j), present) then r.Hit? && ByName(Upto(ss, i, j), r.sidecars) else r == Miss
  {
    var (i, j, q) := BreakOf(ss, n);
    BrokenRowFields(ss, n);
    CutIsUptoAndBreak(ss, n);
    ParseUpto(Upto(ss, i, j), q, present);
    if AllPresent(Upto(ss, i, j), present) {
      UnknownWord(Filed(map[], Upto(ss, i, j)), j, q, present);
      FiledLoads(Upto(ss, i, j), r);
    }
  }

  /** Cut between the kind and the last field: never a hit. */
  lemma RejectedLoads(ss: seq<Sidecar>, n: nat, present: set<string>, r: Loaded)
    requires Writable(ss) && LoadsCut(ss, n, present, r) && n + 1 < |Text(ss)| && DamageOf(ss, n).Rejected?
    ensures var (i, j, q) := BreakOf(ss, n);
            if !AllPresent(Upto(ss, i, j), present) then r == Miss else if j == 0 then r == BadSidecar else r == BadAux
    ensures !r.Hit?
  {
    var (i, j, q) := BreakOf(ss, n);
    BrokenRowFields(ss, n);
    CutIsUptoAndBreak(ss, n);
    ParseUpto(Upto(ss, i, j), q, present);
  }

  lemma UptoShortNames(ss: seq<Sidecar>, i: nat, j: nat, z: string)
    requires Writable(ss) && i < |ss| && j <= |ss[i].aux|
    ensures var x := UptoShort(ss, i, j, z); forall a, b :: 0 <= a < b < |x| ==> x[a].name != x[b].name
  {
  }

  /** Cut inside the last field: the row counts, with that field shortened. */
  lemma AlteredLoads(ss: seq<Sidecar>, n: nat, present: set<string>, r: Loaded)
    requires Writable(ss) && LoadsCut(ss, n, present, r) && n + 1 < |Text(ss)| && DamageOf(ss, n).Altered?
    ensures var (i, j, q) := BreakOf(ss, n);
            var z := ShortField(ss, n);
            if AllPresent(Upto(ss, i, j), present) && FileOf(ss, i, j, z) in present
            then r.Hit? && ByName(UptoShort(ss, i, j, z), r.sidecars) else r == Miss
  {
    var (i, j, q) := BreakOf(ss, n);
    var z := ShortField(ss, n);
    BreakReads(ss, n);
    CutIsUptoAndBreak(ss, n);
    ParseUpto(Upto(ss, i, j), q, present);
    ShortRowFiles(ss, i, j, z, q, present);
    if AllPresent(Upto(ss, i, j), present) && FileOf(ss, i, j, z) in present {
      UptoShortNames(ss, i, j, z);
      FiledLoads(UptoShort(ss, i, j, z), r);
    }
  }

  // ----- which cuts do harm -----

  /** Whatever files are there, the text loads as exactly `ss`, or not at all. */
  ghost predicate Serves(raw: string, ss: seq<Sidecar>) {
    forall present: set<string>, r: Loaded ::
      Outcome(ParseLines(map[], TextLines(raw), present), r) && r.Hit? ==> ByName(ss, r.sidecars)
  }

  /** A tree map always has its values in key order. */
  lemma OrderExists(table: map<string, Sidecar>) returns (out: seq<Sidecar>)
    requires Keyed(table)
    ensures InKeyOrder(table, out)
  {
    StringsAreOrdered();
    InOrderArranges(STRING_LE, table.Keys);
    ValuesAreInOrder(table, InOrder(STRING_LE, table.Keys));
    out := ValuesOf(table, InOrder(STRING_LE, table.Keys));
  }

  lemma {:induction false} FiledKeyed(table: map<string, Sidecar>, ss: seq<Sidecar>)
    requires Keyed(table)
    ensures Keyed(Filed(table, ss))
    decreases |ss|
  {
    if ss != [] { FiledKeyed(table[ss[0].name := ss[0]], ss[1..]); }
  }

  /** A listing that lost a row, or the end of one, is no rearrangement of the whole. */
  lemma UptoIsLess(ss: seq<Sidecar>, i: nat, j: nat, x: seq<Sidecar>)
    requires Writable(ss) && i < |ss| && j <= |ss[i].aux| && |x| <= i + 1
    requires |x| == i + 1 ==> x[i].name == ss[i].name && x[i] != ss[i]
    ensures multiset(x) != multiset(ss)
  {
    assert |multiset(x)| == |x| && |multiset(ss)| == |ss|;
    if |x| == i + 1 {
      forall k | 0 <= k < |ss| ensures ss[k] != x[i] {}
      assert x[i] in multiset(x) && x[i] !in multiset(ss);
    }
  }

  function LastField(s: Sidecar, j: nat): string
    requires j <= |s.aux|
  {
    if j == 0 then s.hash else s.aux[j - 1].zst
  }

  lemma RowIsHeadAndLast(s: Sidecar, j: nat)
    requires j <= |s.aux|
    ensures SidecarLines(s)[j] == RowHead(s, j) + LastField(s, j)
  {
    if j == 0 {
      RowIsHeadAndField("sidecar", s.name, s.domain, s.hash);
    } else {
      RowIsHeadAndField("aux", s.name, s.aux[j - 1].name, s.aux[j - 1].zst);
    }
  }

  lemma PrefixPastHead(head: string, last: string, q: string)
    requires q <= head + last && |q| >= |head|
    ensures q == head + q[|head|..]
  {
    assert q == (head + last)[..|q|];
    assert q[..|head|] == head;
  }

  /** A row cut in its last field is its head and what is left of that field. */
  lemma BreakIsHeadAndField(ss: seq<Sidecar>, n: nat)
    requires Writable(ss) && n + 1 < |Text(ss)| && DamageOf(ss, n).Altered?
    ensures var (i, j, q) := BreakOf(ss, n); q == RowHead(ss[i], j) + ShortField(ss, n)
  {
    var (i, j, q) := BreakOf(ss, n);
    BrokenRowFields(ss, n);
    RowIsHeadAndLast(ss[i], j);
    PrefixPastHead(RowHead(ss[i], j), LastField(ss[i], j), q);
  }

  /** A break in the last row of all is not the whole row. */
  lemma BreakIsNotWhole(ss: seq<Sidecar>, n: nat)
    requires Writable(ss) && n + 1 < |Text(ss)|
    ensures var (i, j, q) := BreakOf(ss, n);
            i + 1 == |ss| && j == |ss[i].aux| ==> q != SidecarLines(ss[i])[j]
  {
    var c := CutAt(ManifestLines(ss), n);
    CutIsPrefix(ManifestLines(ss), n);
    SpotIsThere(ss, c.k);
  }

  lemma AlteredIsDifferent(ss: seq<Sidecar>, n: nat)
    requires Writable(ss) && n + 1 < |Text(ss)| && DamageOf(ss, n).Altered?
    ensures var (i, j, q) := BreakOf(ss, n);
            i + 1 == |ss| ==> UptoShort(ss, i, j, ShortField(ss, n))[i] != ss[i]
  {
    var (i, j, q) := BreakOf(ss, n);
    BreakIsNotWhole(ss, n);
    BreakIsHeadAndField(ss, n);
    RowIsHeadAndLast(ss[i], j);
    var s, z := ss[i], ShortField(ss, n);
    if j > 0 { assert (s.aux[..j - 1] + [AuxAsset(s.aux[j - 1].name, z)])[j - 1].zst == z; }
  }

  /** A parse that ends well can be reported as a hit. */
  lemma {:induction false} HitExists(x: seq<Sidecar>) returns (r: Loaded)
    requires forall i, j :: 0 <= i < j < |x| ==> x[i].name != x[j].name
    ensures Outcome(Going(Filed(map[], x)), r) && r.Hit? && ByName(x, r.sidecars)
  {
    FiledKeyed(map[], x);
    var out := OrderExists(Filed(map[], x));
    r := Hit(out);
    FiledLoads(x, r);
  }

  /** Every file a listing names. */
  ghost function FilesOf(x: seq<Sidecar>): set<string> {
    (set i | 0 <= i < |x| :: x[i].zst) + (set i, k | 0 <= i < |x| && 0 <= k < |x[i].aux| :: x[i].aux[k].zst)
  }

  /** The listing a harmful cut stands for. */
  ghost function Damaged(ss: seq<Sidecar>, n: nat): seq<Sidecar>
    requires Writable(ss) && n + 1 < |Text(ss)|
  {
    var (i, j, q) := BreakOf(ss, n);
    if DamageOf(ss, n).Shorter? then Upto(ss, i, j) else UptoShort(ss, i, j, ShortField(ss, n))
  }

  lemma {:induction false} DamagedIsWrong(ss: seq<Sidecar>, n: nat)
    requires Writable(ss) && n + 1 < |Text(ss)| && DamageOf(ss, n) in {Shorter, Altered}
    ensures multiset(Damaged(ss, n)) != multiset(ss)
    ensures forall a, b :: 0 <= a < b < |Damaged(ss, n)| ==> Damaged(ss, n)[a].name != Damaged(ss, n)[b].name
  {
    var (i, j, q) := BreakOf(ss, n);
    if DamageOf(ss, n).Altered? && i + 1 == |ss| { AlteredIsDifferent(ss, n); }
    if i + 1 < |ss| {
      assert |multiset(Damaged(ss, n))| == |Damaged(ss, n)| <= i + 1 < |multiset(ss)| == |ss|;
    } else {
      UptoIsLess(ss, i, j, Damaged(ss, n));
    }
  }

  /** With the right files there, a harmful cut is served. */
  lemma HarmfulCutHits(ss: seq<Sidecar>, n: nat) returns (present: set<string>, r: Loaded)
    requires Writable(ss) && n + 1 < |Text(ss)| && DamageOf(ss, n) in {Shorter, Altered}
    ensures LoadsCut(ss, n, present, r) && r.Hit? && !ByName(ss, r.sidecars)
  {
    var (i, j, q) := BreakOf(ss, n);
    var z := ShortField(ss, n);
    present := FilesOf(Upto(ss, i, j)) + {FileOf(ss, i, j, z)};
    assert AllPresent(Upto(ss, i, j), present);
    BrokenRowFields(ss, n);
    CutIsUptoAndBreak(ss, n);
    ParseUpto(Upto(ss, i, j), q, present);
    DamagedIsWrong(ss, n);
    if DamageOf(ss, n).Shorter? {
      UnknownWord(Filed(map[], Upto(ss, i, j)), j, q, present);
    } else {
      ShortRowFiles(ss, i, j, z, q, present);
    }
    r := HitExists(Damaged(ss, n));
  }

  predicate Harmless(ss: seq<Sidecar>, n: nat)
    requires n <= |Text(ss)|
  {
    DamageOf(ss, n) in {Intact, Rejected}
  }

  lemma CutBreaks(ss: seq<Sidecar>, n: nat)
    requires Writable(ss) && n + 1 < |Text(ss)|
    ensures DamageOf(ss, n) != Intact
  {
    CutIsPrefix(ManifestLines(ss), n);
  }

  /**
   * A manifest cut after `n` characters can only be served as what was written exactly when the
   * cut lost at most the final newline, or fell behind a row's kind and before its last field.
   */
  lemma CutServesIff(ss: seq<Sidecar>, n: nat)
    requires Writable(ss) && n <= |Text(ss)|
    ensures Serves(Text(ss)[..n], ss) <==> Harmless(ss, n)
  {
    if n + 1 >= |Text(ss)| {
      forall present, r | Outcome(ParseLines(map[], TextLines(Text(ss)[..n]), present), r) && r.Hit? ensures ByName(ss, r.sidecars) {
        IntactLoads(ss, n, present, r);
      }
    } else if DamageOf(ss, n) in {Shorter, Altered} {
      var present, r := HarmfulCutHits(ss, n);
    } else {
      CutBreaks(ss, n);
      forall present, r | Outcome(ParseLines(map[], TextLines(Text(ss)[..n]), present), r) ensures !r.Hit? {
        RejectedLoads(ss, n, present, r);
      }
    }
  }

  lemma TruncationIsHarmful(ss: seq<Sidecar>)
    requires Writable(ss) && ss != []
    ensures |Text(ss)| > 1 && !Harmless(ss, 0)
  {
    RowIsHeadAndField("sidecar", ss[0].name, ss[0].domain, ss[0].hash);
    assert |ManifestLines(ss)[0]| > 0;
  }

  /** A write cut right after the file was truncated leaves an empty manifest, served as no sidecars at all. */
  lemma {:induction false} EmptyManifestIsServed(ss: seq<Sidecar>, present: set<string>, r: Loaded)
    requires Writable(ss) && ss != [] && LoadsCut(ss, 0, present, r)
    ensures !Harmless(ss, 0) && r == Hit([])
  {
    TruncationIsHarmful(ss);
    assert Text(ss)[..0] == "";
    assert Split("", '\n') == [""];
    LinesOfPieces([], "");
    assert [] + [""] == [""];
  }
}
