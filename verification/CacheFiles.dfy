/** The files of one cache directory: how they are named and written, and when they hold what was hashed. */
module CacheFiles {
  import opened Wrappers
  import opened Lines
  import opened SidecarManifest

  // ----- names -----

  function Digit(d: nat): char
    requires d < 10
  {
    '0' + d as char
  }

  function Decimal(n: nat): string { (if n < 10 then "" else Decimal(n / 10)) + [Digit(n % 10)] }

  predicate FileNameChar(c: char) {
    'a' <= c <= 'z' || 'A' <= c <= 'Z' || '0' <= c <= '9' || c in ".-_"
  }

  function SanitizedFilename(name: string): string {
    seq(|name|, i requires 0 <= i < |name| => if FileNameChar(name[i]) then name[i] else '_')
  }

  /** Letters, digits, `.`, `-` and `_` stay; anything else becomes `_`. */
  lemma SanitizedMeans(name: string, i: nat)
    requires i < |name|
    ensures |SanitizedFilename(name)| == |name|
    ensures SanitizedFilename(name)[i]
            == if name[i] in "abcdefghijklmnopqrstuvwxyz" || name[i] in "ABCDEFGHIJKLMNOPQRSTUVWXYZ"
                  || name[i] in "0123456789" || name[i] in ".-_" then name[i] else '_'
  {
  }

  function AuxFile(sidecar: string, idx: nat, aux: string): string {
    sidecar + ".aux." + Decimal(idx) + "." + SanitizedFilename(aux) + ".zst"
  }

  predicate Digits(s: string) { s != "" && forall i :: 0 <= i < |s| ==> '0' <= s[i] <= '9' }

  lemma {:induction false} DecimalIsDigits(n: nat)
    ensures Digits(Decimal(n))
  {
    if n >= 10 { DecimalIsDigits(n / 10); }
  }

  lemma {:induction false} DecimalIsInjective(m: nat, n: nat)
    requires Decimal(m) == Decimal(n)
    ensures m == n
  {
    DecimalIsDigits(m / 10);
    DecimalIsDigits(n / 10);
    var d, e := Decimal(m), Decimal(n);
    assert d[|d| - 1] == Digit(m % 10) && e[|e| - 1] == Digit(n % 10);
    assert d[..|d| - 1] == (if m < 10 then "" else Decimal(m / 10));
    assert e[..|e| - 1] == (if n < 10 then "" else Decimal(n / 10));
    if m >= 10 && n >= 10 { DecimalIsInjective(m / 10, n / 10); }
  }

  /** Generated aux file names are legal manifest fields whatever the asset is called. */
  lemma AuxFileIsClean(sidecar: string, idx: nat, aux: string)
    requires CleanField(sidecar)
    ensures CleanField(AuxFile(sidecar, idx, aux)) && WithoutCr(AuxFile(sidecar, idx, aux)) == AuxFile(sidecar, idx, aux)
  {
    DecimalIsDigits(idx);
    var f := AuxFile(sidecar, idx, aux);
    assert f[|f| - 1] == 't';
    assert '\t' !in SanitizedFilename(aux) && '\n' !in SanitizedFilename(aux);
  }

  // ----- which sidecars can name the same file -----

  /** What follows the sidecar's name in one of its file names. */
  function BundleTail(): string { ".mjs.zst" }

  function AuxTail(idx: nat, aux: string): string { ".aux." + Decimal(idx) + "." + SanitizedFilename(aux) + ".zst" }

  ghost predicate Tail(w: string) { w == BundleTail() || exists k: nat, x :: w == AuxTail(k, x) }

  lemma AuxFileTail(s: string, k: nat, x: string)
    ensures AuxFile(s, k, x) == s + AuxTail(k, x) && BundleFile(s) == s + BundleTail()
  {
  }

  ghost predicate FileOfSidecar(s: string, f: string) { exists w :: Tail(w) && f == s + w }

  predicate NameTail(z: string) {
    z == "" || (z[0] == '.' && forall i :: 0 <= i < |z| ==> FileNameChar(z[i]))
  }

  /** The second name continues the first as its aux files do. */
  ghost predicate Shadows(s: string, t: string) {
    exists k: nat, z :: t == s + ".aux." + Decimal(k) + z && NameTail(z)
  }

  /** A digit run is as long as the text lets it be. */
  lemma DigitRunsMatch(d: string, e: string, x: string, y: string)
    requires Digits(d) && Digits(e) && d + "." + x == e + "." + y
    ensures d == e && x == y
  {
    var all := d + "." + x;
    assert all[|d|] == '.' && all[|e|] == '.';
    assert (forall i :: 0 <= i < |d| ==> all[i] == d[i]) && forall i :: 0 <= i < |e| ==> all[i] == e[i];
    assert all[..|d|] == d && all[..|e|] == e;
    assert all[|d| + 1..] == x && all[|e| + 1..] == y;
  }

  lemma BehindAux(k: nat, x: string)
    ensures AuxTail(k, x)[5..] == Decimal(k) + "." + (SanitizedFilename(x) + ".zst")
  {
    assert AuxTail(k, x) == ".aux." + (Decimal(k) + "." + (SanitizedFilename(x) + ".zst"));
  }

  lemma AuxTailsMatch(k: nat, x: string, j: nat, y: string)
    requires AuxTail(k, x) == AuxTail(j, y)
    ensures k == j
  {
    DecimalIsDigits(k);
    DecimalIsDigits(j);
    var x', y' := SanitizedFilename(x) + ".zst", SanitizedFilename(y) + ".zst";
    BehindAux(k, x);
    BehindAux(j, y);
    DigitRunsMatch(Decimal(k), Decimal(j), x', y');
    DecimalIsInjective(k, j);
  }

  lemma BundleIsNoAux(k: nat, x: string)
    ensures AuxTail(k, x) != BundleTail()
  {
    assert AuxTail(k, x)[1] == 'a' && BundleTail()[1] == 'm';
  }

  /** A tail inside an aux tail starts behind the digits. */
  lemma TailInAuxTail(r: string, w: string, k: nat, x: string)
    requires Tail(w) && r != "" && r + w == AuxTail(k, x)
    ensures |r| >= 5 + |Decimal(k)|
  {
    DecimalIsDigits(k);
    var all := AuxTail(k, x);
    assert all[|r|] == w[0] && all[|r| + 1] == w[1];
    assert w[0] == '.' && w[1] in "ma";
    assert all[1] == 'a' && all[2] == 'u' && all[3] == 'x';
    assert forall j :: 5 <= j < 5 + |Decimal(k)| ==> all[j] == Decimal(k)[j - 5];
  }

  lemma LongerHalf(r: string, w: string, head: string, rest: string) returns (z: string)
    requires r + w == head + rest && |r| >= |head|
    ensures r == head + z && z <= rest
  {
    z := r[|head|..];
    assert r == (r + w)[..|r|] && (head + rest)[..|head|] == head;
    assert z == (head + rest)[|head|..|r|];
  }

  lemma AuxRestIsName(x: string)
    ensures forall i :: 0 <= i < |"." + SanitizedFilename(x) + ".zst"| ==> FileNameChar(("." + SanitizedFilename(x) + ".zst")[i])
  {
    assert forall i :: 0 <= i < |SanitizedFilename(x)| ==> FileNameChar(SanitizedFilename(x)[i]);
    assert forall i :: 0 <= i < |".zst"| ==> FileNameChar(".zst"[i]);
  }

  lemma CutTail(r: string, w: string, k: nat, x: string) returns (z: string)
    requires Tail(w) && r != "" && r + w == AuxTail(k, x)
    ensures r == ".aux." + Decimal(k) + z && NameTail(z)
  {
    TailInAuxTail(r, w, k, x);
    var head, rest := ".aux." + Decimal(k), "." + SanitizedFilename(x) + ".zst";
    assert AuxTail(k, x) == head + rest;
    AuxRestIsName(x);
    z := LongerHalf(r, w, head, rest);
    assert z != "" ==> z[0] == rest[0];
  }

  lemma RegroupName(s: string, a: string, d: string, z: string)
    ensures s + (a + d + z) == s + a + d + z
  {
  }

  lemma SameFileShadows(s: string, w: string, t: string, v: string)
    requires Tail(w) && Tail(v) && s + w == t + v && |s| < |t|
    ensures Shadows(s, t)
  {
    var r := t[|s|..];
    assert (s + w)[..|s|] == s && (t + v)[..|s|] == t[..|s|];
    assert t == s + r;
    assert (s + w)[|s|..] == w && (t + v)[|s|..] == r + v;
    assert |v| >= |BundleTail()|;
    assert |w| == |r| + |v|;
    var k: nat, x :| w == AuxTail(k, x);
    var z := CutTail(r, v, k, x);
    RegroupName(s, ".aux.", Decimal(k), z);
  }

  lemma Sanitized(x: string)
    requires forall i :: 0 <= i < |x| ==> FileNameChar(x[i])
    ensures SanitizedFilename(x) == x
  {
  }

  /** The aux asset whose file continues a name as the bundle's does. */
  lemma AuxNamed(z: string) returns (x: string)
    requires NameTail(z)
    ensures SanitizedFilename(x) == x && z + ".mjs" == "." + x
  {
    var rest := z + ".mjs";
    x := rest[1..];
    assert forall i :: 0 <= i < |".mjs"| ==> FileNameChar(".mjs"[i]);
    assert rest[0] == '.';
    Sanitized(x);
  }

  lemma RegroupFile(s: string, a: string, d: string, z: string, m: string, x: string, q: string)
    requires z + m == "." + x
    ensures s + a + d + z + (m + q) == s + (a + d + "." + x + q)
  {
    assert s + a + d + z + (m + q) == s + a + d + (z + m) + q;
  }

  /** A bundle of a shadowed name is an aux file of the shadowing one. */
  lemma ShadowedShares(s: string, t: string)
    requires Shadows(s, t)
    ensures FileOfSidecar(s, BundleFile(t)) && FileOfSidecar(t, BundleFile(t))
  {
    var k: nat, z :| t == s + ".aux." + Decimal(k) + z && NameTail(z);
    var x := AuxNamed(z);
    RegroupFile(s, ".aux.", Decimal(k), z, ".mjs", x, ".zst");
    assert ".mjs" + ".zst" == BundleTail();
    assert Tail(AuxTail(k, x)) && Tail(BundleTail());
  }

  /** Two sidecars of different names can have a cache file in common exactly when one name shadows the other. */
  lemma FilesCollideIff(s: string, t: string)
    requires s != t
    ensures (exists f :: FileOfSidecar(s, f) && FileOfSidecar(t, f)) <==> Shadows(s, t) || Shadows(t, s)
  {
    if f :| FileOfSidecar(s, f) && FileOfSidecar(t, f) {
      var w :| Tail(w) && f == s + w;
      var v :| Tail(v) && f == t + v;
      assert f[..|s|] == s && f[..|t|] == t;
      if |s| < |t| { SameFileShadows(s, w, t, v); }
      if |t| < |s| { SameFileShadows(t, v, s, w); }
    }
    if Shadows(s, t) { ShadowedShares(s, t); }
    if Shadows(t, s) { ShadowedShares(t, s); }
  }

  // ----- writing -----

  /** How writing a file ends; a write that stops half-way leaves its first `at` characters. */
  datatype FileWrite = WriteWhole | WriteRefused | WriteCut(at: nat)

  /** The characters a cut write leaves of `size`, at most all of them. */
  function Kept(size: nat, at: nat): (n: nat)
    ensures n <= size
  {
    if at <= size then at else size
  }

  datatype Put = Put(file: string, bytes: string, write: FileWrite)
  {
    /** What stands in the file because of it. */
    function Left(): Option<string> {
      match write
      case WriteWhole => Some(bytes)
      case WriteRefused => None
      case WriteCut(at) => Some(bytes[..Kept(|bytes|, at)])
    }
  }

  function After(dir: map<string, string>, p: Put): map<string, string> {
    if p.Left().Some? then dir[p.file := p.Left().value] else dir
  }

  function AfterAll(dir: map<string, string>, ps: seq<Put>): map<string, string>
    decreases |ps|
  {
    if ps == [] then dir else AfterAll(After(dir, ps[0]), ps[1..])
  }

  /** The writes made when the first that does not end well is the last. */
  function UpToFailure(ps: seq<Put>): seq<Put> {
    if ps == [] then []
    else if ps[0].write.WriteWhole? then [ps[0]] + UpToFailure(ps[1..])
    else [ps[0]]
  }

  predicate AllWhole(ps: seq<Put>) { forall i :: 0 <= i < |ps| ==> ps[i].write.WriteWhole? }

  lemma {:induction false} AfterConcat(dir: map<string, string>, ps: seq<Put>, qs: seq<Put>)
    ensures AfterAll(dir, ps + qs) == AfterAll(AfterAll(dir, ps), qs)
    decreases |ps|
  {
    if ps == [] {
      assert ps + qs == qs;
    } else {
      assert (ps + qs)[1..] == ps[1..] + qs;
      AfterConcat(After(dir, ps[0]), ps[1..], qs);
    }
  }

  lemma AfterOneMore(dir: map<string, string>, ps: seq<Put>, p: Put)
    ensures AfterAll(dir, ps + [p]) == After(AfterAll(dir, ps), p)
  {
    AfterConcat(dir, ps, [p]);
    assert [p][1..] == [];
  }

  /** The first `n` writes end well: they are made, and so is the next. */
  lemma {:induction false} FailureAt(ps: seq<Put>, n: nat)
    requires n <= |ps| && AllWhole(ps[..n])
    ensures n == |ps| ==> UpToFailure(ps) == ps
    ensures n < |ps| && !ps[n].write.WriteWhole? ==> UpToFailure(ps) == ps[..n + 1]
  {
    if n > 0 {
      assert ps[..n][0] == ps[0] && ps[1..][..n - 1] == ps[..n][1..];
      FailureAt(ps[1..], n - 1);
      assert ps == [ps[0]] + ps[1..];
      assert n < |ps| ==> ps[..n + 1] == [ps[0]] + ps[1..][..n];
    }
  }

  // ----- when the files hold what was hashed -----

  /**
   * One cache directory and, for the record, what each file its manifest names was taken to
   * hold when its sidecar was hashed.
   */
  datatype Held = Held(dir: map<string, string>, hashed: set<(string, string)>)

  /** No file the manifest names holds anything else. */
  ghost predicate Genuine(h: Held) {
    forall f, b :: (f, b) in h.hashed && f in h.dir ==> h.dir[f] == b
  }

  datatype DirEvent =
    | Removed(files: set<string>)
    | Stopped(puts: seq<Put>)       // a run whose manifest was not written
    | Listed(puts: seq<Put>)        // one whose manifest was

  function Recorded(ps: seq<Put>): set<(string, string)> { set p | p in ps :: (p.file, p.bytes) }

  ghost predicate Happens(e: DirEvent, h: Held, h': Held) {
    match e
    case Removed(fs) => h' == Held(h.dir - fs, h.hashed)
    case Stopped(ps) => h' == Held(AfterAll(h.dir, ps), h.hashed)
    case Listed(ps) => AllWhole(ps) && h' == Held(AfterAll(h.dir, ps), Recorded(ps))
  }

  /** What the last write that reached the file left in it. */
  function LastTo(ps: seq<Put>, f: string): Option<string> {
    if ps == [] then None
    else if LastTo(ps[1..], f).Some? then LastTo(ps[1..], f)
    else if ps[0].file == f then ps[0].Left()
    else None
  }

  lemma {:induction false} AfterAllAt(dir: map<string, string>, ps: seq<Put>, f: string)
    ensures f in AfterAll(dir, ps) <==> f in dir || LastTo(ps, f).Some?
    ensures LastTo(ps, f).Some? ==> AfterAll(dir, ps)[f] == LastTo(ps, f).value
    ensures f in dir && LastTo(ps, f).None? ==> AfterAll(dir, ps)[f] == dir[f]
    decreases |ps|
  {
    if ps != [] { AfterAllAt(After(dir, ps[0]), ps[1..], f); }
  }

  /** Every write to one file is of the same bytes. */
  predicate Consistent(ps: seq<Put>) {
    forall i, j :: 0 <= i < |ps| && 0 <= j < |ps| && ps[i].file == ps[j].file ==> ps[i].bytes == ps[j].bytes
  }

  /** Each listed file a stopped run wrote ends up as listed; a listing run wrote no file in two ways. */
  ghost predicate HarmlessEvent(e: DirEvent, hashed: set<(string, string)>) {
    match e
    case Removed(_) => true
    case Stopped(ps) => forall f, b :: (f, b) in hashed ==> LastTo(ps, f) in {None, Some(b)}
    case Listed(ps) => Consistent(ps)
  }

  lemma {:induction false} LastIsOneOf(ps: seq<Put>, f: string)
    requires AllWhole(ps)
    ensures LastTo(ps, f).Some? ==> exists i :: 0 <= i < |ps| && ps[i].file == f && LastTo(ps, f) == Some(ps[i].bytes)
    ensures LastTo(ps, f).None? ==> forall i :: 0 <= i < |ps| ==> ps[i].file != f
  {
    if ps != [] {
      LastIsOneOf(ps[1..], f);
      if i :| 0 <= i < |ps[1..]| && ps[1..][i].file == f && LastTo(ps[1..], f) == Some(ps[1..][i].bytes) {
        assert ps[i + 1] == ps[1..][i];
      }
      forall i | LastTo(ps, f).None? && 0 <= i < |ps| ensures ps[i].file != f {
        if i > 0 { assert ps[1..][i - 1] == ps[i]; }
      }
    }
  }

  lemma WholeLeavesOne(dir: map<string, string>, ps: seq<Put>, i: nat)
    requires AllWhole(ps) && i < |ps|
    ensures ps[i].file in AfterAll(dir, ps) && (ps[i].file, ps[i].bytes) in Recorded(ps)
    ensures exists j :: 0 <= j < |ps| && ps[j].file == ps[i].file && AfterAll(dir, ps)[ps[i].file] == ps[j].bytes
  {
    LastIsOneOf(ps, ps[i].file);
    AfterAllAt(dir, ps, ps[i].file);
  }

  lemma ConsistentIsGenuine(dir: map<string, string>, ps: seq<Put>)
    requires AllWhole(ps) && Consistent(ps)
    ensures Genuine(Held(AfterAll(dir, ps), Recorded(ps)))
  {
    forall f, b | (f, b) in Recorded(ps) && f in AfterAll(dir, ps) ensures AfterAll(dir, ps)[f] == b {
      var i :| 0 <= i < |ps| && (ps[i].file, ps[i].bytes) == (f, b);
      WholeLeavesOne(dir, ps, i);
    }
  }

  lemma ListedIsGenuineIff(dir: map<string, string>, ps: seq<Put>)
    requires AllWhole(ps)
    ensures Genuine(Held(AfterAll(dir, ps), Recorded(ps))) <==> Consistent(ps)
  {
    var now := Held(AfterAll(dir, ps), Recorded(ps));
    if Consistent(ps) { ConsistentIsGenuine(dir, ps); }
    forall i, j | Genuine(now) && 0 <= i < |ps| && 0 <= j < |ps| && ps[i].file == ps[j].file
      ensures ps[i].bytes == ps[j].bytes
    {
      WholeLeavesOne(dir, ps, i);
      WholeLeavesOne(dir, ps, j);
    }
  }

  /** One event keeps every listed file as hashed exactly when it is harmless. */
  lemma EventKeepsGenuineIff(e: DirEvent, h: Held, h': Held)
    requires Happens(e, h, h') && Genuine(h)
    ensures Genuine(h') <==> HarmlessEvent(e, h.hashed)
  {
    match e
    case Removed(_) =>
    case Listed(ps) => ListedIsGenuineIff(h.dir, ps);
    case Stopped(ps) => forall f, b | (f, b) in h.hashed ensures (f in h'.dir ==> h'.dir[f] == b) <==> LastTo(ps, f) in {None, Some(b)} {
      AfterAllAt(h.dir, ps, f);
    }
  }

  ghost predicate History(es: seq<DirEvent>, hs: seq<Held>) {
    |hs| == |es| + 1 && forall i :: 0 <= i < |es| ==> Happens(es[i], hs[i], hs[i + 1])
  }

  lemma TailHistory(es: seq<DirEvent>, hs: seq<Held>)
    requires History(es, hs) && es != []
    ensures History(es[1..], hs[1..])
  {
    forall i | 0 <= i < |es[1..]| ensures Happens(es[1..][i], hs[1..][i], hs[1..][i + 1]) {
      assert Happens(es[i + 1], hs[i + 1], hs[i + 1 + 1]);
    }
  }

  /** Over any sequence of runs and removals every listed file is as hashed at every point exactly when each event was harmless. */
  lemma {:induction false} GenuineOverHistoryIff(es: seq<DirEvent>, hs: seq<Held>)
    requires History(es, hs) && Genuine(hs[0])
    ensures (forall k :: 0 <= k < |hs| ==> Genuine(hs[k])) <==> (forall i :: 0 <= i < |es| ==> HarmlessEvent(es[i], hs[i].hashed))
    decreases |es|
  {
    if es != [] {
      assert Happens(es[0], hs[0], hs[0 + 1]);
      EventKeepsGenuineIff(es[0], hs[0], hs[1]);
      if Genuine(hs[1]) {
        TailHistory(es, hs);
        GenuineOverHistoryIff(es[1..], hs[1..]);
        assert forall k :: 1 <= k < |hs| ==> hs[k] == hs[1..][k - 1];
        assert forall i :: 1 <= i < |es| ==> es[i] == es[1..][i - 1];
      }
    }
  }

  predicate OneWriteEach(ps: seq<Put>) { forall i, j :: 0 <= i < j < |ps| ==> ps[i].file != ps[j].file }

  lemma {:induction false} NoWriteTo(ps: seq<Put>, f: string)
    requires forall i :: 0 <= i < |ps| ==> ps[i].file != f
    ensures LastTo(ps, f).None?
  {
    if ps != [] { NoWriteTo(ps[1..], f); }
  }

  lemma {:induction false} OnlyWriteTo(ps: seq<Put>, i: nat)
    requires OneWriteEach(ps) && i < |ps|
    ensures LastTo(ps, ps[i].file) == ps[i].Left()
  {
    if i > 0 {
      assert ps[1..][i - 1] == ps[i];
      OnlyWriteTo(ps[1..], i - 1);
    } else {
      NoWriteTo(ps[1..], ps[0].file);
    }
  }

  /** The write stops before the file's last byte. */
  predicate FallsShort(p: Put) { p.write.WriteCut? && p.write.at < |p.bytes| }

  /**
   * When a rebuild makes the bytes that were hashed, a stopped run does harm exactly by a write
   * to a listed file that falls short.
   */
  lemma StoppedIsHarmlessIff(ps: seq<Put>, hashed: set<(string, string)>)
    requires OneWriteEach(ps)
    requires forall i, b :: 0 <= i < |ps| && (ps[i].file, b) in hashed ==> b == ps[i].bytes
    ensures HarmlessEvent(Stopped(ps), hashed) <==>
              forall i :: 0 <= i < |ps| && (ps[i].file, ps[i].bytes) in hashed ==> !FallsShort(ps[i])
  {
    forall i | 0 <= i < |ps| ensures LastTo(ps, ps[i].file) == ps[i].Left() { OnlyWriteTo(ps, i); }
    forall f, b | (f, b) in hashed && forall i :: 0 <= i < |ps| ==> ps[i].file != f ensures LastTo(ps, f) == None { NoWriteTo(ps, f); }
    forall i | 0 <= i < |ps| ensures ps[i].Left() in {None, Some(ps[i].bytes)} <==> !FallsShort(ps[i]) {
      if ps[i].write.WriteCut? {
        var n := Kept(|ps[i].bytes|, ps[i].write.at);
        assert n == |ps[i].bytes| ==> ps[i].bytes[..n] == ps[i].bytes;
      }
    }
  }

  /** The runs of a history write no file twice, and make for each listed file the bytes that were hashed. */
  ghost predicate Repeatable(e: DirEvent, hashed: set<(string, string)>) {
    match e
    case Removed(_) => true
    case Listed(ps) => Consistent(ps)
    case Stopped(ps) => OneWriteEach(ps) && forall i, b :: 0 <= i < |ps| && (ps[i].file, b) in hashed ==> b == ps[i].bytes
  }

  /** A run without a manifest left a listed file short. */
  ghost predicate LeftShort(e: DirEvent, hashed: set<(string, string)>) {
    e.Stopped? && exists i :: 0 <= i < |e.puts| && (e.puts[i].file, e.puts[i].bytes) in hashed && FallsShort(e.puts[i])
  }

  /** When rebuilds repeat what was hashed, the listed files are genuine at every point exactly when no run left one short. */
  lemma GenuineUnlessLeftShort(es: seq<DirEvent>, hs: seq<Held>)
    requires History(es, hs) && Genuine(hs[0])
    requires forall i :: 0 <= i < |es| ==> Repeatable(es[i], hs[i].hashed)
    ensures (forall k :: 0 <= k < |hs| ==> Genuine(hs[k])) <==> (forall i :: 0 <= i < |es| ==> !LeftShort(es[i], hs[i].hashed))
  {
    GenuineOverHistoryIff(es, hs);
    forall i | 0 <= i < |es| ensures HarmlessEvent(es[i], hs[i].hashed) <==> !LeftShort(es[i], hs[i].hashed) {
      assert Repeatable(es[i], hs[i].hashed);
      if es[i].Stopped? { StoppedIsHarmlessIff(es[i].puts, hs[i].hashed); }
    }
  }
}
