/** Building and caching the sidecars: which runs may write the manifest, and what a later hit can yield. */
module SidecarBuild {
  import opened Wrappers
  import opened Lines
  import opened SidecarManifest
  import opened ManifestCuts
  import opened CacheFiles

  /** One aux asset of a package: what compressing it makes, and how writing that ends this time. */
  datatype AuxSource = AuxSource(name: string, bytes: string, write: FileWrite)

  /**
   * A sidecar source directory together with how each stage of packaging it goes this
   * time; a stage that yields nothing has failed.
   */
  datatype SidecarDir = SidecarDir(name: string,
                                   hasIndex: bool, hasServer: bool,
                                   domain: Option<string>,
                                   bundles: bool, bundleExists: bool,
                                   aux: Option<seq<AuxSource>>,
                                   copies: bool,
                                   hash: Option<string>,
                                   bytes: string, write: FileWrite)
  {
    predicate Eligible() { hasIndex || hasServer }

    predicate Packages() {
      domain.Some? && bundles && bundleExists && aux.Some? && copies && hash.Some?
    }

    predicate Compresses()
      requires aux.Some?
    {
      write.WriteWhole? && forall i :: 0 <= i < |aux.value| ==> aux.value[i].write.WriteWhole?
    }
  }

  datatype Build =
    | FromCache(sidecars: seq<Sidecar>)
    | Rebuilt(sidecars: seq<Sidecar>)
    | Empty      // nothing embedded: duplicate names, no cache directory, SDK failure
    | Panicked   // strict mode turns the first failure into a build error

  function Names(dirs: seq<SidecarDir>): seq<string> {
    seq(|dirs|, i requires 0 <= i < |dirs| => dirs[i].name)
  }

  function SidecarNames(ss: seq<Sidecar>): seq<string> {
    seq(|ss|, i requires 0 <= i < |ss| => ss[i].name)
  }

  /** The directories that have an entry file, in order. */
  function EligibleDirs(dirs: seq<SidecarDir>): seq<SidecarDir> {
    if dirs == [] then []
    else (if dirs[0].Eligible() then [dirs[0]] else []) + EligibleDirs(dirs[1..])
  }

  function PackagedDirs(dirs: seq<SidecarDir>): seq<SidecarDir> {
    if dirs == [] then []
    else (if dirs[0].Eligible() && dirs[0].Packages() then [dirs[0]] else []) + PackagedDirs(dirs[1..])
  }

  /** Exactly the directories with either entry file are to be packaged. */
  lemma {:induction false} EligibleAre(dirs: seq<SidecarDir>)
    ensures forall d :: d in EligibleDirs(dirs) <==> d in dirs && (d.hasIndex || d.hasServer)
  {
    if dirs != [] {
      EligibleAre(dirs[1..]);
      assert dirs == [dirs[0]] + dirs[1..];
    }
  }

  /** They come in the order of the listing. */
  lemma {:induction false} EligibleJoins(x: seq<SidecarDir>, y: seq<SidecarDir>)
    ensures EligibleDirs(x + y) == EligibleDirs(x) + EligibleDirs(y)
  {
    if x == [] {
      assert x + y == y;
    } else {
      assert (x + y)[1..] == x[1..] + y;
      EligibleJoins(x[1..], y);
      Assoc(if x[0].Eligible() then [x[0]] else [], EligibleDirs(x[1..]), EligibleDirs(y));
    }
  }

  // ----- names -----

  /** The first directory name that occurs a second time. */
  method FirstDuplicateDirName(names: seq<Option<string>>) returns (dup: Option<string>)
    ensures dup.None? ==> forall i, j :: 0 <= i < j < |names| && names[i].Some? ==> names[i] != names[j]
    ensures dup.Some? ==> exists j ::
              && 0 <= j < |names| && names[j] == dup && dup in names[..j]
              && forall i, k :: 0 <= i < k < j && names[i].Some? ==> names[i] != names[k]
  {
    var seen: set<string> := {};
    for j := 0 to |names|
      invariant forall s :: s in seen <==> Some(s) in names[..j]
      invariant forall i, k :: 0 <= i < k < j && names[i].Some? ==> names[i] != names[k]
    {
      if names[j].Some? {
        if names[j].value in seen { return names[j]; }
        seen := seen + {names[j].value};
      }
      assert names[..j + 1] == names[..j] + [names[j]];
    }
    dup := None;
  }

  /**
   * Directory names without tabs and newlines. The other fields are checked or generated by
   * the stages themselves: domains and hashes are plain words, aux names are validated.
   */
  ghost predicate CleanDir(d: SidecarDir) {
    && CleanField(d.name)
    && (d.domain.Some? ==> CleanField(d.domain.value))
    && (d.hash.Some? ==> CleanField(d.hash.value) && WithoutCr(d.hash.value) == d.hash.value)
    && (d.aux.Some? ==> forall i :: 0 <= i < |d.aux.value| ==> CleanField(d.aux.value[i].name))
  }

  // ----- the two loops -----

  lemma NextDir(dirs: seq<SidecarDir>, i: nat, entries: seq<SidecarDir>)
    requires i < |dirs|
    ensures |EligibleDirs(dirs[i..])| == |EligibleDirs(dirs[i + 1..])| + if dirs[i].Eligible() then 1 else 0
    ensures entries + PackagedDirs(dirs[i..])
            == (if dirs[i].Eligible() && dirs[i].Packages() then entries + [dirs[i]] else entries) + PackagedDirs(dirs[i + 1..])
  {
    assert dirs[i..][1..] == dirs[i + 1..];
    Assoc(entries, [dirs[i]], PackagedDirs(dirs[i + 1..]));
  }

  lemma {:induction false} PackagedWithin(dirs: seq<SidecarDir>)
    ensures |PackagedDirs(dirs)| <= |EligibleDirs(dirs)|
    ensures |PackagedDirs(dirs)| == |EligibleDirs(dirs)| ==> PackagedDirs(dirs) == EligibleDirs(dirs)
    ensures forall i :: 0 <= i < |PackagedDirs(dirs)| ==> PackagedDirs(dirs)[i].Packages() && PackagedDirs(dirs)[i] in dirs
  {
    if dirs != [] { PackagedWithin(dirs[1..]); }
  }

  lemma OneLost(dirs: seq<SidecarDir>, i: nat, entries: seq<SidecarDir>)
    requires i < |dirs| && dirs[i].Eligible() && !dirs[i].Packages()
    requires entries + PackagedDirs(dirs[i..]) == PackagedDirs(dirs)
    requires |entries| + |EligibleDirs(dirs[i..])| == |EligibleDirs(dirs)|
    ensures |PackagedDirs(dirs)| < |EligibleDirs(dirs)|
  {
    assert dirs[i..][1..] == dirs[i + 1..];
    PackagedWithin(dirs[i + 1..]);
  }

  /** Packages every eligible directory, counting failures; strict mode stops at the first. */
  method PackageAll(dirs: seq<SidecarDir>, strict: bool) returns (entries: seq<SidecarDir>, failures: nat, panicked: bool)
    ensures !panicked ==> entries == PackagedDirs(dirs) && |entries| + failures == |EligibleDirs(dirs)|
    ensures panicked ==> strict && |PackagedDirs(dirs)| < |EligibleDirs(dirs)|
    ensures strict && !panicked ==> failures == 0
  {
    entries, failures := [], 0;
    for i := 0 to |dirs|
      invariant entries + PackagedDirs(dirs[i..]) == PackagedDirs(dirs)
      invariant strict ==> failures == 0
      invariant |entries| + failures + |EligibleDirs(dirs[i..])| == |EligibleDirs(dirs)|
    {
      var dir := dirs[i];
      NextDir(dirs, i, entries);
      if dir.Eligible() {
        if dir.Packages() {
          entries := entries + [dir];
        } else {
          failures := failures + 1;
          if strict {
            OneLost(dirs, i, entries);
            return entries, failures, true;
          }
        }
      }
    }
    panicked := false;
  }

  function AuxOf(d: SidecarDir): seq<AuxAsset>
    requires d.aux.Some?
  {
    seq(|d.aux.value|, i requires 0 <= i < |d.aux.value| =>
          AuxAsset(d.aux.value[i].name, AuxFile(d.name, i, d.aux.value[i].name)))
  }

  function SidecarOf(d: SidecarDir): Sidecar
    requires d.Packages()
  {
    Sidecar(d.name, d.domain.value, BundleFile(d.name), d.hash.value, AuxOf(d))
  }

  function CompressedDirs(entries: seq<SidecarDir>): seq<SidecarDir>
    requires forall i :: 0 <= i < |entries| ==> entries[i].Packages()
  {
    if entries == [] then []
    else
      assert entries[0].Packages();
      (if entries[0].Compresses() then [entries[0]] else []) + CompressedDirs(entries[1..])
  }

  function AuxPuts(name: string, aux: seq<AuxSource>): seq<Put> {
    seq(|aux|, i requires 0 <= i < |aux| => Put(AuxFile(name, i, aux[i].name), aux[i].bytes, aux[i].write))
  }

  /** The writes a sidecar takes: its bundle, then its aux assets. */
  function Puts(d: SidecarDir): seq<Put> {
    [Put(BundleFile(d.name), d.bytes, d.write)]
    + if d.aux.None? then [] else AuxPuts(d.name, d.aux.value)
  }

  /** The writes of a run: each sidecar's stop at the first that does not end well. */
  function RunPuts(entries: seq<SidecarDir>): seq<Put> {
    if entries == [] then [] else UpToFailure(Puts(entries[0])) + RunPuts(entries[1..])
  }

  /** Compresses a bundle and its aux assets into `dir`, stopping at the first that fails. */
  method CompressOne(entry: SidecarDir, dir: map<string, string>)
      returns (failed: bool, aux: seq<AuxAsset>, dir': map<string, string>)
    requires entry.Packages()
    ensures failed == !entry.Compresses()
    ensures !failed ==> aux == AuxOf(entry)
    ensures dir' == AfterAll(dir, UpToFailure(Puts(entry)))
  {
    ghost var puts := Puts(entry);
    assert puts[..0 + 1] == [puts[0]] && puts[..0] == [] && puts[1..] == AuxPuts(entry.name, entry.aux.value);
    FailureAt(puts, 0);
    AfterOneMore(dir, [], puts[0]);
    aux, dir' := [], After(dir, Put(BundleFile(entry.name), entry.bytes, entry.write));
    if !entry.write.WriteWhole? { return true, aux, dir'; }
    for idx := 0 to |entry.aux.value|
      invariant |aux| == idx && aux == AuxOf(entry)[..idx]
      invariant dir' == AfterAll(dir, puts[..idx + 1]) && AllWhole(puts[..idx + 1])
      invariant forall k :: 0 <= k < idx ==> entry.aux.value[k].write.WriteWhole?
    {
      var asset := entry.aux.value[idx];
      var put := Put(AuxFile(entry.name, idx, asset.name), asset.bytes, asset.write);
      assert puts[1..][idx] == put && puts[..idx + 1 + 1] == puts[..idx + 1] + [put];
      FailureAt(puts, idx + 1);
      AfterOneMore(dir, puts[..idx + 1], put);
      dir' := After(dir', put);
      if !asset.write.WriteWhole? { return true, aux, dir'; }
      aux := aux + [AuxAsset(asset.name, AuxFile(entry.name, idx, asset.name))];
    }
    assert puts[..|puts|] == puts;
    FailureAt(puts, |puts|);
    failed := false;
  }

  lemma NextEntry(entries: seq<SidecarDir>, i: nat, done: seq<SidecarDir>)
    requires i < |entries| && forall j :: 0 <= j < |entries| ==> entries[j].Packages()
    ensures done + CompressedDirs(entries[i..])
            == (if entries[i].Compresses() then done + [entries[i]] else done) + CompressedDirs(entries[i + 1..])
  {
    assert entries[i..][1..] == entries[i + 1..];
    Assoc(done, [entries[i]], CompressedDirs(entries[i + 1..]));
  }

  lemma {:induction false} NextPuts(entries: seq<SidecarDir>, i: nat, dir: map<string, string>, puts: seq<Put>)
    requires i < |entries|
    ensures puts + RunPuts(entries[i..]) == puts + UpToFailure(Puts(entries[i])) + RunPuts(entries[i + 1..])
    ensures AfterAll(dir, puts + UpToFailure(Puts(entries[i]))) == AfterAll(AfterAll(dir, puts), UpToFailure(Puts(entries[i])))
  {
    assert entries[i..][1..] == entries[i + 1..];
    Assoc(puts, UpToFailure(Puts(entries[i])), RunPuts(entries[i + 1..]));
    AfterConcat(dir, puts, UpToFailure(Puts(entries[i])));
  }

  lemma {:induction false} CompressedWithin(entries: seq<SidecarDir>)
    requires forall i :: 0 <= i < |entries| ==> entries[i].Packages()
    ensures |CompressedDirs(entries)| <= |entries|
    ensures |CompressedDirs(entries)| == |entries| ==> CompressedDirs(entries) == entries
  {
    if entries != [] {
      CompressedWithin(entries[1..]);
      assert entries == [entries[0]] + entries[1..];
    }
  }

  ghost predicate MadeFrom(emitted: seq<Sidecar>, done: seq<SidecarDir>) {
    |emitted| == |done| && forall j :: 0 <= j < |emitted| ==> done[j].Packages() && emitted[j] == SidecarOf(done[j])
  }

  lemma MadeOneMore(emitted: seq<Sidecar>, done: seq<SidecarDir>, entry: SidecarDir, aux: seq<AuxAsset>)
    requires MadeFrom(emitted, done) && entry.Packages() && aux == AuxOf(entry)
    ensures MadeFrom(emitted + [Sidecar(entry.name, entry.domain.value, BundleFile(entry.name), entry.hash.value, aux)], done + [entry])
  {
  }

  lemma OneDropped(entries: seq<SidecarDir>, i: nat, done: seq<SidecarDir>)
    requires i < |entries| && (forall j :: 0 <= j < |entries| ==> entries[j].Packages()) && |done| == i
    requires done + CompressedDirs(entries[i + 1..]) == CompressedDirs(entries)
    ensures |CompressedDirs(entries)| < |entries|
  {
    CompressedWithin(entries[i + 1..]);
    assert |CompressedDirs(entries)| == |done| + |CompressedDirs(entries[i + 1..])|;
  }

  /** The loop below, with the first `i` entries behind it: what it wrote and what got through. */
  ghost predicate Midway(entries: seq<SidecarDir>, i: nat, strict: bool, dir: map<string, string>, now: map<string, string>,
                         emitted: seq<Sidecar>, done: seq<SidecarDir>, puts: seq<Put>)
    requires i <= |entries| && forall j :: 0 <= j < |entries| ==> entries[j].Packages()
  {
    && done + CompressedDirs(entries[i..]) == CompressedDirs(entries)
    && now == AfterAll(dir, puts) && puts + RunPuts(entries[i..]) == RunPuts(entries)
    && MadeFrom(emitted, done) && (strict ==> |done| == i)
  }

  lemma MidwayThrough(entries: seq<SidecarDir>, i: nat, strict: bool, dir: map<string, string>, now: map<string, string>,
                      emitted: seq<Sidecar>, done: seq<SidecarDir>, puts: seq<Put>, aux: seq<AuxAsset>)
    requires i < |entries| && forall j :: 0 <= j < |entries| ==> entries[j].Packages()
    requires Midway(entries, i, strict, dir, now, emitted, done, puts) && entries[i].Compresses() && aux == AuxOf(entries[i])
    ensures var d := entries[i];
            Midway(entries, i + 1, strict, dir, AfterAll(now, UpToFailure(Puts(d))),
                   emitted + [Sidecar(d.name, d.domain.value, BundleFile(d.name), d.hash.value, aux)], done + [d],
                   puts + UpToFailure(Puts(d)))
  {
    NextEntry(entries, i, done);
    NextPuts(entries, i, dir, puts);
    MadeOneMore(emitted, done, entries[i], aux);
  }

  lemma MidwayWithout(entries: seq<SidecarDir>, i: nat, strict: bool, dir: map<string, string>, now: map<string, string>,
                      emitted: seq<Sidecar>, done: seq<SidecarDir>, puts: seq<Put>)
    requires i < |entries| && forall j :: 0 <= j < |entries| ==> entries[j].Packages()
    requires Midway(entries, i, strict, dir, now, emitted, done, puts) && !entries[i].Compresses()
    ensures !strict ==> Midway(entries, i + 1, strict, dir, AfterAll(now, UpToFailure(Puts(entries[i]))), emitted, done,
                               puts + UpToFailure(Puts(entries[i])))
    ensures AfterAll(now, UpToFailure(Puts(entries[i]))) == AfterAll(dir, puts + UpToFailure(Puts(entries[i])))
    ensures puts + UpToFailure(Puts(entries[i])) <= RunPuts(entries)
    ensures strict ==> |CompressedDirs(entries)| < |entries|
  {
    NextEntry(entries, i, done);
    NextPuts(entries, i, dir, puts);
    if strict { OneDropped(entries, i, done); }
  }

  /** Compresses every packaged sidecar; one that fails anywhere is left out. */
  method CompressAll(entries: seq<SidecarDir>, strict: bool, dir: map<string, string>)
      returns (emitted: seq<Sidecar>, panicked: bool, dir': map<string, string>, ghost puts: seq<Put>)
    requires forall i :: 0 <= i < |entries| ==> entries[i].Packages()
    ensures !panicked ==> MadeFrom(emitted, CompressedDirs(entries))
    ensures panicked ==> strict && |CompressedDirs(entries)| < |entries|
    ensures strict && !panicked ==> |emitted| == |entries|
    ensures dir' == AfterAll(dir, puts) && puts <= RunPuts(entries) && (!panicked ==> puts == RunPuts(entries))
  {
    emitted, dir', puts := [], dir, [];
    ghost var done: seq<SidecarDir> := [];
    for i := 0 to |entries|
      invariant Midway(entries, i, strict, dir, dir', emitted, done, puts)
    {
      var entry := entries[i];
      var failed, aux, next := CompressOne(entry, dir');
      if failed { MidwayWithout(entries, i, strict, dir, dir', emitted, done, puts); }
      if !failed { MidwayThrough(entries, i, strict, dir, dir', emitted, done, puts, aux); }
      dir', puts := next, puts + UpToFailure(Puts(entry));
      if failed {
        if strict { return emitted, true, dir', puts; }
      } else {
        emitted := emitted + [Sidecar(entry.name, entry.domain.value, BundleFile(entry.name), entry.hash.value, aux)];
        done := done + [entry];
      }
    }
    panicked := false;
  }

  // ----- nothing lost means nothing missing -----

  lemma {:induction false} EligibleNamesDistinct(dirs: seq<SidecarDir>)
    requires forall i, j :: 0 <= i < j < |dirs| ==> dirs[i].name != dirs[j].name
    ensures forall i :: 0 <= i < |EligibleDirs(dirs)| ==> EligibleDirs(dirs)[i] in dirs
    ensures forall i, j :: 0 <= i < j < |EligibleDirs(dirs)| ==> EligibleDirs(dirs)[i].name != EligibleDirs(dirs)[j].name
  {
    if dirs != [] {
      assert forall i :: 0 <= i < |dirs[1..]| ==> dirs[1..][i] == dirs[i + 1];
      EligibleNamesDistinct(dirs[1..]);
    }
  }

  /** Sidecars made from the eligible directories carry their names, in order, and can be written. */
  lemma {:induction false} EmittedAreWritable(dirs: seq<SidecarDir>, ss: seq<Sidecar>)
    requires forall i, j :: 0 <= i < j < |dirs| ==> dirs[i].name != dirs[j].name
    requires forall i :: 0 <= i < |dirs| ==> CleanDir(dirs[i])
    requires MadeFrom(ss, EligibleDirs(dirs))
    ensures SidecarNames(ss) == Names(EligibleDirs(dirs)) && Writable(ss)
  {
    EligibleNamesDistinct(dirs);
    forall i | 0 <= i < |ss| ensures Clean(ss[i]) {
      var d := EligibleDirs(dirs)[i];
      assert CleanDir(d);
      forall k | 0 <= k < |d.aux.value| ensures CleanField(AuxFile(d.name, k, d.aux.value[k].name))
        && WithoutCr(AuxFile(d.name, k, d.aux.value[k].name)) == AuxFile(d.name, k, d.aux.value[k].name)
      {
        AuxFileIsClean(d.name, k, d.aux.value[k].name);
      }
    }
  }

  // ----- the cache over runs -----

  datatype CacheKey = Adhoc | Fingerprint(hash: string)

  /** The manifests on disk and, for the record, the sidecars each was last written for. */
  datatype Shelf = Shelf(manifests: map<CacheKey, string>, written: map<CacheKey, seq<Sidecar>>)

  function Stored(shelf: Shelf, key: CacheKey, ss: seq<Sidecar>, write: FileWrite): Shelf {
    match write
    case WriteWhole => Shelf(shelf.manifests[key := Text(ss)], shelf.written[key := ss])
    case WriteRefused => shelf
    case WriteCut(at) => Shelf(shelf.manifests[key := Text(ss)[..Kept(|Text(ss)|, at)]], shelf.written[key := ss])
  }

  /**
   * Every fingerprinted manifest was written for the full eligible set of its inputs, and
   * whatever files are there it loads as exactly that, or not at all.
   */
  ghost predicate Sound(shelf: Shelf, eligible: string -> seq<string>) {
    forall h :: Fingerprint(h) in shelf.manifests ==>
      && Fingerprint(h) in shelf.written && Writable(shelf.written[Fingerprint(h)])
      && SidecarNames(shelf.written[Fingerprint(h)]) == eligible(h)
      && Serves(shelf.manifests[Fingerprint(h)], shelf.written[Fingerprint(h)])
  }

  /** The write left all of it, nothing of it, or a part the parser refuses. */
  predicate HarmlessWrite(key: CacheKey, ss: seq<Sidecar>, write: FileWrite) {
    key.Adhoc? || (write.WriteCut? ==> Harmless(ss, Kept(|Text(ss)|, write.at)))
  }

  lemma StoredServesIff(shelf: Shelf, key: CacheKey, ss: seq<Sidecar>, write: FileWrite)
    requires Writable(ss) && write != WriteRefused
    ensures key in Stored(shelf, key, ss, write).manifests
    ensures Serves(Stored(shelf, key, ss, write).manifests[key], ss) <==> (write.WriteCut? ==> Harmless(ss, Kept(|Text(ss)|, write.at)))
  {
    CutServesIff(ss, |Text(ss)|);
    assert Text(ss)[..|Text(ss)|] == Text(ss);
    if write.WriteCut? { CutServesIff(ss, Kept(|Text(ss)|, write.at)); }
  }

  /** Storing a complete listing keeps the cache sound exactly when the write does no harm. */
  lemma StoredSoundIff(shelf: Shelf, key: CacheKey, ss: seq<Sidecar>, write: FileWrite, eligible: string -> seq<string>)
    requires Sound(shelf, eligible) && Writable(ss)
    requires key.Fingerprint? ==> SidecarNames(ss) == eligible(key.hash)
    ensures Sound(Stored(shelf, key, ss, write), eligible) <==> HarmlessWrite(key, ss, write)
  {
    var now := Stored(shelf, key, ss, write);
    if key.Fingerprint? && write != WriteRefused {
      StoredServesIff(shelf, key, ss, write);
      assert Fingerprint(key.hash) == key && now.written[key] == ss;
      assert Sound(now, eligible) ==> Serves(now.manifests[key], ss);
    }
  }

  // ----- whole sequences of builds -----

  /** What one run does to the cache: nothing, or one write of a complete listing. */
  datatype RunEvent = Quiet | Writes(key: CacheKey, listing: seq<Sidecar>, write: FileWrite)

  ghost predicate Run(e: RunEvent, f: Shelf, g: Shelf, eligible: string -> seq<string>) {
    match e
    case Quiet => g == f
    case Writes(key, ss, write) =>
      (key.Fingerprint? ==> SidecarNames(ss) == eligible(key.hash)) && g == Stored(f, key, ss, write)
  }

  /** The listing a run writes has no tab or newline in its fields. */
  ghost predicate CleanRun(e: RunEvent) { e.Writes? ==> Writable(e.listing) }

  predicate HarmlessRun(e: RunEvent) { e.Writes? ==> HarmlessWrite(e.key, e.listing, e.write) }

  ghost predicate Runs(es: seq<RunEvent>, shelves: seq<Shelf>, eligible: string -> seq<string>) {
    |shelves| == |es| + 1 && forall i :: 0 <= i < |es| ==> Run(es[i], shelves[i], shelves[i + 1], eligible) && CleanRun(es[i])
  }

  lemma RunSoundIff(e: RunEvent, f: Shelf, g: Shelf, eligible: string -> seq<string>)
    requires Run(e, f, g, eligible) && CleanRun(e) && Sound(f, eligible)
    ensures Sound(g, eligible) <==> HarmlessRun(e)
  {
    if e.Writes? { StoredSoundIff(f, e.key, e.listing, e.write, eligible); }
  }

  lemma TailRuns(es: seq<RunEvent>, shelves: seq<Shelf>, eligible: string -> seq<string>)
    requires Runs(es, shelves, eligible) && es != []
    ensures Runs(es[1..], shelves[1..], eligible)
  {
    forall i | 0 <= i < |es[1..]|
      ensures Run(es[1..][i], shelves[1..][i], shelves[1..][i + 1], eligible) && CleanRun(es[1..][i])
    {
      assert Run(es[i + 1], shelves[i + 1], shelves[i + 1 + 1], eligible);
    }
  }

  /** Over any sequence of builds the cache is sound at every point exactly when no write did harm. */
  lemma {:induction false} SoundOverRunsIff(es: seq<RunEvent>, shelves: seq<Shelf>, eligible: string -> seq<string>)
    requires Runs(es, shelves, eligible) && Sound(shelves[0], eligible)
    ensures (forall k :: 0 <= k < |shelves| ==> Sound(shelves[k], eligible)) <==> (forall i :: 0 <= i < |es| ==> HarmlessRun(es[i]))
    decreases |es|
  {
    if es != [] {
      assert Run(es[0], shelves[0], shelves[0 + 1], eligible);
      RunSoundIff(es[0], shelves[0], shelves[1], eligible);
      if Sound(shelves[1], eligible) {
        TailRuns(es, shelves, eligible);
        SoundOverRunsIff(es[1..], shelves[1..], eligible);
        assert forall k :: 1 <= k < |shelves| ==> shelves[k] == shelves[1..][k - 1];
        assert forall i :: 1 <= i < |es| ==> es[i] == es[1..][i - 1];
      }
    }
  }

  // ----- one build -----

  class Cache {
    var manifests: map<CacheKey, string>
    var files: map<CacheKey, map<string, string>>
    ghost var written: map<CacheKey, seq<Sidecar>>
    ghost var hashed: map<CacheKey, set<(string, string)>>

    ghost function View(): Shelf reads this { Shelf(manifests, written) }

    function FilesOf(key: CacheKey): map<string, string> reads this {
      if key in files then files[key] else map[]
    }

    ghost function HeldAt(key: CacheKey): Held reads this {
      Held(FilesOf(key), if key in hashed then hashed[key] else {})
    }

    constructor ()
      ensures View() == Shelf(map[], map[]) && forall key :: HeldAt(key) == Held(map[], {})
    {
      manifests, files, written, hashed := map[], map[], map[], map[];
    }

    /** The directory is as the writes left it. */
    method Fill(key: CacheKey, dir: map<string, string>, ghost puts: seq<Put>)
      requires dir == AfterAll(FilesOf(key), puts)
      modifies this`files
      ensures HeldAt(key) == Held(AfterAll(old(FilesOf(key)), puts), old(HeldAt(key)).hashed)
      ensures forall k :: k != key ==> HeldAt(k) == old(HeldAt(k))
    {
      files := files[key := dir];
    }

    /** Writes the manifest of `ss`, whose files were put by `puts`. */
    method WriteFile(key: CacheKey, ss: seq<Sidecar>, write: FileWrite, ghost puts: seq<Put>)
      modifies this`manifests, this`written, this`hashed
      ensures View() == Stored(old(View()), key, ss, write)
      ensures HeldAt(key) == Held(FilesOf(key), if write.WriteRefused? then old(HeldAt(key)).hashed else Recorded(puts))
      ensures forall k :: k != key ==> HeldAt(k) == old(HeldAt(k))
    {
      var raw := WriteManifest(ss);
      match write {
        case WriteRefused =>
        case WriteWhole => manifests, written, hashed := manifests[key := raw], written[key := ss], hashed[key := Recorded(puts)];
        case WriteCut(at) =>
          manifests, written := manifests[key := raw[..Kept(|Text(ss)|, at)]], written[key := ss];
          hashed := hashed[key := Recorded(puts)];
      }
    }
  }

  ghost predicate Duplicated(dirs: seq<SidecarDir>) {
    exists i, j :: 0 <= i < j < |dirs| && dirs[i].name == dirs[j].name
  }

  /** The directories a run makes sidecars of: those with an entry file whose every stage works. */
  function BuiltDirs(dirs: seq<SidecarDir>): seq<SidecarDir> {
    if dirs == [] then []
    else
      var d := dirs[0];
      (if d.Eligible() && d.Packages() && d.Compresses() then [d] else []) + BuiltDirs(dirs[1..])
  }

  /** Exactly those with an entry file, whose package data, bundle, aux assets and hash are there and all of whose files were written. */
  lemma {:induction false} BuiltAre(dirs: seq<SidecarDir>)
    ensures forall d :: d in BuiltDirs(dirs) <==>
              && d in dirs && (d.hasIndex || d.hasServer)
              && d.domain != None && d.bundles && d.bundleExists && d.aux != None && d.copies && d.hash != None
              && d.write == WriteWhole && forall i :: 0 <= i < |d.aux.value| ==> d.aux.value[i].write == WriteWhole
  {
    if dirs != [] {
      BuiltAre(dirs[1..]);
      assert dirs == [dirs[0]] + dirs[1..];
    }
  }

  lemma {:induction false} BuiltIsBothStages(dirs: seq<SidecarDir>)
    ensures forall i :: 0 <= i < |PackagedDirs(dirs)| ==> PackagedDirs(dirs)[i].Packages()
    ensures CompressedDirs(PackagedDirs(dirs)) == BuiltDirs(dirs)
  {
    if dirs != [] {
      BuiltIsBothStages(dirs[1..]);
      var d, rest := dirs[0], PackagedDirs(dirs[1..]);
      if d.Eligible() && d.Packages() {
        assert ([d] + rest)[1..] == rest;
        assert CompressedDirs([d] + rest) == (if d.Compresses() then [d] else []) + CompressedDirs(rest);
      } else {
        assert PackagedDirs(dirs) == rest;
        assert BuiltDirs(dirs) == BuiltDirs(dirs[1..]);
      }
    }
  }

  lemma BuiltWithin(dirs: seq<SidecarDir>)
    ensures |BuiltDirs(dirs)| <= |PackagedDirs(dirs)| <= |EligibleDirs(dirs)|
    ensures |BuiltDirs(dirs)| == |EligibleDirs(dirs)| ==> BuiltDirs(dirs) == EligibleDirs(dirs)
  {
    BuiltIsBothStages(dirs);
    PackagedWithin(dirs);
    CompressedWithin(PackagedDirs(dirs));
  }

  /** The first half of a run: the two loops, and whether they lost nothing. */
  method BuildAll(dirs: seq<SidecarDir>, strict: bool, dir: map<string, string>)
      returns (emitted: seq<Sidecar>, complete: bool, panicked: bool, dir': map<string, string>, ghost puts: seq<Put>)
    ensures panicked ==> strict && BuiltDirs(dirs) != EligibleDirs(dirs)
    ensures !panicked ==>
              && MadeFrom(emitted, BuiltDirs(dirs))
              && complete == (BuiltDirs(dirs) == EligibleDirs(dirs))
              && (strict ==> complete)
    ensures dir' == AfterAll(dir, puts) && puts <= RunPuts(PackagedDirs(dirs))
    ensures !panicked ==> puts == RunPuts(PackagedDirs(dirs))
  {
    var entries, failures;
    entries, failures, panicked := PackageAll(dirs, strict);
    BuiltWithin(dirs);
    if panicked { return [], false, true, dir, []; }
    BuiltIsBothStages(dirs);
    emitted, panicked, dir', puts := CompressAll(entries, strict, dir);
    complete := failures == 0 && |emitted| == |entries|;
  }

  /** A manifest serves exactly when every file it names is there, and then yields what was written. */
  ghost predicate Served(ss: seq<Sidecar>, present: set<string>, b: Build) {
    if AllPresent(ss, present) then b.FromCache? && ByName(ss, b.sidecars) else !b.FromCache?
  }

  method TryCache(manifest: ManifestFile, present: set<string>) returns (b: Build)
    ensures b.FromCache? || b.Empty?
    ensures !manifest.Readable? ==> b.Empty?
    ensures manifest.Readable? && b.FromCache? ==>
              Outcome(ParseLines(map[], TextLines(manifest.raw), present), Hit(b.sidecars))
    ensures forall ss :: Writable(ss) && manifest == Readable(Text(ss)) ==> Served(ss, present, b)
  {
    var loaded := LoadManifest(manifest, present);
    forall ss | Writable(ss) && manifest == Readable(Text(ss))
      ensures if AllPresent(ss, present) then loaded.Hit? && ByName(ss, loaded.sidecars) else loaded == Miss
    {
      ManifestRoundTrip(ss, present, loaded);
    }
    b := if loaded.Hit? then FromCache(loaded.sidecars) else Empty;
  }

  function KeyOf(fingerprint: Option<string>): CacheKey {
    if fingerprint.Some? then Fingerprint(fingerprint.value) else Adhoc
  }

  /** A complete run writes the manifest of what it emitted; any other leaves the cache alone. */
  ghost function EventOf(dirs: seq<SidecarDir>, key: CacheKey, b: Build, write: FileWrite): RunEvent {
    if b.Rebuilt? && BuiltDirs(dirs) == EligibleDirs(dirs) then Writes(key, b.sidecars, write) else Quiet
  }

  ghost predicate AllClean(dirs: seq<SidecarDir>) { forall i :: 0 <= i < |dirs| ==> CleanDir(dirs[i]) }

  lemma BuiltNames(dirs: seq<SidecarDir>, emitted: seq<Sidecar>)
    requires MadeFrom(emitted, BuiltDirs(dirs))
    ensures SidecarNames(emitted) == Names(BuiltDirs(dirs))
  {
  }

  lemma DuplicateFound(dirs: seq<SidecarDir>, names: seq<Option<string>>, dup: Option<string>)
    requires |names| == |dirs| && forall i :: 0 <= i < |dirs| ==> names[i] == Some(dirs[i].name)
    requires dup.None? ==> forall i, j :: 0 <= i < j < |names| && names[i].Some? ==> names[i] != names[j]
    requires dup.Some? ==> exists j :: 0 <= j < |names| && names[j] == dup && dup in names[..j]
    ensures dup.Some? <==> Duplicated(dirs)
  {
    if dup.Some? {
      var j :| 0 <= j < |names| && names[j] == dup && dup in names[..j];
      var i :| 0 <= i < j && names[..j][i] == dup;
      assert dirs[i].name == dirs[j].name;
    } else {
      forall i, j | 0 <= i < j < |dirs| ensures dirs[i].name != dirs[j].name { assert names[i] != names[j]; }
    }
  }

  /** Every name of `names` once, and no other. */
  ghost predicate ExactlyNamed(ss: seq<Sidecar>, names: seq<string>) {
    && |ss| == |names|
    && (forall n :: n in SidecarNames(ss) <==> n in names)
    && (forall i, j :: 0 <= i < j < |ss| ==> ss[i].name != ss[j].name)
  }

  lemma SameMembersSameNames(x: seq<Sidecar>, y: seq<Sidecar>)
    requires multiset(x) == multiset(y)
    ensures forall n :: n in SidecarNames(x) <==> n in SidecarNames(y)
  {
    forall i | 0 <= i < |x| ensures x[i].name in SidecarNames(y) {
      assert x[i] in multiset(y);
      var j :| 0 <= j < |y| && y[j] == x[i];
      assert SidecarNames(y)[j] == x[i].name;
    }
    forall j | 0 <= j < |y| ensures y[j].name in SidecarNames(x) {
      assert y[j] in multiset(x);
      var i :| 0 <= i < |x| && x[i] == y[j];
      assert SidecarNames(x)[i] == y[j].name;
    }
  }

  /** A hit on a sound cache yields what was written, so every eligible name once and no other. */
  lemma HitIsComplete(shelf: Shelf, h: string, present: set<string>, r: Loaded, eligible: string -> seq<string>)
    requires Sound(shelf, eligible) && Fingerprint(h) in shelf.manifests
    requires r.Hit? && Outcome(ParseLines(map[], TextLines(shelf.manifests[Fingerprint(h)]), present), r)
    ensures ByName(shelf.written[Fingerprint(h)], r.sidecars) && ExactlyNamed(r.sidecars, eligible(h))
  {
    var ss := shelf.written[Fingerprint(h)];
    assert |r.sidecars| == |multiset(r.sidecars)| == |multiset(ss)| == |ss|;
    SameMembersSameNames(r.sidecars, ss);
  }

  // ----- the cached files over runs -----

  ghost predicate WasHashed(f: string, hashed: set<(string, string)>) { exists b :: (f, b) in hashed }

  /** Every file the sidecar is made of was hashed. */
  ghost predicate FilesHashed(s: Sidecar, hashed: set<(string, string)>) {
    WasHashed(s.zst, hashed) && forall k :: 0 <= k < |s.aux| ==> WasHashed(s.aux[k].zst, hashed)
  }

  ghost predicate AllHashed(ss: seq<Sidecar>, hashed: set<(string, string)>) {
    forall i :: 0 <= i < |ss| ==> FilesHashed(ss[i], hashed)
  }

  /** The file is there and holds what was hashed. */
  ghost predicate HoldsHashed(h: Held, f: string) { f in h.dir && (f, h.dir[f]) in h.hashed }

  ghost predicate FilesHoldHashed(s: Sidecar, h: Held) {
    HoldsHashed(h, s.zst) && forall k :: 0 <= k < |s.aux| ==> HoldsHashed(h, s.aux[k].zst)
  }

  ghost predicate AllHoldHashed(ss: seq<Sidecar>, h: Held) {
    forall i :: 0 <= i < |ss| ==> FilesHoldHashed(ss[i], h)
  }

  lemma PresentHoldHashed(s: Sidecar, h: Held)
    requires Genuine(h) && FilesHashed(s, h.hashed) && FilesPresent(s, h.dir.Keys)
    ensures FilesHoldHashed(s, h)
  {
  }

  lemma SameSidecars(x: seq<Sidecar>, y: seq<Sidecar>, i: nat) returns (j: nat)
    requires multiset(x) == multiset(y) && i < |x|
    ensures j < |y| && y[j] == x[i]
  {
    assert x[i] in multiset(y);
    j :| 0 <= j < |y| && y[j] == x[i];
  }

  /** A hit on a genuine directory hands out files that hold what was hashed. */
  lemma HitHoldsHashed(raw: string, ss: seq<Sidecar>, h: Held, r: Loaded)
    requires Genuine(h) && AllHashed(ss, h.hashed)
    requires r.Hit? && Outcome(ParseLines(map[], TextLines(raw), h.dir.Keys), r) && ByName(ss, r.sidecars)
    ensures AllHoldHashed(r.sidecars, h)
  {
    HitFilesPresent(TextLines(raw), h.dir.Keys, r);
    forall i | 0 <= i < |r.sidecars| ensures FilesHoldHashed(r.sidecars[i], h) {
      var j := SameSidecars(r.sidecars, ss, i);
      assert FilesHashed(ss[j], h.hashed);
      PresentHoldHashed(r.sidecars[i], h);
    }
  }

  lemma {:induction false} WholePuts(dirs: seq<SidecarDir>)
    requires forall i :: 0 <= i < |dirs| ==> dirs[i].Packages() && dirs[i].Compresses()
    ensures AllWhole(RunPuts(dirs))
    ensures forall i, k :: 0 <= i < |dirs| && 0 <= k < |Puts(dirs[i])| ==> Puts(dirs[i])[k] in RunPuts(dirs)
  {
    if dirs != [] {
      WholePuts(dirs[1..]);
      var first, rest := Puts(dirs[0]), RunPuts(dirs[1..]);
      assert first[..|first|] == first && AllWhole(first);
      FailureAt(first, |first|);
      forall i, k | 0 <= i < |dirs| && 0 <= k < |Puts(dirs[i])| ensures Puts(dirs[i])[k] in first + rest {
        if i > 0 { assert dirs[1..][i - 1] == dirs[i]; }
      }
    }
  }

  lemma SidecarIsHashed(d: SidecarDir, ps: seq<Put>)
    requires d.Packages() && forall k :: 0 <= k < |Puts(d)| ==> Puts(d)[k] in ps
    ensures FilesHashed(SidecarOf(d), Recorded(ps))
  {
    assert Puts(d)[0] == Put(BundleFile(d.name), d.bytes, d.write);
    var s := SidecarOf(d);
    assert (s.zst, d.bytes) in Recorded(ps);
    forall k | 0 <= k < |s.aux| ensures WasHashed(s.aux[k].zst, Recorded(ps)) {
      assert Puts(d)[k + 1] == AuxPuts(d.name, d.aux.value)[k];
      assert (s.aux[k].zst, d.aux.value[k].bytes) in Recorded(ps);
    }
  }

  /** Every file an emitted sidecar names was put by the run. */
  lemma {:induction false} EmittedAreHashed(dirs: seq<SidecarDir>, ss: seq<Sidecar>)
    requires MadeFrom(ss, dirs) && forall i :: 0 <= i < |dirs| ==> dirs[i].Packages() && dirs[i].Compresses()
    ensures AllHashed(ss, Recorded(RunPuts(dirs)))
  {
    WholePuts(dirs);
    forall i | 0 <= i < |ss| ensures FilesHashed(ss[i], Recorded(RunPuts(dirs))) {
      SidecarIsHashed(dirs[i], RunPuts(dirs));
    }
  }

  /**
   * A run that writes the manifest put every file in whole; any other stopped somewhere, and
   * wrote nothing when it served from the cache or gave up before building.
   */
  ghost predicate FilesEvent(dirs: seq<SidecarDir>, b: Build, e: RunEvent, w: DirEvent) {
    if e.Writes? && !e.write.WriteRefused? then w == Listed(RunPuts(EligibleDirs(dirs)))
    else
      && w.Stopped? && w.puts <= RunPuts(PackagedDirs(dirs))
      && (b.Rebuilt? ==> w.puts == RunPuts(PackagedDirs(dirs)))
      && (b.FromCache? || b.Empty? ==> w.puts == [])
  }

  lemma {:induction false} BuiltCompress(dirs: seq<SidecarDir>)
    ensures forall i :: 0 <= i < |BuiltDirs(dirs)| ==> BuiltDirs(dirs)[i].Packages() && BuiltDirs(dirs)[i].Compresses()
  {
    if dirs != [] { BuiltCompress(dirs[1..]); }
  }

  /** The event of a run happens to its directory, and a listing run has hashed every file it names. */
  ghost predicate FilesRun(dirs: seq<SidecarDir>, b: Build, e: RunEvent, w: DirEvent, h: Held, h': Held) {
    && Happens(w, h, h') && FilesEvent(dirs, b, e, w)
    && (w.Listed? ==> b.Rebuilt? && AllHashed(b.sidecars, h'.hashed))
  }

  lemma AllBuiltAreWhole(dirs: seq<SidecarDir>)
    requires BuiltDirs(dirs) == EligibleDirs(dirs)
    ensures PackagedDirs(dirs) == EligibleDirs(dirs) && AllWhole(RunPuts(EligibleDirs(dirs)))
    ensures forall i :: 0 <= i < |EligibleDirs(dirs)| ==> EligibleDirs(dirs)[i].Packages() && EligibleDirs(dirs)[i].Compresses()
  {
    BuiltWithin(dirs);
    PackagedWithin(dirs);
    BuiltCompress(dirs);
    WholePuts(BuiltDirs(dirs));
  }

  /** One sidecar for each directory, in order, with its own name, domain, hash and assets. */
  ghost predicate Embeds(ss: seq<Sidecar>, ds: seq<SidecarDir>) {
    |ss| == |ds| &&
    forall i :: 0 <= i < |ss| ==>
      && ss[i].name == ds[i].name && Some(ss[i].domain) == ds[i].domain && Some(ss[i].hash) == ds[i].hash
      && ss[i].zst == ds[i].name + ".mjs.zst"
      && ds[i].aux.Some? && |ss[i].aux| == |ds[i].aux.value|
      && forall k :: 0 <= k < |ss[i].aux| ==> ss[i].aux[k].name == ds[i].aux.value[k].name
  }

  lemma MadeEmbeds(ss: seq<Sidecar>, ds: seq<SidecarDir>)
    requires MadeFrom(ss, ds)
    ensures Embeds(ss, ds)
  {
  }

  /** The second half of a run: build into the key's directory, and list it when nothing was lost. */
  method Rebuild(cache: Cache, dirs: seq<SidecarDir>, key: CacheKey, strict: bool, write: FileWrite)
      returns (b: Build, ghost e: RunEvent, ghost w: DirEvent)
    requires !Duplicated(dirs)
    modifies cache
    ensures b.Rebuilt? || (b.Panicked? && strict && BuiltDirs(dirs) != EligibleDirs(dirs))
    ensures b.Rebuilt? ==> SidecarNames(b.sidecars) == Names(BuiltDirs(dirs)) && Embeds(b.sidecars, BuiltDirs(dirs))
    ensures b.Rebuilt? && strict ==> BuiltDirs(dirs) == EligibleDirs(dirs)
    ensures e == EventOf(dirs, key, b, write) && (AllClean(dirs) ==> CleanRun(e))
    ensures cache.View() == if e.Writes? then Stored(old(cache.View()), key, b.sidecars, write) else old(cache.View())
    ensures FilesRun(dirs, b, e, w, old(cache.HeldAt(key)), cache.HeldAt(key))
    ensures forall k :: k != key ==> cache.HeldAt(k) == old(cache.HeldAt(k))
  {
    var emitted, complete, panicked, dir, puts := BuildAll(dirs, strict, cache.FilesOf(key));
    cache.Fill(key, dir, puts);
    w := Stopped(puts);
    if panicked { return Panicked, Quiet, w; }
    BuiltNames(dirs, emitted);
    MadeEmbeds(emitted, BuiltDirs(dirs));
    b := Rebuilt(emitted);
    e := EventOf(dirs, key, b, write);
    // Only a run that lost nothing may write the manifest.
    if complete {
      AllBuiltAreWhole(dirs);
      if AllClean(dirs) { EmittedAreWritable(dirs, emitted); }
      EmittedAreHashed(EligibleDirs(dirs), emitted);
      cache.WriteFile(key, emitted, write, puts);
      w := if write.WriteRefused? then Stopped(puts) else Listed(puts);
    }
  }

  method HasDuplicate(dirs: seq<SidecarDir>) returns (dup: bool)
    ensures dup == Duplicated(dirs)
  {
    var names := seq(|dirs|, i requires 0 <= i < |dirs| => Some(dirs[i].name));
    var first := FirstDuplicateDirName(names);
    DuplicateFound(dirs, names, first);
    dup := first.Some?;
  }

  /** A complete hit whose files hold what was hashed, when the directory is genuine. */
  ghost predicate WholeHit(shelf: Shelf, held: Held, key: CacheKey, names: seq<string>, ss: seq<Sidecar>) {
    && key in shelf.written && ByName(shelf.written[key], ss) && ExactlyNamed(ss, names)
    && (Genuine(held) && AllHashed(shelf.written[key], held.hashed) ==> AllHoldHashed(ss, held))
  }

  lemma HitIsWhole(shelf: Shelf, held: Held, h: string, ss: seq<Sidecar>, eligible: string -> seq<string>)
    requires Sound(shelf, eligible) && Fingerprint(h) in shelf.manifests
    requires Outcome(ParseLines(map[], TextLines(shelf.manifests[Fingerprint(h)]), held.dir.Keys), Hit(ss))
    ensures WholeHit(shelf, held, Fingerprint(h), eligible(h), ss)
  {
    var key := Fingerprint(h);
    HitIsComplete(shelf, h, held.dir.Keys, Hit(ss), eligible);
    if Genuine(held) && AllHashed(shelf.written[key], held.hashed) {
      HitHoldsHashed(shelf.manifests[key], shelf.written[key], held, Hit(ss));
    }
  }

  /** The manifest of the key is rewritten by a run that lost nothing, and by no other. */
  ghost predicate ManifestAfter(dirs: seq<SidecarDir>, fingerprint: Option<string>, b: Build, write: FileWrite,
                                was: map<CacheKey, string>, now: map<CacheKey, string>) {
    var key := if fingerprint == None then Adhoc else Fingerprint(fingerprint.value);
    if b.Rebuilt? && BuiltDirs(dirs) == EligibleDirs(dirs) then
      match write
      case WriteWhole => now == was[key := Text(b.sidecars)]
      case WriteRefused => now == was
      case WriteCut(at) => key in now && now[key] <= Text(b.sidecars) && now == was[key := now[key]]
    else now == was
  }

  /** What is embedded is what got through every stage, all of it in a strict run; nothing is only for a reason. */
  ghost predicate BuildFits(dirs: seq<SidecarDir>, strict: bool, able: bool, b: Build) {
    match b
    case FromCache(_) => true
    case Rebuilt(ss) => Embeds(ss, BuiltDirs(dirs)) && (strict ==> BuiltDirs(dirs) == EligibleDirs(dirs))
    case Empty => !strict && (Duplicated(dirs) || !able)
    case Panicked => strict && (Duplicated(dirs) || !able || BuiltDirs(dirs) != EligibleDirs(dirs))
  }

  /** The run keeps the listing sound and its files as hashed exactly when it does no harm. */
  ghost predicate KeptIff(e: RunEvent, f: Shelf, g: Shelf, eligible: string -> seq<string>, w: DirEvent, h: Held, h': Held) {
    && (Sound(f, eligible) && CleanRun(e) ==> (Sound(g, eligible) <==> HarmlessRun(e)))
    && (Genuine(h) ==> (Genuine(h') <==> HarmlessEvent(w, h.hashed)))
  }

  lemma RunEnds(e: RunEvent, f: Shelf, g: Shelf, eligible: string -> seq<string>, w: DirEvent, h: Held, h': Held)
    requires Run(e, f, g, eligible) && Happens(w, h, h')
    ensures KeptIff(e, f, g, eligible, w, h, h')
  {
    if Sound(f, eligible) && CleanRun(e) { RunSoundIff(e, f, g, eligible); }
    if Genuine(h) { EventKeepsGenuineIff(w, h, h'); }
  }

  /** What the manifest is good for when it can be read. */
  ghost predicate ServesWhole(fingerprint: Option<string>, readable: bool, f: Shelf, h: Held, b: Build) {
    fingerprint.Some? && KeyOf(fingerprint) in f.manifests && readable ==>
      forall ss :: Writable(ss) && f.manifests[KeyOf(fingerprint)] == Text(ss) ==> Served(ss, h.dir.Keys, b)
  }

  /** A hit is whole when the listing was sound. */
  ghost predicate HitsWhole(dirs: seq<SidecarDir>, fingerprint: Option<string>, eligible: string -> seq<string>,
                            f: Shelf, h: Held, b: Build) {
    b.FromCache? ==>
      && fingerprint != None
      && (Sound(f, eligible) ==> WholeHit(f, h, KeyOf(fingerprint), Names(EligibleDirs(dirs)), b.sidecars))
  }

  /** The first half of a run: serve what the manifest of the same fingerprint names, if it is all there. */
  method Serve(cache: Cache, ghost dirs: seq<SidecarDir>, fingerprint: Option<string>, readable: bool,
               ghost eligible: string -> seq<string>)
      returns (b: Build)
    requires fingerprint.Some? ==> Names(EligibleDirs(dirs)) == eligible(fingerprint.value)
    ensures b.FromCache? || b.Empty?
    ensures HitsWhole(dirs, fingerprint, eligible, cache.View(), cache.HeldAt(KeyOf(fingerprint)), b)
    ensures ServesWhole(fingerprint, readable, cache.View(), cache.HeldAt(KeyOf(fingerprint)), b)
  {
    if fingerprint.None? { return Empty; }
    var key := KeyOf(fingerprint);
    var manifest := if key !in cache.manifests then Absent else if readable then Readable(cache.manifests[key]) else Locked;
    b := TryCache(manifest, cache.FilesOf(key).Keys);
    if b.FromCache? && Sound(cache.View(), eligible) {
      HitIsWhole(cache.View(), cache.HeldAt(key), fingerprint.value, b.sidecars, eligible);
    }
  }

  /**
   * What one run over `dirs` owes, from the listings `f` and its directory `h` to `g` and `h'`. `eligible`
   * stands for the fingerprint covering the entry files: equal fingerprints mean the same eligible directories.
   */
  ghost predicate RunResult(dirs: seq<SidecarDir>, fingerprint: Option<string>, readable: bool, strict: bool, able: bool,
                            write: FileWrite, eligible: string -> seq<string>,
                            f: Shelf, g: Shelf, h: Held, h': Held, b: Build, e: RunEvent, w: DirEvent) {
    var key := KeyOf(fingerprint);
    // the manifest
    && e == EventOf(dirs, key, b, write)
    && ManifestAfter(dirs, fingerprint, b, write, f.manifests, g.manifests)
    && Run(e, f, g, eligible) && (AllClean(dirs) ==> CleanRun(e))
    // the files it names
    && FilesRun(dirs, b, e, w, h, h') && KeptIff(e, f, g, eligible, w, h, h')
    // what is embedded
    && BuildFits(dirs, strict, able, b)
    && HitsWhole(dirs, fingerprint, eligible, f, h, b)
    && (!Duplicated(dirs) ==> ServesWhole(fingerprint, readable, f, h, b))
  }

  lemma QuietResult(dirs: seq<SidecarDir>, fingerprint: Option<string>, readable: bool, strict: bool, able: bool,
                    write: FileWrite, eligible: string -> seq<string>, f: Shelf, h: Held, b: Build)
    requires !b.Rebuilt? && BuildFits(dirs, strict, able, b) && HitsWhole(dirs, fingerprint, eligible, f, h, b)
    requires !Duplicated(dirs) ==> ServesWhole(fingerprint, readable, f, h, b)
    ensures RunResult(dirs, fingerprint, readable, strict, able, write, eligible, f, f, h, h, b, Quiet, Stopped([]))
  {
    RunEnds(Quiet, f, f, eligible, Stopped([]), h, h);
  }

  lemma BuiltResult(dirs: seq<SidecarDir>, fingerprint: Option<string>, readable: bool, strict: bool, able: bool,
                    write: FileWrite, eligible: string -> seq<string>,
                    f: Shelf, g: Shelf, h: Held, h': Held, b: Build, e: RunEvent, w: DirEvent)
    requires fingerprint.Some? ==> Names(EligibleDirs(dirs)) == eligible(fingerprint.value)
    requires !b.FromCache? && BuildFits(dirs, strict, able, b) && e == EventOf(dirs, KeyOf(fingerprint), b, write)
    requires (e.Writes? ==> SidecarNames(b.sidecars) == Names(EligibleDirs(dirs))) && (AllClean(dirs) ==> CleanRun(e))
    requires g == if e.Writes? then Stored(f, KeyOf(fingerprint), b.sidecars, write) else f
    requires FilesRun(dirs, b, e, w, h, h') && ServesWhole(fingerprint, readable, f, h, b)
    ensures RunResult(dirs, fingerprint, readable, strict, able, write, eligible, f, g, h, h', b, e, w)
  {
    RunEnds(e, f, g, eligible, w, h, h');
  }

  /** One run of the build script. */
  method EmbedSidecars(cache: Cache, dirs: seq<SidecarDir>, fingerprint: Option<string>,
                       readable: bool, strict: bool, cacheDirOk: bool, sdkBuilds: bool, write: FileWrite,
                       ghost eligible: string -> seq<string>)
      returns (b: Build, ghost e: RunEvent, ghost w: DirEvent)
    requires fingerprint.Some? ==> Names(EligibleDirs(dirs)) == eligible(fingerprint.value)
    modifies cache
    ensures RunResult(dirs, fingerprint, readable, strict, cacheDirOk && sdkBuilds, write, eligible,
                      old(cache.View()), cache.View(),
                      old(cache.HeldAt(KeyOf(fingerprint))), cache.HeldAt(KeyOf(fingerprint)), b, e, w)
    ensures forall key :: key != KeyOf(fingerprint) ==> cache.HeldAt(key) == old(cache.HeldAt(key))
  {
    ghost var f, h, able := cache.View(), cache.HeldAt(KeyOf(fingerprint)), cacheDirOk && sdkBuilds;
    var dup := HasDuplicate(dirs);
    b, e, w := (if strict then Panicked else Empty), Quiet, Stopped([]);
    if dup {
      QuietResult(dirs, fingerprint, readable, strict, able, write, eligible, f, h, b);
      return;
    }
    var hit := Serve(cache, dirs, fingerprint, readable, eligible);
    if hit.FromCache? {
      b := hit;
      QuietResult(dirs, fingerprint, readable, strict, able, write, eligible, f, h, b);
    } else if !cacheDirOk || !sdkBuilds {
      QuietResult(dirs, fingerprint, readable, strict, able, write, eligible, f, h, b);
    } else {
      b, e, w := Rebuild(cache, dirs, KeyOf(fingerprint), strict, write);
      BuiltResult(dirs, fingerprint, readable, strict, able, write, eligible,
                  f, cache.View(), h, cache.HeldAt(KeyOf(fingerprint)), b, e, w);
    }
  }
}
