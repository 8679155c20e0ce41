/** What the file names and the writes of a run mean for the files a later hit hands out. */
module CacheFileLaws {
  import opened SidecarManifest
  import opened CacheFiles
  import opened SidecarBuild

  /** Different names, none of which continues another as its aux files do. */
  ghost predicate Apart(dirs: seq<SidecarDir>) {
    forall i, j :: 0 <= i < j < |dirs| ==>
      dirs[i].name != dirs[j].name && !Shadows(dirs[i].name, dirs[j].name) && !Shadows(dirs[j].name, dirs[i].name)
  }

  /** What follows the sidecar's name in the file of its `k`-th write. */
  function TailOf(aux: seq<AuxSource>, k: nat): string
    requires k <= |aux|
  {
    if k == 0 then BundleTail() else AuxTail(k - 1, aux[k - 1].name)
  }

  function AuxSources(d: SidecarDir): seq<AuxSource> { if d.aux.Some? then d.aux.value else [] }

  lemma PutTail(d: SidecarDir, k: nat)
    requires k < |Puts(d)|
    ensures k <= |AuxSources(d)| && Puts(d)[k].file == d.name + TailOf(AuxSources(d), k)
  {
    if k == 0 {
      AuxFileTail(d.name, 0, "");
    } else {
      assert Puts(d)[k] == AuxPuts(d.name, d.aux.value)[k - 1];
      AuxFileTail(d.name, k - 1, d.aux.value[k - 1].name);
    }
  }

  lemma TailsApart(i: nat, x: string, j: nat, y: string)
    requires i != j
    ensures AuxTail(i, x) != AuxTail(j, y)
  {
    if AuxTail(i, x) == AuxTail(j, y) { AuxTailsMatch(i, x, j, y); }
  }

  lemma OtherTail(s: string, w: string, v: string)
    requires w != v
    ensures s + w != s + v
  {
    assert (s + w)[|s|..] == w && (s + v)[|s|..] == v;
  }

  lemma TailsDiffer(aux: seq<AuxSource>, i: nat, j: nat)
    requires i < j <= |aux|
    ensures TailOf(aux, i) != TailOf(aux, j)
  {
    if i == 0 { BundleIsNoAux(j - 1, aux[j - 1].name); } else { TailsApart(i - 1, aux[i - 1].name, j - 1, aux[j - 1].name); }
  }

  lemma TwoPutsApart(d: SidecarDir, i: nat, j: nat)
    requires i < j < |Puts(d)|
    ensures Puts(d)[i].file != Puts(d)[j].file
  {
    PutTail(d, i);
    PutTail(d, j);
    TailsDiffer(AuxSources(d), i, j);
    OtherTail(d.name, TailOf(AuxSources(d), i), TailOf(AuxSources(d), j));
  }

  lemma OwnPutsApart(d: SidecarDir)
    ensures OneWriteEach(Puts(d))
  {
    forall i, j | 0 <= i < j < |Puts(d)| ensures Puts(d)[i].file != Puts(d)[j].file { TwoPutsApart(d, i, j); }
  }

  lemma {:induction false} StoppedIsPrefix(ps: seq<Put>)
    ensures UpToFailure(ps) <= ps
  {
    if ps != [] { StoppedIsPrefix(ps[1..]); }
  }

  /** What the first directory adds to a run's writes. */
  function OwnPuts(d: SidecarDir): seq<Put> {
    if d.Eligible() && d.Packages() then UpToFailure(Puts(d)) else []
  }

  lemma RunPutsNext(dirs: seq<SidecarDir>)
    requires dirs != []
    ensures RunPuts(PackagedDirs(dirs)) == OwnPuts(dirs[0]) + RunPuts(PackagedDirs(dirs[1..]))
    ensures OwnPuts(dirs[0]) <= Puts(dirs[0])
  {
    var d, rest := dirs[0], PackagedDirs(dirs[1..]);
    StoppedIsPrefix(Puts(d));
    if d.Eligible() && d.Packages() {
      assert ([d] + rest)[1..] == rest;
    } else {
      assert PackagedDirs(dirs) == rest;
    }
  }

  lemma OwnPutOwned(d: SidecarDir, p: Put)
    requires p in Puts(d)
    ensures FileOfSidecar(d.name, p.file)
  {
    var k :| 0 <= k < |Puts(d)| && Puts(d)[k] == p;
    PutTail(d, k);
    assert Tail(TailOf(AuxSources(d), k));
  }

  /** Every file a run writes is one of a directory it packaged. */
  lemma {:induction false} RunPutsOwned(dirs: seq<SidecarDir>, p: Put) returns (j: nat)
    requires p in RunPuts(PackagedDirs(dirs))
    ensures j < |dirs| && FileOfSidecar(dirs[j].name, p.file)
  {
    RunPutsNext(dirs);
    if p in RunPuts(PackagedDirs(dirs[1..])) {
      j := RunPutsOwned(dirs[1..], p);
      j := j + 1;
    } else {
      OwnPutOwned(dirs[0], p);
      j := 0;
    }
  }

  lemma PutsOfTwoApart(dirs: seq<SidecarDir>, p: Put, q: Put)
    requires Apart(dirs) && dirs != [] && p in Puts(dirs[0]) && q in RunPuts(PackagedDirs(dirs[1..]))
    ensures p.file != q.file
  {
    OwnPutOwned(dirs[0], p);
    var j := RunPutsOwned(dirs[1..], q);
    assert dirs[1..][j] == dirs[j + 1];
    FilesCollideIff(dirs[0].name, dirs[j + 1].name);
  }

  lemma JoinApart(ps: seq<Put>, qs: seq<Put>)
    requires OneWriteEach(ps) && OneWriteEach(qs)
    requires forall i, j :: 0 <= i < |ps| && 0 <= j < |qs| ==> ps[i].file != qs[j].file
    ensures OneWriteEach(ps + qs)
  {
  }

  lemma {:induction false} RunPutsApart(dirs: seq<SidecarDir>)
    requires Apart(dirs)
    ensures OneWriteEach(RunPuts(PackagedDirs(dirs)))
  {
    if dirs != [] {
      var own, later := OwnPuts(dirs[0]), RunPuts(PackagedDirs(dirs[1..]));
      RunPutsNext(dirs);
      RunPutsApart(dirs[1..]);
      OwnPutsApart(dirs[0]);
      forall i, j | 0 <= i < |own| && 0 <= j < |later| ensures own[i].file != later[j].file {
        PutsOfTwoApart(dirs, own[i], later[j]);
      }
      JoinApart(own, later);
    }
  }

  /** With names apart a run, wherever it stops, writes no file twice. */
  lemma {:induction false} RunsWriteApart(dirs: seq<SidecarDir>, ps: seq<Put>)
    requires Apart(dirs) && ps <= RunPuts(PackagedDirs(dirs))
    ensures OneWriteEach(ps) && Consistent(ps)
  {
    RunPutsApart(dirs);
  }

  // ----- a file that is not what was hashed -----

  const SERVED := Sidecar("a", "channel", BundleFile("a"), "0", [])

  const CUT := Put(SERVED.zst, "bytes", WriteCut(0))

  const LOST := Held(map[], {(CUT.file, CUT.bytes)})

  const STUMP := Held(map[CUT.file := ""], LOST.hashed)

  lemma ServedIsWritable()
    ensures Writable([SERVED])
  {
    assert Clean(SERVED);
  }

  lemma CutHappens()
    ensures Happens(Stopped([CUT]), LOST, STUMP) && (CUT.file, CUT.bytes) in LOST.hashed
  {
    assert [CUT][1..] == [] && CUT.bytes[..0] == "";
  }

  /**
   * A rebuild after a lost asset whose new write is cut: the manifest of the earlier run still
   * serves the sidecar, and the file is not what was hashed.
   */
  lemma CutAssetIsServed()
    ensures exists s: Sidecar, h: Held, h': Held, p: Put ::
              && Writable([s]) && FilesHashed(s, h.hashed) && Genuine(h) && (p.file, p.bytes) in h.hashed
              && Happens(Stopped([p]), h, h') && FilesPresent(s, h'.dir.Keys) && !FilesHoldHashed(s, h')
  {
    ServedIsWritable();
    CutHappens();
    assert WasHashed(SERVED.zst, LOST.hashed);
  }
}
