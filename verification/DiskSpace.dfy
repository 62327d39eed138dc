/** Disk-space verdict for one Linux node (internal/analysis/disk.go and the mount search
    of internal/analysis/readiness.go). Percentages are compared exactly. */
module DiskSpace {
  import opened Wrappers

  /** One filesystem entry, numbers already read; -1 stands for an unreadable one. */
  datatype FsEntry = FsEntry(mount: string, kbSize: int, kbAvailable: int)

  /** `prefix` is `path` itself or one of its ancestors; the root is everybody's. */
  predicate IsPathPrefix(prefix: string, path: string) {
    || prefix == "/"
    || prefix == path
    || (|prefix| < |path| && path[..|prefix|] == prefix && path[|prefix|] == '/')
  }

  /** The entry can hold the path: it has a mount, and the mount is a prefix. */
  predicate Holds(e: FsEntry, path: string) { e.mount != "" && IsPathPrefix(e.mount, path) }

  /** No other entry that holds the path has a longer mount. */
  ghost predicate BestMount(fs: map<string, FsEntry>, path: string, key: string) {
    && key in fs && Holds(fs[key], path)
    && forall k :: k in fs && Holds(fs[k], path) ==> |fs[k].mount| <= |fs[key].mount|
  }

  /** Walk the map in whatever order it gives its entries, keeping the longest mount. */
  method FindBestMountLinux(fs: map<string, FsEntry>, path: string) returns (best: Option<string>)
    ensures best.Some? ==> BestMount(fs, path, best.value)
    ensures best.None? <==> forall k :: k in fs ==> !Holds(fs[k], path)
  {
    best := None;
    var bestLen := -1;
    var pending := fs.Keys;
    while pending != {}
      invariant pending <= fs.Keys
      invariant bestLen == if best.Some? && best.value in fs then |fs[best.value].mount| else -1
      invariant best.Some? ==> best.value in fs && Holds(fs[best.value], path)
      invariant forall k :: k in fs && k !in pending && Holds(fs[k], path) ==> |fs[k].mount| <= bestLen
    {
      var key :| key in pending;
      pending := pending - {key};
      var mount := fs[key].mount;
      if mount == "" {
        continue;
      }
      if IsPathPrefix(mount, path) {
        if |mount| > bestLen {
          bestLen := |mount|;
          best := Some(key);
        }
      }
    }
  }

  /** No mount but the root can be as short as the root and hold the path. */
  predicate RootUnrivalled(path: string) {
    path == "" || path[0] == '/' || (|path| >= 2 && path[1] != '/')
  }

  lemma PrefixesOfOneLength(a: FsEntry, b: FsEntry, path: string)
    requires Holds(a, path) && Holds(b, path) && |a.mount| == |b.mount|
    requires RootUnrivalled(path)
    ensures a.mount == b.mount
  {
  }

  /** The chosen mount does not depend on the order of the map, for every filesystem,
      exactly when the path is absolute or at least has no single-character ancestor. */
  lemma MountIsOrderIndependentIff(path: string)
    ensures RootUnrivalled(path) <==>
            forall fs: map<string, FsEntry>, a: string, b: string ::
              BestMount(fs, path, a) && BestMount(fs, path, b) ==> fs[a].mount == fs[b].mount
  {
    if RootUnrivalled(path) {
      forall fs: map<string, FsEntry>, a: string, b: string | BestMount(fs, path, a) && BestMount(fs, path, b)
        ensures fs[a].mount == fs[b].mount
      {
        PrefixesOfOneLength(fs[a], fs[b], path);
      }
    } else {
      RelativePathHasRival(path);
    }
  }

  lemma RelativePathHasRival(path: string)
    requires !RootUnrivalled(path)
    ensures exists fs: map<string, FsEntry>, a: string, b: string ::
              BestMount(fs, path, a) && BestMount(fs, path, b) && fs[a].mount != fs[b].mount
  {
    var fs := map["root" := FsEntry("/", 0, 0), "rival" := FsEntry(path[..1], 0, 0)];
    assert Holds(fs["rival"], path);
    assert BestMount(fs, path, "root") && BestMount(fs, path, "rival");
    assert fs["rival"].mount[0] != '/';
  }

  // ---------------------------------------------------------------------------
  // The verdict
  // ---------------------------------------------------------------------------

  /** Megabytes available and in all. */
  datatype Usage = Usage(availableMB: nat, totalMB: nat)

  datatype Verdict = Verdict(sufficient: Option<bool>, availableMB: Option<nat>, requiredMB: int, totalMB: Option<nat>)

  function Megabytes(kb: int): nat { if kb < 0 then 0 else kb / 1024 }

  function UsageOf(e: FsEntry): Usage { Usage(Megabytes(e.kbAvailable), Megabytes(e.kbSize)) }

  /** The install fits, and leaves the required share of the filesystem free. */
  predicate Fits(u: Usage, requiredMB: int, minFreePercent: int) {
    && u.availableMB >= requiredMB
    && (u.totalMB > 0 && minFreePercent > 0 ==>
          (u.availableMB - requiredMB) as real / u.totalMB as real * 100.0 >= minFreePercent as real)
  }

  /** In whole numbers: what is left after the install is at least the given share of the
      filesystem; an unknown size or a share of zero or less asks for nothing. */
  lemma FitsIff(u: Usage, requiredMB: int, minFreePercent: int)
    ensures Fits(u, requiredMB, minFreePercent) <==>
            u.availableMB >= requiredMB && 100 * (u.availableMB - requiredMB) >= minFreePercent * u.totalMB
  {
    var left := u.availableMB - requiredMB;
    if u.totalMB > 0 && minFreePercent > 0 {
      ShareAtLeast(left, u.totalMB, minFreePercent);
    } else if u.totalMB > 0 {
      assert minFreePercent * u.totalMB <= 0;
    }
  }

  lemma ShareAtLeast(left: int, total: int, percent: int)
    requires total > 0
    ensures left as real / total as real * 100.0 >= percent as real <==> 100 * left >= percent * total
  {
    var share := left as real / total as real;
    assert share * total as real == left as real;
    assert (percent * total) as real == percent as real * total as real;
    if share * 100.0 >= percent as real {
      assert (share * 100.0) * total as real >= percent as real * total as real;
    } else {
      assert (share * 100.0) * total as real < percent as real * total as real;
    }
  }

  function VerdictFor(usage: Option<Usage>, requiredMB: int, minFreePercent: int): Verdict {
    match usage
    case None => Verdict(None, None, requiredMB, None)
    case Some(u) => Verdict(Some(Fits(u, requiredMB, minFreePercent)), Some(u.availableMB), requiredMB, Some(u.totalMB))
  }

  method EvaluateDiskLinux(fs: map<string, FsEntry>, path: string, requiredMB: int, minFreePercent: int)
    returns (v: Verdict)
    ensures (exists key :: BestMount(fs, path, key) && v == VerdictFor(Some(UsageOf(fs[key])), requiredMB, minFreePercent))
         || ((forall k :: k in fs ==> !Holds(fs[k], path)) && v == VerdictFor(None, requiredMB, minFreePercent))
  {
    v := Verdict(None, None, requiredMB, None);
    if |fs| == 0 {
      return;
    }
    var best := FindBestMountLinux(fs, path);
    if best.None? {
      return;
    }
    var usage := UsageOf(fs[best.value]);
    v := v.(availableMB := Some(usage.availableMB), totalMB := Some(usage.totalMB));
    var absoluteOK := usage.availableMB >= requiredMB;
    var percentOK := true;
    if usage.totalMB > 0 && minFreePercent > 0 {
      var remainingKB, totalKB := (usage.availableMB - requiredMB) * 1024, usage.totalMB * 1024;
      SameShare(usage.availableMB - requiredMB, usage.totalMB);
      percentOK := remainingKB as real / totalKB as real * 100.0 >= minFreePercent as real;
    }
    v := v.(sufficient := Some(absoluteOK && percentOK));
  }

  lemma SameShare(a: int, b: int)
    requires b > 0
    ensures (a * 1024) as real / (b * 1024) as real == a as real / b as real
  {
  }

  /** The two usages pass and fail the same thresholds only when they are the same usage. */
  lemma ThresholdsTellUsages(u: Usage, v: Usage)
    ensures u == v <==> forall required: int, percent: int :: Fits(u, required, percent) == Fits(v, required, percent)
  {
    if u.availableMB < v.availableMB {
      assert Fits(u, v.availableMB, 0) != Fits(v, v.availableMB, 0);
    } else if v.availableMB < u.availableMB {
      assert Fits(u, u.availableMB, 0) != Fits(v, u.availableMB, 0);
    } else if u.totalMB < v.totalMB {
      LargerTotalTold(u, v);
    } else if v.totalMB < u.totalMB {
      LargerTotalTold(v, u);
    }
  }

  lemma LargerTotalTold(u: Usage, v: Usage)
    requires u.availableMB == v.availableMB && u.totalMB < v.totalMB
    ensures exists required: int, percent: int :: Fits(u, required, percent) != Fits(v, required, percent)
  {
    if u.totalMB == 0 {
      assert Fits(u, u.availableMB, 1) != Fits(v, u.availableMB, 1);
    } else {
      var left, percent := u.totalMB * v.totalMB, 100 * v.totalMB;
      ProductShare(u.totalMB, v.totalMB);
      assert Fits(u, u.availableMB - left, percent) != Fits(v, u.availableMB - left, percent);
    }
  }

  lemma ProductShare(a: nat, b: nat)
    requires 0 < a && 0 < b
    ensures (a * b) as real / a as real == b as real && (a * b) as real / b as real == a as real
  {
    assert (a * b) as real == a as real * b as real;
  }

  /** Which entry a map order picks never changes whether an install fits, at any thresholds,
      exactly when all entries that could be picked show the same usage. */
  lemma VerdictIsOrderIndependentIff(fs: map<string, FsEntry>, path: string)
    ensures (forall a, b, required: int, percent: int :: BestMount(fs, path, a) && BestMount(fs, path, b) ==>
               Fits(UsageOf(fs[a]), required, percent) == Fits(UsageOf(fs[b]), required, percent))
            <==>
            (forall a, b :: BestMount(fs, path, a) && BestMount(fs, path, b) ==> UsageOf(fs[a]) == UsageOf(fs[b]))
  {
    forall a, b | BestMount(fs, path, a) && BestMount(fs, path, b)
      ensures UsageOf(fs[a]) == UsageOf(fs[b]) <==>
              forall required: int, percent: int :: Fits(UsageOf(fs[a]), required, percent) == Fits(UsageOf(fs[b]), required, percent)
    {
      ThresholdsTellUsages(UsageOf(fs[a]), UsageOf(fs[b]));
    }
  }

  /** Two devices reported on "/" with different room, and an install for which it matters
      which one the map gives first. */
  lemma TwoDevicesOnRoot()
    ensures var fs := map["sda1" := FsEntry("/", 4096, 2048), "overlay" := FsEntry("/", 4096, 1024)];
            && BestMount(fs, "/opt/chef", "sda1") && BestMount(fs, "/opt/chef", "overlay")
            && Fits(UsageOf(fs["sda1"]), 2, 0) && !Fits(UsageOf(fs["overlay"]), 2, 0)
  {
  }

  /** More available space on the same filesystem never makes the install stop fitting. */
  lemma MoreSpaceStillFits(u: Usage, more: Usage, requiredMB: int, minFreePercent: int)
    requires u.totalMB == more.totalMB && u.availableMB <= more.availableMB
    requires Fits(u, requiredMB, minFreePercent)
    ensures Fits(more, requiredMB, minFreePercent)
  {
    if u.totalMB > 0 {
      ShareMonotone((u.availableMB - requiredMB) as real, (more.availableMB - requiredMB) as real, u.totalMB as real);
    }
  }

  /** A smaller install, or a smaller share to leave free, never stops fitting. */
  lemma SmallerInstallStillFits(u: Usage, requiredMB: int, less: int, minFreePercent: int, lessPercent: int)
    requires less <= requiredMB && lessPercent <= minFreePercent
    requires Fits(u, requiredMB, minFreePercent)
    ensures Fits(u, less, lessPercent)
  {
  }

  lemma ShareMonotone(a: real, b: real, total: real)
    requires a <= b && total > 0.0
    ensures a / total * 100.0 <= b / total * 100.0
  {
  }
}
