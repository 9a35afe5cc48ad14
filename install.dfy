/**
 * `downloadAndInstall` and `extract`: the install sequence, step by step,
 * against an outside world that records the calls made into it.
 */
module Installer {
  import opened Wrappers
  import opened Seqs
  import opened Paths
  import opened Strings
  import opened FsTree
  import opened KitTypes
  import opened InstallTypes
  import opened AssetSelection
  import opened Extraction

  /** The permission mode given to the installed executable. */
  const ExecMode := "755"

  /**
   * What the installer takes from its surroundings: the host's OS and
   * architecture tokens and executable name, the target directory, and the
   * operations it calls. `downloadFile` answers `None` and `verifyHash`
   * answers `false` where the real call throws.
   */
  datatype Collaborators = Collaborators(
    os: string,
    arch: string,
    binName: string,
    targetDir: Path,
    downloadFile: KitArchiveFile -> Option<Path>,
    verifyHash: (Path, Option<KitArchiveFile>) -> bool,
    extractZip: (Path, Path) -> Extracted,
    extractTar: (Path, Path) -> Extracted)

  /** The outside world: the calls made into it so far, oldest first. */
  class Host {
    var effects: seq<Effect>

    constructor ()
      ensures effects == []
    {
      effects := [];
    }

    method Perform(e: Effect)
      modifies this
      ensures effects == old(effects) + [e]
    {
      effects := effects + [e];
    }
  }

  /** The calls an install or an extraction makes, and how it ends. */
  datatype Run = Run(effects: seq<Effect>, result: Result<Path, InstallError>)

  /**
   * `extract(archive, dest)` once the primitives are given: an unsupported
   * name is an error naming the archive; otherwise the primitive for the
   * kind runs and the executable's directory is located in its output.
   */
  function ExtractRun(archive: Path, dest: Path, binName: string,
                      extractZip: (Path, Path) -> Extracted,
                      extractTar: (Path, Path) -> Extracted): Run
  {
    var basename := Basename(archive);
    match KindOf(basename)
    case Unsupported => Run([], Failure(UnsupportedArchive(archive, basename)))
    case Zip =>
      var x := extractZip(archive, dest);
      Run([ExtractZip(archive, dest)], Success(LocateExecutable(x.dir, x.entries, binName)))
    case Tar =>
      var x := extractTar(archive, dest);
      Run([ExtractTar(archive, dest)], Success(LocateExecutable(x.dir, x.entries, binName)))
  }

  /** `extract(archive, dest)`. */
  method Extract(host: Host, archive: Path, dest: Path, binName: string,
                 extractZip: (Path, Path) -> Extracted,
                 extractTar: (Path, Path) -> Extracted) returns (r: Result<Path, InstallError>)
    modifies host
    ensures host.effects == old(host.effects) + ExtractRun(archive, dest, binName, extractZip, extractTar).effects
    ensures r == ExtractRun(archive, dest, binName, extractZip, extractTar).result
  {
    var basename := Basename(archive);
    var extname := Extname(basename);
    var extracted: Extracted;
    if extname == ".zip" {
      host.Perform(ExtractZip(archive, dest));
      extracted := extractZip(archive, dest);
    } else if EndsWith(basename, ".tar.gz") || EndsWith(basename, ".tgz") {
      host.Perform(ExtractTar(archive, dest));
      extracted := extractTar(archive, dest);
    } else {
      return Failure(UnsupportedArchive(archive, basename));
    }
    var extractedDir := extracted.dir;
    var entries := extracted.entries;
    if HasEntry(entries, binName) {
      return Success(extractedDir);
    }
    if |entries| == 1 && entries[0].Dir? && HasEntry(entries[0].children, binName) {
      return Success(Join(extractedDir, entries[0].name));
    }
    var found := FindFileRecursive(extractedDir, Dir(Basename(extractedDir), entries), binName);
    if found.Some? {
      return Success(Dirname(found.value));
    }
    return Success(extractedDir);
  }

  /**
   * `extract` by the archive's name: a name ending in `.zip`, with
   * something before it, goes to the zip primitive; any other name ending in
   * `.tar.gz` or `.tgz` goes to the tar primitive; every other name is
   * refused with an error naming the archive, and nothing is decompressed.
   * The reported directory lies at or below the one the primitive returned.
   */
  lemma ExtractBySuffix(archive: Path, dest: Path, binName: string,
                        extractZip: (Path, Path) -> Extracted,
                        extractTar: (Path, Path) -> Extracted)
    ensures var run := ExtractRun(archive, dest, binName, extractZip, extractTar);
      var b := Basename(archive);
      && (run.effects == [ExtractZip(archive, dest)] <==> |b| > 4 && EndsWith(b, ".zip"))
      && (run.effects == [ExtractTar(archive, dest)] <==>
            !(|b| > 4 && EndsWith(b, ".zip")) && (EndsWith(b, ".tar.gz") || EndsWith(b, ".tgz")))
      && (run.result.Failure? <==> run.effects == [])
      && (run.result.Failure? ==> run.result.error == UnsupportedArchive(archive, b))
      && (run.result.Success? ==>
            var x := if run.effects[0].ExtractZip? then extractZip(archive, dest) else extractTar(archive, dest);
            |run.result.value| >= |x.dir| && run.result.value[..|x.dir|] == x.dir)
  {
    DispatchBySuffix(Basename(archive));
  }

  /** `downloadAndInstall(release)`, as a value. */
  function InstallRun(release: KitRelease, env: Collaborators): Run
  {
    match SelectAsset(release.assets, env.os, env.arch)
    case None => Run([], Failure(NoMatchingAsset(env.os, env.arch)))
    case Some(file) =>
      match env.downloadFile(file)
      case None => Run([Download(file)], Failure(DownloadFailed(file)))
      case Some(downloaded) =>
        var checksum := ChecksumAsset(release.assets);
        var run := VerifiedRun(downloaded, checksum, env);
        Run([Download(file)] + run.effects, run.result)
  }

  /** The install from the hash check on, once `downloaded` is on disk. */
  function VerifiedRun(downloaded: Path, checksum: Option<KitArchiveFile>, env: Collaborators): Run
  {
    var verify := [VerifyHash(downloaded, checksum)];
    if !env.verifyHash(downloaded, checksum) then
      Run(verify, Failure(VerificationFailed(downloaded, checksum)))
    else
      var dir := env.targetDir;
      var unpacked := Unpacked(downloaded, dir, env.extractZip, env.extractTar);
      var run := ExtractedRun(ExtractRun(downloaded, dir, env.binName, env.extractZip, env.extractTar), unpacked, env.binName);
      Run(verify + [PrepareTargetDir(dir)] + run.effects, run.result)
  }

  /**
   * What the decompression primitive for the archive's kind leaves in
   * `dest`: the tree in which `chmod` then looks the executable up.
   */
  function Unpacked(archive: Path, dest: Path,
                    extractZip: (Path, Path) -> Extracted,
                    extractTar: (Path, Path) -> Extracted): Extracted
  {
    if KindOf(Basename(archive)) == Zip then extractZip(archive, dest) else extractTar(archive, dest)
  }

  /**
   * The install from the decompression on, given what `extract` did and
   * returned and what is on disk: `chmod` of `join(dir, binName)` is made,
   * and rejects when nothing exists at that path.
   */
  function ExtractedRun(extraction: Run, unpacked: Extracted, binName: string): Run
  {
    match extraction.result
    case Failure(e) => extraction
    case Success(dir) =>
      var finalExecPath := Join(dir, binName);
      var effects := extraction.effects + [Chmod(finalExecPath, ExecMode)];
      if ExistsIn(unpacked, finalExecPath) then Run(effects, Success(finalExecPath))
      else Run(effects, Failure(ChmodFailed(finalExecPath)))
  }

  /** `downloadAndInstall(release)`: choose the host's file and download it. */
  method DownloadAndInstall(host: Host, release: KitRelease, env: Collaborators)
    returns (r: Result<Path, InstallError>)
    modifies host
    ensures host.effects == old(host.effects) + InstallRun(release, env).effects
    ensures r == InstallRun(release, env).result
  {
    InstallRunSteps(release, env);
    var file := SelectAsset(release.assets, env.os, env.arch);
    if file.None? {
      return Failure(NoMatchingAsset(env.os, env.arch));
    }
    host.Perform(Download(file.value));
    var downloaded := env.downloadFile(file.value);
    if downloaded.None? {
      return Failure(DownloadFailed(file.value));
    }
    var checksum := ChecksumAsset(release.assets);
    ghost var before := host.effects;
    r := InstallDownloaded(host, downloaded.value, checksum, env);
    ghost var tail := VerifiedRun(downloaded.value, checksum, env);
    assert host.effects == old(host.effects) + ([Download(file.value)] + tail.effects) by {
      assert before == old(host.effects) + [Download(file.value)];
      assert host.effects == before + tail.effects;
      AppendAssoc(old(host.effects), [Download(file.value)], tail.effects);
    }
  }

  /**
   * The rest of `downloadAndInstall` once the file is on disk: check its
   * hash, prepare the target directory, extract, and make the executable
   * runnable.
   */
  method InstallDownloaded(host: Host, downloadPath: Path, checksum: Option<KitArchiveFile>, env: Collaborators)
    returns (r: Result<Path, InstallError>)
    modifies host
    ensures host.effects == old(host.effects) + VerifiedRun(downloadPath, checksum, env).effects
    ensures r == VerifiedRun(downloadPath, checksum, env).result
  {
    VerifiedRunSteps(downloadPath, checksum, env);
    host.Perform(VerifyHash(downloadPath, checksum));
    if !env.verifyHash(downloadPath, checksum) {
      return Failure(VerificationFailed(downloadPath, checksum));
    }
    var dir := GetExecutableTargetDir(host, env);
    ghost var checked := [VerifyHash(downloadPath, checksum)] + [PrepareTargetDir(dir)];
    assert host.effects == old(host.effects) + checked by {
      AppendAssoc(old(host.effects), [VerifyHash(downloadPath, checksum)], [PrepareTargetDir(dir)]);
    }
    var finalPath := Extract(host, downloadPath, dir, env.binName, env.extractZip, env.extractTar);
    ghost var extracting := ExtractRun(downloadPath, dir, env.binName, env.extractZip, env.extractTar).effects;
    if finalPath.Failure? {
      assert host.effects == old(host.effects) + (checked + extracting) by {
        AppendAssoc(old(host.effects), checked, extracting);
      }
      return Failure(finalPath.error);
    }
    var finalExecPath := Join(finalPath.value, env.binName);
    var unpacked := Unpacked(downloadPath, dir, env.extractZip, env.extractTar);
    host.Perform(Chmod(finalExecPath, ExecMode));
    assert host.effects == old(host.effects) + (checked + (extracting + [Chmod(finalExecPath, ExecMode)])) by {
      AppendAssoc(old(host.effects), checked, extracting);
      AppendAssoc(old(host.effects) + checked, extracting, [Chmod(finalExecPath, ExecMode)]);
      AppendAssoc(old(host.effects), checked, extracting + [Chmod(finalExecPath, ExecMode)]);
    }
    if !ExistsIn(unpacked, finalExecPath) {
      return Failure(ChmodFailed(finalExecPath));
    }
    r := Success(finalExecPath);
  }

  /** `getExecutableTargetDir()`: the directory is prepared and reported. */
  method GetExecutableTargetDir(host: Host, env: Collaborators) returns (dir: Path)
    modifies host
    ensures dir == env.targetDir
    ensures host.effects == old(host.effects) + [PrepareTargetDir(dir)]
  {
    dir := env.targetDir;
    host.Perform(PrepareTargetDir(dir));
  }

  /** `InstallRun` step by step, in the order `DownloadAndInstall` takes them. */
  lemma InstallRunSteps(release: KitRelease, env: Collaborators)
    ensures var file := SelectAsset(release.assets, env.os, env.arch);
      && (file.None? ==> InstallRun(release, env) == Run([], Failure(NoMatchingAsset(env.os, env.arch))))
      && (file.Some? && env.downloadFile(file.value).None? ==>
            InstallRun(release, env) == Run([Download(file.value)], Failure(DownloadFailed(file.value))))
      && (file.Some? && env.downloadFile(file.value).Some? ==>
            var run := VerifiedRun(env.downloadFile(file.value).value, ChecksumAsset(release.assets), env);
            InstallRun(release, env) == Run([Download(file.value)] + run.effects, run.result))
  {
  }

  /** `VerifiedRun` step by step, in the order `InstallDownloaded` takes them. */
  lemma VerifiedRunSteps(downloaded: Path, checksum: Option<KitArchiveFile>, env: Collaborators)
    ensures var run := VerifiedRun(downloaded, checksum, env);
      && (!env.verifyHash(downloaded, checksum) ==>
            run == Run([VerifyHash(downloaded, checksum)], Failure(VerificationFailed(downloaded, checksum))))
      && (env.verifyHash(downloaded, checksum) ==>
            var unpacked := Unpacked(downloaded, env.targetDir, env.extractZip, env.extractTar);
            var tail := ExtractedRun(ExtractRun(downloaded, env.targetDir, env.binName, env.extractZip, env.extractTar),
                                     unpacked, env.binName);
            run == Run([VerifyHash(downloaded, checksum)] + [PrepareTargetDir(env.targetDir)] + tail.effects, tail.result))
  {
  }

  predicate IsExtraction(e: Effect)
  {
    e.ExtractZip? || e.ExtractTar?
  }

  /**
   * When no file of the release names both the OS and the architecture, the
   * install fails with an error naming the two, before anything is
   * downloaded; that error arises in no other case.
   */
  lemma NoMatchingAssetFailsFirst(release: KitRelease, env: Collaborators)
    ensures var run := InstallRun(release, env);
      && (run.result == Failure(NoMatchingAsset(env.os, env.arch)) <==>
          forall i :: 0 <= i < |release.assets| ==> !MatchesHost(release.assets[i], env.os, env.arch))
      && (run.result == Failure(NoMatchingAsset(env.os, env.arch)) ==> run.effects == [])
  {
  }

  /**
   * Every decompression comes after a hash check that passed on the very
   * file being decompressed, and every chmod after a decompression; the
   * hash check always uses the first `checksums` file of the release.
   */
  lemma StepOrder(release: KitRelease, env: Collaborators)
    ensures var es := InstallRun(release, env).effects;
      && (forall k :: 0 <= k < |es| && IsExtraction(es[k]) ==>
            exists j :: 0 <= j < k && es[j].VerifyHash? && env.verifyHash(es[j].downloaded, es[j].checksum)
                        && es[j].downloaded == es[k].archive)
      && (forall m :: 0 <= m < |es| && es[m].Chmod? ==>
            exists k :: 0 <= k < m && IsExtraction(es[k]))
      && (forall j :: 0 <= j < |es| && es[j].VerifyHash? ==> es[j].checksum == ChecksumAsset(release.assets))
  {
    var selected := SelectAsset(release.assets, env.os, env.arch);
    if selected.Some? && env.downloadFile(selected.value).Some? {
      var downloaded := env.downloadFile(selected.value).value;
      var checksum := ChecksumAsset(release.assets);
      VerifiedRunShape(downloaded, checksum, env);
      StepOrderAfterDownload(selected.value, VerifiedRun(downloaded, checksum, env).effects,
        downloaded, checksum, env.verifyHash);
    }
  }

  /**
   * The layout of the calls from the hash check on: the check itself, then,
   * only if it passed, the target directory, at most one decompression and
   * at most one chmod, in that order.
   */
  ghost predicate CheckedTail(es: seq<Effect>, downloaded: Path, checksum: Option<KitArchiveFile>,
                              verifyHash: (Path, Option<KitArchiveFile>) -> bool)
  {
    && 1 <= |es| <= 4
    && es[0] == VerifyHash(downloaded, checksum)
    && (|es| > 1 ==> verifyHash(downloaded, checksum) && es[1].PrepareTargetDir?)
    && (|es| > 2 ==> IsExtraction(es[2]) && es[2].archive == downloaded)
    && (|es| > 3 ==> es[3].Chmod?)
  }

  /** `StepOrder` for a download followed by a checked tail. */
  lemma StepOrderAfterDownload(file: KitArchiveFile, rest: seq<Effect>, downloaded: Path,
                               checksum: Option<KitArchiveFile>, verifyHash: (Path, Option<KitArchiveFile>) -> bool)
    requires CheckedTail(rest, downloaded, checksum, verifyHash)
    ensures var es := [Download(file)] + rest;
      && (forall k :: 0 <= k < |es| && IsExtraction(es[k]) ==>
            exists j :: 0 <= j < k && es[j].VerifyHash? && verifyHash(es[j].downloaded, es[j].checksum)
                        && es[j].downloaded == es[k].archive)
      && (forall m :: 0 <= m < |es| && es[m].Chmod? ==>
            exists k :: 0 <= k < m && IsExtraction(es[k]))
      && (forall j :: 0 <= j < |es| && es[j].VerifyHash? ==> es[j].checksum == checksum)
  {
    var es := [Download(file)] + rest;
    assert es[1] == VerifyHash(downloaded, checksum);
    forall k | 0 <= k < |es| && IsExtraction(es[k])
      ensures exists j :: 0 <= j < k && es[j].VerifyHash? && verifyHash(es[j].downloaded, es[j].checksum)
                          && es[j].downloaded == es[k].archive
    {
      assert k == 3 && verifyHash(es[1].downloaded, es[1].checksum) && es[1].downloaded == es[3].archive;
    }
    forall m | 0 <= m < |es| && es[m].Chmod?
      ensures exists k :: 0 <= k < m && IsExtraction(es[k])
    {
      assert m == 4 && IsExtraction(es[3]);
    }
    forall j | 0 <= j < |es| && es[j].VerifyHash?
      ensures es[j].checksum == checksum
    {
      assert j == 1;
    }
  }

  /** The calls made from the hash check on, position by position. */
  lemma VerifiedRunShape(downloaded: Path, checksum: Option<KitArchiveFile>, env: Collaborators)
    ensures CheckedTail(VerifiedRun(downloaded, checksum, env).effects, downloaded, checksum, env.verifyHash)
    ensures |VerifiedRun(downloaded, checksum, env).effects| == 1 <==> !env.verifyHash(downloaded, checksum)
  {
    VerifiedRunSteps(downloaded, checksum, env);
    if env.verifyHash(downloaded, checksum) {
      var dir := env.targetDir;
      var extraction := ExtractRun(downloaded, dir, env.binName, env.extractZip, env.extractTar);
      ExtractRunShape(downloaded, dir, env.binName, env.extractZip, env.extractTar);
      CheckedTailAfterExtraction(downloaded, checksum, env.verifyHash, dir, extraction,
        Unpacked(downloaded, dir, env.extractZip, env.extractTar), env.binName);
    }
  }

  /** `extract` makes at most one call, a decompression of the archive, and fails exactly when it makes none. */
  lemma ExtractRunShape(archive: Path, dest: Path, binName: string,
                        extractZip: (Path, Path) -> Extracted,
                        extractTar: (Path, Path) -> Extracted)
    ensures var run := ExtractRun(archive, dest, binName, extractZip, extractTar);
      && |run.effects| <= 1
      && (run.effects != [] ==> IsExtraction(run.effects[0]) && run.effects[0].archive == archive)
      && (run.result.Failure? <==> run.effects == [])
  {
  }

  /** The calls after a passing hash check lay out as `CheckedTail` says, whatever `extract` did. */
  lemma CheckedTailAfterExtraction(downloaded: Path, checksum: Option<KitArchiveFile>,
                                   verifyHash: (Path, Option<KitArchiveFile>) -> bool, dir: Path,
                                   extraction: Run, unpacked: Extracted, binName: string)
    requires verifyHash(downloaded, checksum)
    requires |extraction.effects| <= 1
    requires extraction.effects != [] ==> IsExtraction(extraction.effects[0]) && extraction.effects[0].archive == downloaded
    requires extraction.result.Failure? <==> extraction.effects == []
    ensures CheckedTail([VerifyHash(downloaded, checksum), PrepareTargetDir(dir)] + ExtractedRun(extraction, unpacked, binName).effects,
                        downloaded, checksum, verifyHash)
  {
  }

  /**
   * A failed hash check ends the install there: nothing is decompressed
   * and nothing is chmod-ed.
   */
  lemma FailedVerificationStops(release: KitRelease, env: Collaborators)
    ensures var run := InstallRun(release, env);
      run.result.Failure? && run.result.error.VerificationFailed? ==>
        forall k :: 0 <= k < |run.effects| ==> !IsExtraction(run.effects[k]) && !run.effects[k].Chmod?
  {
  }

  /**
   * A successful install downloaded the host's file, passed its hash check,
   * decompressed it once, and returns `join(dir, binName)` for the directory
   * `extract` located; that path exists in what was unpacked and is the last
   * thing touched, with mode 755.
   */
  lemma SuccessfulInstall(release: KitRelease, env: Collaborators)
    ensures var run := InstallRun(release, env);
      run.result.Success? ==>
        && SelectAsset(release.assets, env.os, env.arch).Some?
        && var file := SelectAsset(release.assets, env.os, env.arch).value;
        && env.downloadFile(file).Some?
        && var downloaded := env.downloadFile(file).value;
        && env.verifyHash(downloaded, ChecksumAsset(release.assets))
        && KindOf(Basename(downloaded)) != Unsupported
        && Basename(run.result.value) == env.binName
        && Success(Dirname(run.result.value)) ==
             ExtractRun(downloaded, env.targetDir, env.binName, env.extractZip, env.extractTar).result
        && ExistsIn(Unpacked(downloaded, env.targetDir, env.extractZip, env.extractTar), run.result.value)
        && |run.effects| == 5
        && run.effects[0] == Download(file)
        && IsExtraction(run.effects[3])
        && run.effects[4] == Chmod(run.result.value, ExecMode)
  {
  }

  /**
   * Once the hash check passes on a supported name, the install succeeds
   * exactly when one of the three strategies of `extract` finds the
   * executable in what was unpacked. Otherwise `extract` reports the
   * extraction root, and the chmod of `join(root, binName)` fails.
   */
  lemma ChmodSucceedsIff(downloaded: Path, checksum: Option<KitArchiveFile>, env: Collaborators)
    requires env.verifyHash(downloaded, checksum)
    requires KindOf(Basename(downloaded)) != Unsupported
    ensures var x := Unpacked(downloaded, env.targetDir, env.extractZip, env.extractTar);
      var run := VerifiedRun(downloaded, checksum, env);
      && (run.result.Success? <==>
            HasEntry(x.entries, env.binName) || WrapsExecutable(x.entries, env.binName) ||
            HasFileNamed(x.entries, env.binName))
      && (run.result.Failure? ==> run.result.error == ChmodFailed(Join(x.dir, env.binName)))
  {
    var x := Unpacked(downloaded, env.targetDir, env.extractZip, env.extractTar);
    var r := LocateExecutable(x.dir, x.entries, env.binName);
    assert VerifiedRun(downloaded, checksum, env).result ==
      if ExistsIn(x, Join(r, env.binName)) then Success(Join(r, env.binName))
      else Failure(ChmodFailed(Join(r, env.binName)));
    JoinDrop(r, env.binName, |x.dir|);
    LookupIff(x.entries, r[|x.dir|..] + [env.binName]);
    InstalledPathExistsIff(x.dir, x.entries, env.binName);
    FallbackIff(x.dir, x.entries, env.binName);
  }
}
