/**
 * Choosing the release file for the running host, and the checksum
 * manifest that comes with it.
 */
module AssetSelection {
  import opened Wrappers
  import opened Seqs
  import opened Strings
  import opened KitTypes

  /** `filterAssetsByOS`: the lower-cased file name contains the OS token (taken as it is). */
  predicate MatchesOS(file: KitArchiveFile, os: string)
  {
    Contains(ToLower(file.archiveFilename), os)
  }

  /** `filterAssetsByArch`: the lower-cased file name contains the architecture token. */
  predicate MatchesArch(file: KitArchiveFile, arch: string)
  {
    Contains(ToLower(file.archiveFilename), arch)
  }

  predicate MatchesHost(file: KitArchiveFile, os: string, arch: string)
  {
    MatchesOS(file, os) && MatchesArch(file, arch)
  }

  /**
   * `release.assets.filter(filterAssetsByOS).filter(filterAssetsByArch)[0]`,
   * or nothing when that list is empty: the first file, in release order,
   * whose name carries both tokens.
   */
  function SelectAsset(assets: seq<KitArchiveFile>, os: string, arch: string): (r: Option<KitArchiveFile>)
    ensures r.None? <==> forall i :: 0 <= i < |assets| ==> !MatchesHost(assets[i], os, arch)
    ensures r.Some? ==>
      exists i :: 0 <= i < |assets| && assets[i] == r.value
        && MatchesHost(assets[i], os, arch)
        && forall j :: 0 <= j < i ==> !MatchesHost(assets[j], os, arch)
  {
    var byOS := (f: KitArchiveFile) => MatchesOS(f, os);
    var byArch := (f: KitArchiveFile) => MatchesArch(f, arch);
    var files := Filter(Filter(assets, byOS), byArch);
    FilterFilterHead(assets, byOS, byArch);
    if |files| == 0 then None else Some(files[0])
  }

  /**
   * The tokens are not lower-cased, so an OS token with an upper-case
   * letter selects nothing, whatever the release holds.
   */
  lemma UpperCaseOsSelectsNothing(assets: seq<KitArchiveFile>, os: string, arch: string, k: int)
    requires 0 <= k < |os| && IsUpper(os[k])
    ensures SelectAsset(assets, os, arch) == None
  {
    forall i | 0 <= i < |assets| ensures !MatchesOS(assets[i], os) {
      UpperTokenNeverMatches(assets[i].archiveFilename, os, k);
    }
  }

  /** The manifest is recognised by a case-sensitive `checksums` in its name. */
  predicate IsChecksumFile(file: KitArchiveFile)
  {
    Contains(file.archiveFilename, "checksums")
  }

  /** `release.assets.find(...)`: the first file whose name contains `checksums`, if any. */
  function ChecksumAsset(assets: seq<KitArchiveFile>): (r: Option<KitArchiveFile>)
    ensures r.None? <==> forall i :: 0 <= i < |assets| ==> !IsChecksumFile(assets[i])
    ensures r.Some? ==>
      exists i :: 0 <= i < |assets| && assets[i] == r.value
        && IsChecksumFile(assets[i])
        && forall j :: 0 <= j < i ==> !IsChecksumFile(assets[j])
  {
    Find(assets, IsChecksumFile)
  }
}
