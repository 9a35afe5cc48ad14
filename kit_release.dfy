/**
 * Release shaping and selection: turning the registry's release records
 * into `KitRelease` values, and picking the release a version string names.
 * The HTTP requests themselves are outside the model; their answers are
 * parameters.
 */
module KitReleaseSelection {
  import opened Wrappers
  import opened Seqs
  import opened KitTypes

  datatype GitHubReleaseAsset = GitHubReleaseAsset(name: string, browserDownloadUrl: string)

  /** A release record as the registry sends it: `name` may be null, `assets` may be missing. */
  datatype GitHubRelease = GitHubRelease(
    tagName: string,
    name: Option<string>,
    assets: Option<seq<GitHubReleaseAsset>>)

  /** The answer to the "latest release" request. */
  datatype LatestResponse = LatestResponse(status: int, data: GitHubRelease)

  const LatestFailedMessage := "Failed to retrieve latest release"

  function ToArchiveFile(a: GitHubReleaseAsset): KitArchiveFile
  {
    KitArchiveFile(a.name, a.browserDownloadUrl)
  }

  /**
   * `r.name || r.tag_name`: JavaScript's `||` falls through on null and on
   * the empty string alike.
   */
  function DisplayName(r: GitHubRelease): string
  {
    match r.name
    case Some(n) => if n != "" then n else r.tagName
    case None => r.tagName
  }

  /** The object literal built for each release record. */
  function ToKitRelease(r: GitHubRelease): (k: KitRelease)
    ensures k.tag == r.tagName
    ensures k.name == r.tagName || (r.name == Some(k.name) && k.name != "")
    ensures r.name.Some? && r.name.value != "" ==> k.name == r.name.value
    ensures r.assets.None? ==> k.assets == []
    ensures r.assets.Some? ==> |k.assets| == |r.assets.value|
    ensures r.assets.Some? ==> forall i :: 0 <= i < |k.assets| ==>
      k.assets[i].archiveFilename == r.assets.value[i].name &&
      k.assets[i].archiveFileUrl == r.assets.value[i].browserDownloadUrl
  {
    var assets := match r.assets case Some(a) => a case None => [];
    KitRelease(r.tagName, DisplayName(r), Map(assets, ToArchiveFile))
  }

  /**
   * `getReleases(token, latest)` once the registry has answered: the
   * latest-release answer when `latest` is set, otherwise every release
   * the paginated listing returned.
   */
  function GetReleases(latest: bool, latestResponse: LatestResponse, listed: seq<GitHubRelease>)
    : (r: Result<seq<KitRelease>, string>)
    ensures latest ==> (r.Success? <==> latestResponse.status == 200)
    ensures latest && r.Failure? ==> r.error == LatestFailedMessage
    ensures latest && r.Success? ==> r.value == [ToKitRelease(latestResponse.data)]
    ensures !latest ==> r.Success? && |r.value| == |listed|
    ensures !latest ==> forall i :: 0 <= i < |listed| ==> r.value[i] == ToKitRelease(listed[i])
  {
    if latest then
      if latestResponse.status != 200 then Failure(LatestFailedMessage)
      else Success([ToKitRelease(latestResponse.data)])
    else
      Success(Map(listed, ToKitRelease))
  }

  function Tag(k: KitRelease): string
  {
    k.tag
  }

  /**
   * `findMatchingRelease(releases, version)`: the external evaluator
   * (`evaluateVersions`) picks one version among the tags, and the first
   * release carrying exactly that tag is returned, or nothing.
   */
  function FindMatchingRelease(
    releases: seq<KitRelease>, version: string,
    evaluateVersions: (seq<string>, string) -> string): (r: Option<KitRelease>)
    ensures var selected := evaluateVersions(Map(releases, Tag), version);
      && (r.None? <==> forall i :: 0 <= i < |releases| ==> releases[i].tag != selected)
      && (r.Some? ==> exists i :: IsFirst(releases, (k: KitRelease) => k.tag == selected, i)
                                  && releases[i] == r.value && r.value.tag == selected)
  {
    var selectedVersion := evaluateVersions(Map(releases, Tag), version);
    Find(releases, (k: KitRelease) => k.tag == selectedVersion)
  }

  /**
   * Asking for `v0.1.0` when the evaluator settles on that tag and some
   * release carries it yields a release tagged `v0.1.0`.
   */
  lemma ExactTagIsFound(releases: seq<KitRelease>, evaluateVersions: (seq<string>, string) -> string, i: int)
    requires 0 <= i < |releases| && releases[i].tag == "v0.1.0"
    requires evaluateVersions(Map(releases, Tag), "v0.1.0") == "v0.1.0"
    ensures var r := FindMatchingRelease(releases, "v0.1.0", evaluateVersions);
      r.Some? && r.value.tag == "v0.1.0" && r.value in releases
  {
  }

  /**
   * When tags are unique, the release found is the one carrying the
   * selected tag, wherever it stands.
   */
  lemma UniqueTagIsFound(releases: seq<KitRelease>, version: string,
                         evaluateVersions: (seq<string>, string) -> string, i: int)
    requires forall a, b :: 0 <= a < b < |releases| ==> releases[a].tag != releases[b].tag
    requires 0 <= i < |releases| && releases[i].tag == evaluateVersions(Map(releases, Tag), version)
    ensures FindMatchingRelease(releases, version, evaluateVersions) == Some(releases[i])
  {
    var selected := evaluateVersions(Map(releases, Tag), version);
    var carries := (k: KitRelease) => k.tag == selected;
    assert IsFirst(releases, carries, i);
    FindIsFirst(releases, carries, i);
  }
}
