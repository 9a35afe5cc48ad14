# gh-kit-setup installer core, modelled in Dafny

This project models the two core files of the `gh-kit-setup` GitHub Action.
The Action installs the `kit` command-line tool on a CI runner.

- `src/releases/kit-release.ts` turns the registry's release records into
  `KitRelease` values (`getReleases`, once the HTTP answers are in hand). It
  also picks the release that a version string names (`findMatchingRelease`).
- `src/installer/install.ts` installs a release (`downloadAndInstall`). It
  picks the release file whose name carries the host's OS and architecture,
  and downloads it. It checks the download against the release's
  `checksums` file, then prepares the target directory. It decompresses the
  archive, choosing zip or tar by the file name (`extract`). It then locates
  the directory that holds the executable: at the root, inside a single
  wrapping folder, found by a depth-first search (`findFileRecursive`), or
  else the root. Last, it makes the executable runnable with mode `755`.

Layout of the model:

| file | module | what it holds |
|---|---|---|
| `wrappers.dfy` | `Wrappers` | `Option` and `Result` |
| `seqs.dfy` | `Seqs` | `Array.prototype.find`, `filter` and `map` |
| `strings.dfy` | `Strings` | `toLowerCase`, `includes` and `endsWith` |
| `paths.dfy` | `Paths` | `path.join`, `dirname`, `basename` and `extname` on paths held as segment lists |
| `kit_types.dfy` | `KitTypes` | `KitArchiveFile` and `KitRelease` |
| `kit_release.dfy` | `KitReleaseSelection` | release shaping and `findMatchingRelease` |
| `fs_tree.dfy` | `FsTree` | the extracted archive as a read-only tree, and a depth-first walk over it |
| `asset_selection.dfy` | `AssetSelection` | the OS/architecture filters and the checksum-file lookup |
| `install_types.dfy` | `InstallTypes` | install errors, and the outside calls an install makes |
| `extract.dfy` | `Extraction` | the suffix dispatch, `findFileRecursive` and the four-step locate chain |
| `install.dfy` | `Installer` | `extract`, `getExecutableTargetDir` and `downloadAndInstall` as methods on a `Host` |

The outside world is a `Host` object. Its `effects` field logs, in order,
every outside call an install makes: download, hash check, preparing the
target directory, zip or tar decompression, and chmod. Each method that
changes the host is proved against a pure function. `Installer.Extract`
is proved against `Installer.ExtractRun`. `Installer.DownloadAndInstall`
is proved against `Installer.InstallRun`. Each method's postcondition says
the new log is the old log plus that function's calls, and that the result
is that function's result. The ordering properties are then proved as
lemmas about those functions.

The model follows the code where it behaves in ways one might not expect:

- The root check in `extract` (install.ts:83-90) uses `access(..., F_OK)`.
  That accepts an entry of any kind named like the executable, a directory
  included. `FsTree.HasEntry` states it that way.
- When every strategy fails, `extract` returns the extraction root rather
  than raising an error (install.ts:113). The install then fails only at
  `chmod` (install.ts:35), which finds nothing at `join(root, binName)`.
  `Installer.ChmodSucceedsIff` states when that happens.
- `downloadAndInstall` does not fail when the release has no `checksums`
  file. It passes `undefined` on to `verifyHash` (install.ts:26-29). In
  the model `verifyHash` takes an `Option` and decides for itself.
- The OS and architecture tokens are compared as they are; only the file
  name is lower-cased (install.ts:138-148).

## Model

| member | source | states |
|---|---|---|
| Seqs.FirstIndex | src/installer/install.ts:26-28 | the index `find` stops at is the first whose element passes; none exactly when no element passes |
| Seqs.Find | src/releases/kit-release.ts:71 | `find` returns nothing exactly when no element passes, otherwise the element at the first passing index |
| Seqs.FindIsFirst | src/releases/kit-release.ts:71 | whatever index is the first passing one, `find` returns the element there |
| Seqs.FindConcat | src/installer/install.ts:129-134 | searching a concatenation finds in the left part first, and searches the right part only when the left has no match |
| Seqs.Filter | src/installer/install.ts:18-20 | `filter` keeps only passing elements and never lengthens the list |
| Seqs.FilterConcat | src/installer/install.ts:18-20 | filtering a concatenation filters each part in place, so kept elements keep their input order and multiplicity |
| Seqs.FilterMembership | src/installer/install.ts:18-20 | every kept element comes from the input, and every passing element of the input is kept |
| Seqs.FilterFilterHead | src/installer/install.ts:18-25 | two filters in a row are empty exactly when no element passes both; otherwise their head is the first element that passes both |
| Seqs.Map | src/releases/kit-release.ts:53-60 | `map` keeps length and order and transforms each element |
| Strings.LowerChar | src/installer/install.ts:140 | an upper-case ASCII letter becomes the lower-case letter at the same place in the alphabet; other characters are unchanged |
| Strings.ToLower | src/installer/install.ts:140 | `toLowerCase` keeps the length and lower-cases each character in place |
| Strings.ContainsIff | src/installer/install.ts:141 | `includes` holds exactly when the token occurs at some position |
| Strings.UpperTokenNeverMatches | src/installer/install.ts:138-142 | a token with an upper-case letter is never found in a lower-cased name |
| Paths.Join | src/installer/install.ts:32 | `dirname(join(d, n)) == d` and `basename(join(d, n)) == n` |
| Paths.JoinDirnameBasename | src/installer/install.ts:108-110 | joining a non-empty path's `dirname` and `basename` gives the path back |
| Paths.LastDot | src/installer/install.ts:62 | the position found holds a dot and no later position does; none exactly when the name has no dot |
| Paths.Extname | src/installer/install.ts:62 | a non-empty extension is a proper suffix of the name that starts with its only dot |
| Paths.ExtnameNonEmptyIff | src/installer/install.ts:62 | a name has an extension exactly when it has a dot after its first character and is not `..`; with `Paths.Extname` this fixes the extension as the suffix from the last dot |
| Paths.ExtnameZipIff | src/installer/install.ts:62-67 | the extension is `.zip` exactly when the name ends in `.zip` with something before it |
| KitReleaseSelection.ToKitRelease | src/releases/kit-release.ts:34-44 | the tag is copied; the name is the record's name unless that is null or empty, then the tag; assets map one to one, in order, with name and URL copied, and are empty when missing |
| KitReleaseSelection.GetReleases | src/releases/kit-release.ts:17-61 | with `latest`, it succeeds exactly on status 200 with one shaped release, else fails with the fixed message; without it, one shaped release per listed record, in order |
| KitReleaseSelection.FindMatchingRelease | src/releases/kit-release.ts:63-72 | nothing exactly when no release carries the tag the evaluator picked from all tags; otherwise the first release carrying it |
| KitReleaseSelection.ExactTagIsFound | __tests__/kit-release.test.ts:31-41 | when a release is tagged `v0.1.0` and the evaluator keeps that tag, a release tagged `v0.1.0` is found |
| KitReleaseSelection.UniqueTagIsFound | src/releases/kit-release.ts:67-71 | with unique tags, the release found is exactly the one carrying the selected tag |
| AssetSelection.SelectAsset | src/installer/install.ts:18-25 | no file exactly when none names both OS and architecture; otherwise the first such file in release order |
| AssetSelection.UpperCaseOsSelectsNothing | src/installer/install.ts:138-142 | an OS token holding an upper-case letter selects no file at all |
| AssetSelection.ChecksumAsset | src/installer/install.ts:26-29 | no manifest exactly when no file name contains `checksums`; otherwise the first such file |
| FsTree.LookupIff | src/installer/install.ts:35 | the entry-by-entry lookup a path operation such as `chmod` makes succeeds exactly when a node sits at the path |
| FsTree.FileAtExists | src/installer/install.ts:119-121 | a regular file at a path is in particular an existing node there |
| Extraction.DispatchBySuffix | src/installer/install.ts:61-76 | zip exactly for names ending in `.zip` with something before it; tar for the other names ending in `.tar.gz` or `.tgz`; every other name is unsupported |
| Extraction.DispatchExamples | src/installer/install.ts:61-76 | `.zip` and `kit.ZIP` are unsupported; `.tgz` is tar; a `.tar.gz` name is tar and a `.zip` name is zip |
| Extraction.FindFileRecursive | src/installer/install.ts:116-136 | the loop over entries returns what the depth-first search specifies |
| Extraction.SearchIsFirstInWalk | src/installer/install.ts:116-136 | the search returns the first regular file with the target name in depth-first preorder, in listing order |
| Extraction.FileAtTail | src/installer/install.ts:129-134 | a file found among the later entries is a file of the whole listing |
| Extraction.SearchSound | src/installer/install.ts:116-136 | a path the search returns lies below the directory, ends in the target name and is a regular file there |
| Extraction.SearchComplete | src/installer/install.ts:116-136 | when a regular file with the target name exists below the directory, the search finds one |
| Extraction.LocateExecutable | src/installer/install.ts:83-113 | the reported directory lies at or below the extraction root; it is the root when the root holds the executable, and else the wrapper when a single wrapper holds it |
| Extraction.LocatedBySearch | src/installer/install.ts:107-111 | when neither quick check applies but a file exists, the result is the parent of the first such file in preorder, and that file is there |
| Extraction.ExistsAtOne | src/installer/install.ts:83-86 | an existing path of one segment is an entry of the listing |
| Extraction.FallbackIff | src/installer/install.ts:83-113 | the root is reported exactly when it holds the executable, or when no wrapper holds it and no file anywhere has its name |
| Extraction.InstalledPathExistsIff | src/installer/install.ts:83-113 | `join(result, binName)` names an existing node exactly when one of the three strategies had something to find |
| Extraction.ArchiveLayouts | __tests__/installer-extract.test.ts:17-41 | an executable at the root is reported at the root; one inside a single top-level folder is reported in that folder; in both, the joined path exists |
| Installer.Extract | src/installer/install.ts:60-114 | the method logs exactly the decompression `ExtractRun` names and returns what `ExtractRun` returns |
| Installer.ExtractBySuffix | src/installer/install.ts:60-76 | a `.zip` name calls the zip primitive and any other `.tar.gz` or `.tgz` name the tar primitive; other names fail naming the archive, with nothing decompressed; a reported directory lies below the primitive's root |
| Installer.GetExecutableTargetDir | src/installer/install.ts:39-58 | the target directory is prepared once and returned |
| Installer.DownloadAndInstall | src/installer/install.ts:16-37 | the method makes exactly the calls `InstallRun` lists, in order, and returns its result, a chmod failure included |
| Installer.InstallDownloaded | src/installer/install.ts:29-36 | from the hash check on, the method makes exactly the calls `VerifiedRun` lists and returns its result; the chmod fails when nothing exists at the path |
| Installer.ExtractRunShape | src/installer/install.ts:60-76 | `extract` makes at most one call, a decompression of the archive it was given, and fails exactly when it makes none |
| Installer.ChmodSucceedsIff | src/installer/install.ts:31-35 | after a passing hash check on a supported name, the install succeeds exactly when one of the three strategies finds the executable; otherwise chmod of `join(root, binName)` fails |
| Installer.NoMatchingAssetFailsFirst | src/installer/install.ts:18-24 | the no-match error arises exactly when no file names both OS and architecture, and then no outside call is made |
| Installer.StepOrder | src/installer/install.ts:26-36 | every decompression follows a hash check that passed on the same file; every chmod follows a decompression; every hash check uses the release's first `checksums` file |
| Installer.StepOrderAfterDownload | src/installer/install.ts:26-36 | the same three orderings for a download followed by any call sequence laid out as the hash check leaves it |
| Installer.CheckedTailAfterExtraction | src/installer/install.ts:30-36 | after a passing hash check, whatever `extract` did, the calls are laid out as the hash check leaves them |
| Installer.VerifiedRunShape | src/installer/install.ts:30-36 | after the download: the hash check first; the target directory only if the check passed; then at most one decompression and then at most one chmod |
| Installer.FailedVerificationStops | src/installer/install.ts:30-31 | after a failed hash check nothing is decompressed and nothing is chmod-ed |
| Installer.SuccessfulInstall | src/installer/install.ts:16-37 | a successful install downloaded the selected file and passed its hash check on a supported name; it made five calls ending in one decompression and a chmod to `755` of the returned path; that path is `join(located dir, binName)` and exists in what was unpacked |

## Left out

- HTTP requests to the registry (`octokit.request`, `octokit.paginate`) and pagination are not modelled. Their answers are parameters of `GetReleases`.
- `downloadFile` and `verifyHash` are not part of this model. Each is a function parameter: `downloadFile` answers `None` where it throws, and `verifyHash` answers `false` where it throws. The model keeps only where each call stands in the sequence.
- The zip and tar decompression primitives are parameters. Each returns a root directory and a read-only tree of what it wrote. Decompression failures are not modelled.
- `evaluateVersions` (semantic-version matching) is an uninterpreted function parameter.
- `getExecutableTargetDir` is modelled only as one logged call that returns the configured directory. The temp-or-working-directory choice, `mkdirP`, `addPath` and the PATH change are outside the model.
- `getOS`, `getArch` and `getExecutableBinaryName` are not part of this model. Their values are the `os`, `arch` and `binName` fields of `Installer.Collaborators`.
- `getTmpDir` is not part of this model. The field `targetDir` of `Installer.Collaborators` stands for the whole result of `getExecutableTargetDir`, `join(tmpDir || cwd, 'jozu-bin')` (install.ts:42-50).
- `fs.promises.chmod` is recorded as a logged call with its target and mode. It fails exactly when nothing exists at the path in the tree the decompression primitive returned. Files already in the target directory from earlier runs, permission errors and permission bits are not modelled.
- Logging (`ghCore.debug`, `info`, `warning`) and the async machinery are left out. The flow is sequential.
- Strings.ToLower: lower-cases ASCII `A`-`Z` only. JavaScript's full Unicode case mapping is not modelled.
- Paths are lists of segment names. Separators, `.`/`..` normalisation and absolute-versus-relative paths are not modelled. `Paths.Extname` is `path.extname` on a single segment.
- Symbolic links, special files and `stat` failures inside the extracted tree are not modelled. A node is a regular file or a directory.
- The wording of thrown error messages is kept only as data. The one exception is the fixed message `Failed to retrieve latest release`. The status code logged beside it is not modelled.
