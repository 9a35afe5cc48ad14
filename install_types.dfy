/** What can go wrong during an install, and what an install does to the outside world. */
module InstallTypes {
  import opened Wrappers
  import opened Paths
  import opened KitTypes

  /** The errors an install can end with; each carries what its message names. */
  datatype InstallError =
    | NoMatchingAsset(os: string, arch: string)
    | DownloadFailed(file: KitArchiveFile)
    | VerificationFailed(downloaded: Path, checksum: Option<KitArchiveFile>)
    | UnsupportedArchive(archive: Path, basename: string)
    | ChmodFailed(target: Path)

  /** One call into the outside world, recorded in the order it is made. */
  datatype Effect =
    | Download(file: KitArchiveFile)
    | VerifyHash(downloaded: Path, checksum: Option<KitArchiveFile>)
    | PrepareTargetDir(dir: Path)
    | ExtractZip(archive: Path, dest: Path)
    | ExtractTar(archive: Path, dest: Path)
    | Chmod(target: Path, mode: string)
}
