/** The records the installer works on: a release and its downloadable files. */
module KitTypes {

  /** One downloadable file of a release. */
  datatype KitArchiveFile = KitArchiveFile(archiveFilename: string, archiveFileUrl: string)

  /** A tagged release; `assets` keeps the registry's order. */
  datatype KitRelease = KitRelease(tag: string, name: string, assets: seq<KitArchiveFile>)
}
