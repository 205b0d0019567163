/**
 * The records the pipeline passes between its stages.
 *
 * A Python `dict.get(key, default)` on a key that is absent yields the
 * default; these records hold that default in place of the absent key. A
 * field of type `Option<...>` is `None` where the JSON value is `null`.
 */
module Records {
  import opened Wrappers

  /** The hardware profile attached to an entry (RAM in GB, CPU cores, GPU flag, OS list). */
  datatype Profile = Profile(
    minRamGB: nat,
    minCpuCores: nat,
    gpuRequired: bool,
    osSupported: seq<string>)

  /** One GGUF file entry: the unit every stage of the curation pipeline works on. */
  datatype Entry = Entry(
    modelName: string,
    quantFormat: string,
    fileSize: Option<int>,
    modelType: string,
    license: string,
    downloadCount: Option<int>,
    likeCount: Option<int>,
    huggingFaceLink: string,
    directDownloadLink: string,
    uploadDate: Option<string>,
    hardware: Option<Profile>)

  /**
   * One element of a raw listing's `siblings`: a file object, or something
   * the engine cannot read a file name from (not an object, or an object
   * whose `rfilename` is `null`).
   */
  datatype Sibling =
    | File(rfilename: string, size: Option<int>)
    | Unreadable

  /** A listing's `id`: a string, `null`, or absent. */
  datatype RawId = Id(s: string) | IdNull | IdAbsent

  /** A raw hub listing as the curation engine reads it; `siblings` is `None` where it is `null`. */
  datatype RawRecord = RawRecord(
    id: RawId,
    siblings: Option<seq<Sibling>>,
    downloads: Option<int>,
    likes: Option<int>,
    createdAt: Option<string>)

  /** Every entry carries a numeric file size. */
  predicate Sized(es: seq<Entry>) {
    forall i :: 0 <= i < |es| ==> es[i].fileSize.Some?
  }

  /** The file size of an entry known to have one. */
  function Size(e: Entry): int
    requires e.fileSize.Some?
  {
    e.fileSize.value
  }

  /** A download count with `null` read as 0. */
  function Downloads(e: Entry): int {
    e.downloadCount.GetOr(0)
  }
}
