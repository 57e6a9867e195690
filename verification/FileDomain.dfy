/** Vocabulary shared by the file modules (src/modules/file/file.domain.ts). */
module FileDomain {
  datatype Option<+T> = None | Some(value: T)

  /** The life stages of a file row. */
  datatype FileStatus = Exists | Trashed | Deleted
}
