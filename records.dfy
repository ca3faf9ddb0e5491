/** The values the repository stores: index entries and commit records. */
module Records {

  /** A content id: the hex digest `hash_Object` returns. The empty string means "no commit". */
  type ContentId = string

  /** One staged file: `{"path": ..., "hash": ...}` in the index. */
  datatype IndexEntry = IndexEntry(path: string, hash: ContentId)

  /** The dictionary `commit` serialises: keys in the order timestamp, message, files, parent. */
  datatype CommitRecord = CommitRecord(
    timestamp: string,
    message: string,
    files: seq<IndexEntry>,
    parent: ContentId)
}
