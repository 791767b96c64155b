/** The `Users/` directory that auth.py writes and message_storage.py reads. */
module UserFiles {
  import opened Basics

  /** The content of `Users/<username>.json`: a JSON object, or text that
      does not parse as JSON. */
  datatype UserFile = Record(doc: Document) | CorruptRecord

  /** The directory, keyed by the exact, case-sensitive name the file was
      saved under (`<username>.json`). */
  type UserDir = map<string, UserFile>
}
