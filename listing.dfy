/** The classification step of the `/files` listing: each entry the
    directory read reports becomes a `{name, type}` row of the JSON answer. */
module Listing {

  /** What the directory read reports about one entry. */
  datatype DirEntry = DirEntry(name: string, isDirectory: bool)

  /** The `type` field of a listing row. */
  datatype EntryType = Directory | File

  /** One row of the listing sent to the client. */
  datatype FileInfo = FileInfo(name: string, entryType: EntryType)

  /** The string the JSON answer carries for a type. */
  function TypeName(t: EntryType): (r: string)
    ensures r == "directory" || r == "file"
    ensures r == "directory" <==> t == Directory
  {
    match t
    case Directory => "directory"
    case File => "file"
  }

  /** The row for one entry: its name, and the type the JSON answer names
      "directory" for a directory and "file" for anything else. */
  function Classify(e: DirEntry): (r: FileInfo)
    ensures r.name == e.name
    ensures TypeName(r.entryType) == (if e.isDirectory then "directory" else "file")
  {
    FileInfo(e.name, if e.isDirectory then Directory else File)
  }

  /** The listing rows: one per entry, in the order of the directory read,
      with the same name, typed as a directory exactly for directories. */
  function ListFiles(entries: seq<DirEntry>): (r: seq<FileInfo>)
    ensures |r| == |entries|
    ensures forall i :: 0 <= i < |r| ==>
              r[i].name == entries[i].name && (r[i].entryType == Directory <==> entries[i].isDirectory)
    decreases |entries|
  {
    if entries == [] then []
    else [Classify(entries[0])] + ListFiles(entries[1..])
  }

  /** Listing a concatenation lists the parts one after the other, so the
      rows of a directory never depend on the entries around them. */
  lemma ListFilesAppend(a: seq<DirEntry>, b: seq<DirEntry>)
    ensures ListFiles(a + b) == ListFiles(a) + ListFiles(b)
  {
  }
}
