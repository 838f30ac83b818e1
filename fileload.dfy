/**
 * The File Loader's decisions: which selected files are read at all, and
 * what a completed read does.
 */
module FileLoad {
  import opened Wrappers
  import opened Text

  /** 5 MiB, the largest size that is still read. */
  const MaxFileSize: nat := 5 * 1024 * 1024

  const TooLargeMessage: string := "File is too large. Maximum size is 5MB."
  const LoadedMessage: string := "File loaded successfully! Click \"Translate\" to continue."
  const NotTextMessage: string := "Please upload a .txt file."
  const ReadErrorMessage: string := "Error reading file. Please try again."

  /** The two properties of a selected file the page looks at. */
  datatype FileInfo = FileInfo(name: string, size: nat)

  datatype UploadDecision =
    | NoFile     // nothing selected: return at once
    | TooLarge   // report, never read
    | Unread     // passes the size check, but not named *.txt: no read is started
    | ReadText   // `readAsText` is called

  /** `handleFileUpload`'s checks, in their order. */
  function Decide(file: Option<FileInfo>): (d: UploadDecision)
    ensures d == NoFile <==> file.None?
    ensures d == TooLarge <==> file.Some? && file.value.size > MaxFileSize
    ensures d == ReadText <==> file.Some? && file.value.size <= MaxFileSize && EndsWith(file.value.name, ".txt")
    ensures d == Unread <==> file.Some? && file.value.size <= MaxFileSize && !EndsWith(file.value.name, ".txt")
  {
    match file
    case None => NoFile
    case Some(f) =>
      if f.size > MaxFileSize then TooLarge
      else if EndsWith(f.name, ".txt") then ReadText
      else Unread
  }

  /** The size limit is inclusive: a 5 MiB text file is read, one byte more is refused, and so is 6 MiB. */
  lemma SizeBoundary(name: string)
    requires EndsWith(name, ".txt")
    ensures Decide(Some(FileInfo(name, 5 * 1024 * 1024))) == ReadText
    ensures Decide(Some(FileInfo(name, 5 * 1024 * 1024 + 1))) == TooLarge
    ensures Decide(Some(FileInfo(name, 6 * 1024 * 1024))) == TooLarge
  {
  }

  /** The test inside the reader's load handler: does the content replace the input? */
  predicate LoadAccepted(name: string) {
    EndsWith(name, ".txt")
  }

  /**
   * A read is only started for names the load handler accepts, so the
   * handler's "Please upload a .txt file." branch is never taken.
   */
  lemma NotTextBranchUnreachable(file: Option<FileInfo>)
    requires Decide(file) == ReadText
    ensures file.Some? && LoadAccepted(file.value.name)
  {
  }
}
