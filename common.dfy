/** Value types shared by the whole model: Java's nullable references, the
    checked IOException, identifiers, clock values and uploaded files. */
module Common {

  /** A Java reference that may be null. */
  datatype Option<+T> = None | Some(value: T)

  /** The outcome of a call that declares `throws IOException`. */
  datatype Result<+T> = Ok(value: T) | IOFailure

  /** A java.util.UUID, identified by its canonical text (what toString gives). */
  type Uuid = string

  /** A java.time.LocalDateTime, as a point on a discrete, totally ordered time line. */
  type Instant = int

  /** A Spring MultipartFile: what the handlers and services read of an upload. */
  datatype MultipartFile = MultipartFile(originalFilename: Option<string>, contentType: Option<string>, size: nat)
  {
    /** MultipartFile.isEmpty: no file content was sent. */
    predicate IsEmpty() { size == 0 }
  }

  /** The guard `file != null && !file.isEmpty()` shared by the service and the form. */
  predicate HasContent(file: Option<MultipartFile>) {
    file.Some? && !file.value.IsEmpty()
  }

  /** Java's string conversion of a possibly-null String in a concatenation. */
  function JavaText(s: Option<string>): string {
    match s
    case None => "null"
    case Some(t) => t
  }
}
