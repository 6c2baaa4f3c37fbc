/** The upload directory, seen as the set of file names it holds. Reading
    and writing file contents is not part of the model. */
module Storage {
  import opened Common
  import opened JavaStrings

  /** One call the file store received; the log keeps them in order. */
  datatype FileOp = StoreRequested(tugasId: Uuid, file: MultipartFile) | DeleteRequested(filename: Option<string>)

  /** The name storeFile gives an upload for a task: "<task id>_<original name>",
      where a missing original name reads "null". */
  function StoredName(tugasId: Uuid, file: MultipartFile): string {
    tugasId + "_" + JavaText(file.originalFilename)
  }

  class FileStorage {
    var files: set<string>
    ghost var log: seq<FileOp>

    constructor ()
      ensures files == {} && log == []
    {
      files := {};
      log := [];
    }

    /** storeFile: an empty upload, or a failing copy (`ioFails`, the state of
        the disk), throws IOException and stores nothing; otherwise the file is
        written under StoredName, replacing a file of that name. */
    method StoreFile(file: MultipartFile, tugasId: Uuid, ioFails: bool) returns (r: Result<string>)
      modifies this
      ensures file.IsEmpty() || ioFails ==> r == IOFailure && files == old(files)
      ensures !file.IsEmpty() && !ioFails ==>
        r == Ok(StoredName(tugasId, file)) && files == old(files) + {StoredName(tugasId, file)}
      ensures log == old(log) + [StoreRequested(tugasId, file)]
    {
      log := log + [StoreRequested(tugasId, file)];
      var filename := StoredName(tugasId, file);
      if file.IsEmpty() || ioFails {
        return IOFailure;
      }
      files := files + {filename};
      r := Ok(filename);
    }

    /** deleteFile: a null or blank name is ignored; any other name is removed
        if present (deleteIfExists). */
    method DeleteFile(filename: Option<string>)
      modifies this
      ensures files == if filename.None? || IsBlank(filename.value) then old(files) else old(files) - {filename.value}
      ensures log == old(log) + [DeleteRequested(filename)]
    {
      log := log + [DeleteRequested(filename)];
      if filename.None? || IsBlank(filename.value) {
        return;
      }
      files := files - {filename.value};
    }
  }
}
