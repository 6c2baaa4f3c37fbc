/** TugasController: the JSON API under /api/tugas. Each endpoint refuses an
    unauthenticated request with 401, calls the service and maps its outcome
    (null, IOException, a parse failure) to a status and a message. */
module Controllers {
  import opened Common
  import opened JavaStrings
  import opened Entities
  import opened Repository
  import opened Storage
  import opened Services
  import Auth

  /** The data an ApiResponse carries: nothing, one task or a list of tasks,
      each as the values of its fields. */
  datatype Payload = NoData | One(row: TugasRow) | Many(rows: seq<TugasRow>)

  /** The HTTP status and the ApiResponse body ("status", "message", "data"). */
  datatype ApiResponse = ApiResponse(httpStatus: int, status: string, message: string, data: Payload)

  const Unauthorized := ApiResponse(401, "fail", "Unauthorized", NoData)
  const NotFound := ApiResponse(404, "fail", "Tugas tidak ditemukan", NoData)
  const MsgListed := "Berhasil mengambil data tugas"
  const MsgCreated := "Tugas berhasil ditambahkan"
  const MsgUpdated := "Tugas berhasil diupdate"
  const MsgStatusUpdated := "Status berhasil diupdate"
  const MsgDeleted := "Tugas berhasil dihapus"
  const UploadFailed := ApiResponse(500, "error", "Gagal upload gambar", NoData)
  const ImageFailed := ApiResponse(500, "error", "Gagal proses gambar", NoData)
  const BadDateOnUpdate := ApiResponse(400, "fail", "Format tanggal salah", NoData)
  const BadDatePrefix := "Format data salah (pastikan tanggal formatnya 'YYYY-MM-DDTHH:MM'): "

  /** The outcome of LocalDateTime.parse: a date-time, or the exception's message. */
  datatype DateParse = Parsed(value: Instant) | Unparseable(message: string)

  /** The status updateStatus stores for a raw request body: every double
      quote removed, then surrounding spaces and control characters trimmed. */
  function CleanStatus(body: string): (status: string)
    ensures '"' !in status
    ensures IsTrimOf(status, RemoveChar(body, '"'))
  {
    Trim(RemoveChar(body, '"'))
  }

  /** Cleaning a cleaned status changes nothing. */
  lemma CleanStatusIdempotent(body: string)
    ensures CleanStatus(CleanStatus(body)) == CleanStatus(body)
  {
    var c := CleanStatus(body);
    assert RemoveChar(c, '"') == c;
    TrimIdempotent(RemoveChar(body, '"'));
  }

  /** A status sent as a JSON string and the same status sent bare are
      stored alike, whatever the status. */
  lemma CleanStatusIgnoresQuotes(status: string)
    ensures CleanStatus("\"" + status + "\"") == CleanStatus(status)
  {
    RemoveCharConcat("\"" + status, "\"", '"');
    RemoveCharConcat("\"", status, '"');
    assert RemoveChar("\"", '"') == [];
    assert RemoveChar("\"" + status + "\"", '"') == RemoveChar(status, '"');
  }

  /** A status with no quote and no surrounding blanks is stored as sent,
      bare or as a JSON string. */
  lemma CleanStatusUnquotes(status: string)
    requires '"' !in status
    requires status == [] || (!IsTrimmable(status[0]) && !IsTrimmable(status[|status| - 1]))
    ensures CleanStatus("\"" + status + "\"") == status
    ensures CleanStatus(status) == status
  {
    RemoveCharConcat("\"" + status, "\"", '"');
    RemoveCharConcat("\"", status, '"');
    assert RemoveChar("\"" + status + "\"", '"') == status;
    assert IsTrimAt(status, status, 0) by {
      assert status[0..|status|] == status;
    }
    TrimOfIsUnique(Trim(status), status, status);
  }

  /** The row `new Tugas(judul, mataKuliah, deskripsi, deadline, user)` holds. */
  function NewTugasRow(judul: string, mataKuliah: string, deskripsi: Option<string>, deadline: Instant, user: User): TugasRow {
    NullRow.(judul := Some(judul), mataKuliah := Some(mataKuliah), deskripsi := deskripsi,
             deadline := Some(deadline), user := Some(user), status := Some(DefaultStatus))
  }

  /** The row of the details updateTugas hands to the service. */
  function DetailsRow(judul: string, mataKuliah: string, deskripsi: Option<string>, deadline: Instant): TugasRow {
    NullRow.(judul := Some(judul), mataKuliah := Some(mataKuliah), deskripsi := deskripsi, deadline := Some(deadline))
  }

  class TugasController {
    const service: TugasService
    const authContext: Auth.AuthContext

    constructor (service: TugasService, authContext: Auth.AuthContext)
      ensures this.service == service && this.authContext == authContext
    {
      this.service := service;
      this.authContext := authContext;
    }

    /** GET /api/tugas: the authenticated user's tasks, as getAllTugas lists them. */
    method GetAllTugas() returns (resp: ApiResponse)
      requires service.Valid()
      ensures !authContext.IsAuthenticated() ==> resp == Unauthorized
      ensures authContext.IsAuthenticated() ==>
        resp.httpStatus == 200 && resp.status == "success" && resp.message == MsgListed &&
        resp.data.Many? && ListsTasksOf(service.repo.rows, authContext.authUser.value.id, resp.data.rows)
    {
      if !authContext.IsAuthenticated() {
        return Unauthorized;
      }
      var user := authContext.authUser.value;
      var tugasList := service.GetAllTugas(user.id);
      resp := ApiResponse(200, "success", MsgListed, Many(tugasList));
    }

    /** POST /api/tugas: builds the task for the authenticated user from the
        parameters and creates it. A deadline that does not parse gives 400 with
        the parser's message and changes nothing; a failing upload gives 500
        after the task itself was saved. */
    method CreateTugas(judul: string, mataKuliah: string, deskripsi: Option<string>, deadlineStr: string,
                       file: Option<MultipartFile>, parse: string -> DateParse,
                       freshId: Uuid, ioFails: bool, now: Instant)
      returns (resp: ApiResponse)
      requires service.Valid()
      requires freshId !in service.repo.rows
      modifies service.repo, service.storage
      ensures service.Valid()
      ensures !authContext.IsAuthenticated() || parse(deadlineStr).Unparseable? ==>
        service.repo.rows == old(service.repo.rows) && service.repo.log == old(service.repo.log) &&
        service.storage.files == old(service.storage.files) && service.storage.log == old(service.storage.log)
      ensures !authContext.IsAuthenticated() ==> resp == Unauthorized
      ensures authContext.IsAuthenticated() && parse(deadlineStr).Unparseable? ==>
        resp == ApiResponse(400, "fail", BadDatePrefix + parse(deadlineStr).message, NoData)
      ensures authContext.IsAuthenticated() && parse(deadlineStr).Parsed? ==>
        var first := Persisted(NewTugasRow(judul, mataKuliah, deskripsi, parse(deadlineStr).value, authContext.authUser.value),
                               old(service.repo.rows), freshId, now);
        first.id == Some(freshId) &&
        if !HasContent(file) then
          resp == ApiResponse(200, "success", MsgCreated, One(first)) &&
          service.repo.rows == old(service.repo.rows)[freshId := first] &&
          service.storage.files == old(service.storage.files)
        else if ioFails then
          resp == UploadFailed &&
          service.repo.rows == old(service.repo.rows)[freshId := first] &&
          service.storage.files == old(service.storage.files)
        else
          var second := Persisted(first.(fotoBukti := Some(StoredName(freshId, file.value))),
                                  old(service.repo.rows)[freshId := first], freshId, now);
          resp == ApiResponse(200, "success", MsgCreated, One(second)) &&
          service.repo.rows == old(service.repo.rows)[freshId := second] &&
          service.storage.files == old(service.storage.files) + {StoredName(freshId, file.value)}
    {
      if !authContext.IsAuthenticated() {
        return Unauthorized;
      }
      var user := authContext.authUser.value;
      var deadline := parse(deadlineStr);
      if deadline.Unparseable? {
        return ApiResponse(400, "fail", BadDatePrefix + deadline.message, NoData);
      }
      var newTugas := new Tugas(Some(judul), Some(mataKuliah), deskripsi, Some(deadline.value), Some(user));
      var saved := service.CreateTugas(newTugas, file, freshId, ioFails, now);
      if saved.IOFailure? {
        return UploadFailed;
      }
      resp := ApiResponse(200, "success", MsgCreated, One(saved.value.Row()));
    }

    /** PUT /api/tugas/{id}: copies judul, mataKuliah, deskripsi and the parsed
        deadline onto the stored task (and replaces its image when a file is
        sent). 404 for an absent id, 500 when the image cannot be stored, 400
        for a deadline that does not parse. After a 500 the copied columns are
        still committed. */
    method UpdateTugas(id: Uuid, judul: string, mataKuliah: string, deskripsi: Option<string>, deadlineStr: string,
                       file: Option<MultipartFile>, parse: string -> DateParse, ioFails: bool, now: Instant)
      returns (resp: ApiResponse)
      requires service.Valid()
      modifies service.repo, service.storage
      ensures service.Valid()
      ensures !authContext.IsAuthenticated() || parse(deadlineStr).Unparseable? || id !in old(service.repo.rows) ==>
        service.repo.rows == old(service.repo.rows) && service.repo.log == old(service.repo.log) &&
        service.storage.files == old(service.storage.files) && service.storage.log == old(service.storage.log)
      ensures !authContext.IsAuthenticated() ==> resp == Unauthorized
      ensures authContext.IsAuthenticated() && parse(deadlineStr).Unparseable? ==> resp == BadDateOnUpdate
      ensures authContext.IsAuthenticated() && parse(deadlineStr).Parsed? ==>
        var details := DetailsRow(judul, mataKuliah, deskripsi, parse(deadlineStr).value);
        if id !in old(service.repo.rows) then resp == NotFound
        else
          var stored := old(service.repo.rows)[id];
          var updated := Persisted(WithDetails(stored, details), old(service.repo.rows), id, now);
          if !HasContent(file) then
            resp == ApiResponse(200, "success", MsgUpdated, One(updated)) &&
            service.repo.rows == old(service.repo.rows)[id := updated] &&
            service.storage.files == old(service.storage.files) && service.storage.log == old(service.storage.log)
          else if ioFails then
            resp == ImageFailed && service.repo.rows == old(service.repo.rows)[id := updated] &&
            service.storage.files == AfterDelete(old(service.storage.files), stored.fotoBukti)
          else
            var withPhoto := Persisted(WithDetails(stored, details).(fotoBukti := Some(StoredName(id, file.value))),
                                       old(service.repo.rows), id, now);
            resp == ApiResponse(200, "success", MsgUpdated, One(withPhoto)) &&
            service.repo.rows == old(service.repo.rows)[id := withPhoto] &&
            service.storage.files == AfterDelete(old(service.storage.files), stored.fotoBukti) + {StoredName(id, file.value)}
    {
      if !authContext.IsAuthenticated() {
        return Unauthorized;
      }
      var deadline := parse(deadlineStr);
      if deadline.Unparseable? {
        return BadDateOnUpdate;
      }
      var tugasDetails := new Tugas.Empty();
      tugasDetails.SetJudul(Some(judul));
      tugasDetails.SetMataKuliah(Some(mataKuliah));
      tugasDetails.SetDeskripsi(deskripsi);
      tugasDetails.SetDeadline(Some(deadline.value));
      var updated := service.UpdateTugas(id, tugasDetails, file, ioFails, now);
      if updated.IOFailure? {
        return ImageFailed;
      }
      if updated.value == null {
        return NotFound;
      }
      resp := ApiResponse(200, "success", MsgUpdated, One(updated.value.Row()));
    }

    /** PATCH /api/tugas/{id}/status: stores the cleaned body as the status;
        404 for an absent id. */
    method UpdateStatus(id: Uuid, body: string, now: Instant) returns (resp: ApiResponse)
      requires service.Valid()
      modifies service.repo
      ensures service.Valid()
      ensures !authContext.IsAuthenticated() || id !in old(service.repo.rows) ==>
        service.repo.rows == old(service.repo.rows) && service.repo.log == old(service.repo.log)
      ensures !authContext.IsAuthenticated() ==> resp == Unauthorized
      ensures authContext.IsAuthenticated() ==>
        if id !in old(service.repo.rows) then resp == NotFound
        else
          var updated := Persisted(old(service.repo.rows)[id].(status := Some(CleanStatus(body))),
                                   old(service.repo.rows), id, now);
          resp == ApiResponse(200, "success", MsgStatusUpdated, One(updated)) &&
          service.repo.rows == old(service.repo.rows)[id := updated]
    {
      if !authContext.IsAuthenticated() {
        return Unauthorized;
      }
      var cleanStatus := CleanStatus(body);
      var updated := service.UpdateStatus(id, Some(cleanStatus), now);
      if updated == null {
        return NotFound;
      }
      resp := ApiResponse(200, "success", MsgStatusUpdated, One(updated.Row()));
    }

    /** DELETE /api/tugas/{id}: deletes the task and its image; 200 whether or
        not the id existed. */
    method DeleteTugas(id: Uuid) returns (resp: ApiResponse)
      requires service.Valid()
      modifies service.repo, service.storage
      ensures service.Valid()
      ensures !authContext.IsAuthenticated() ==>
        resp == Unauthorized &&
        service.repo.rows == old(service.repo.rows) && service.repo.log == old(service.repo.log) &&
        service.storage.files == old(service.storage.files) && service.storage.log == old(service.storage.log)
      ensures authContext.IsAuthenticated() ==>
        resp == ApiResponse(200, "success", MsgDeleted, NoData) &&
        service.repo.rows == old(service.repo.rows) - {id} &&
        service.storage.files == (if id in old(service.repo.rows)
                                  then AfterDelete(old(service.storage.files), old(service.repo.rows)[id].fotoBukti)
                                  else old(service.storage.files))
    {
      if !authContext.IsAuthenticated() {
        return Unauthorized;
      }
      service.DeleteTugas(id);
      resp := ApiResponse(200, "success", MsgDeleted, NoData);
    }
  }
}
