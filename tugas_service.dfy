/** TugasService: task reads and writes over the repository, with the proof
    image kept in the file store. */
module Services {
  import opened Common
  import opened Entities
  import opened Repository
  import opened Storage

  /** The row updateTugas writes: the four text/date columns copied from the
      details, every other column as stored. */
  function WithDetails(stored: TugasRow, details: TugasRow): TugasRow {
    stored.(judul := details.judul, mataKuliah := details.mataKuliah,
            deskripsi := details.deskripsi, deadline := details.deadline)
  }

  /** The files left after deleteFile(name). */
  function AfterDelete(files: set<string>, name: Option<string>): set<string> {
    if name.None? || JavaStrings.IsBlank(name.value) then files else files - {name.value}
  }

  class TugasService {
    const repo: TugasRepository
    const storage: FileStorage

    ghost predicate Valid()
      reads this, repo
    {
      repo.Valid()
    }

    constructor (repo: TugasRepository, storage: FileStorage)
      requires repo.Valid()
      ensures this.repo == repo && this.storage == storage && Valid()
    {
      this.repo := repo;
      this.storage := storage;
    }

    /** getAllTugas: the user's tasks in ascending deadline order. */
    method GetAllTugas(userId: Uuid) returns (ts: seq<TugasRow>)
      requires Valid()
      ensures ListsTasksOf(repo.rows, userId, ts)
    {
      ts := repo.FindAllByUserIdOrderByDeadlineAsc(userId);
    }

    /** getTugasById: the stored task for a present id, null for an absent one. */
    method GetTugasById(id: Uuid) returns (t: Tugas?)
      ensures t == null <==> id !in repo.rows
      ensures t != null ==> fresh(t) && t.Row() == repo.rows[id]
    {
      t := repo.FindById(id);
    }

    /** createTugas: saves the task (which gives it its id); a non-empty file
        is then stored under that id and the task saved again with the file
        name as fotoBukti. A failing store throws IOException after the first
        save, which stays: a checked exception does not roll the transaction back. */
    method CreateTugas(tugas: Tugas, file: Option<MultipartFile>, freshId: Uuid, ioFails: bool, now: Instant)
      returns (r: Result<Tugas>)
      requires Valid()
      requires tugas.id.None? ==> freshId !in repo.rows
      modifies repo, storage, tugas
      ensures Valid()
      ensures var first := Persisted(old(tugas.Row()), old(repo.rows), freshId, now);
        var id := first.id.value;
        if !HasContent(file) then
          r == Ok(tugas) && tugas.Row() == first &&
          repo.rows == old(repo.rows)[id := first] && repo.log == old(repo.log) + [Saved(first)] &&
          storage.files == old(storage.files) && storage.log == old(storage.log)
        else if ioFails then
          r == IOFailure && tugas.Row() == first &&
          repo.rows == old(repo.rows)[id := first] && repo.log == old(repo.log) + [Saved(first)] &&
          storage.files == old(storage.files) &&
          storage.log == old(storage.log) + [StoreRequested(id, file.value)]
        else
          var second := Persisted(first.(fotoBukti := Some(StoredName(id, file.value))),
                                  old(repo.rows)[id := first], freshId, now);
          r == Ok(tugas) && tugas.Row() == second &&
          repo.rows == old(repo.rows)[id := second] &&
          repo.log == old(repo.log) + [Saved(first), Saved(second)] &&
          storage.files == old(storage.files) + {StoredName(id, file.value)} &&
          storage.log == old(storage.log) + [StoreRequested(id, file.value)]
    {
      repo.Save(tugas, freshId, now);
      if HasContent(file) {
        var filename := storage.StoreFile(file.value, tugas.id.value, ioFails);
        if filename.IOFailure? {
          return IOFailure;
        }
        tugas.SetFotoBukti(Some(filename.value));
        repo.Save(tugas, freshId, now);
        return Ok(tugas);
      }
      r := Ok(tugas);
    }

    /** updateTugas: null for an absent id, with nothing changed. Otherwise
        judul, mataKuliah, deskripsi and deadline are copied from the details;
        with a non-empty file the old proof file is deleted first, then the new
        one stored and named in fotoBukti; then the task is saved. A failing
        store throws IOException before the save; the checked exception does
        not roll the transaction back, so its commit still writes the entity
        the setters changed (the copied columns, with the old fotoBukti). */
    method UpdateTugas(id: Uuid, details: Tugas, file: Option<MultipartFile>, ioFails: bool, now: Instant)
      returns (r: Result<Tugas?>)
      requires Valid()
      modifies repo, storage
      ensures Valid()
      ensures id !in old(repo.rows) ==>
        r == Ok(null) && repo.rows == old(repo.rows) && repo.log == old(repo.log) &&
        storage.files == old(storage.files) && storage.log == old(storage.log)
      ensures id in old(repo.rows) ==>
        var stored := old(repo.rows)[id];
        var updated := Persisted(WithDetails(stored, details.Row()), old(repo.rows), id, now);
        if !HasContent(file) then
          r.Ok? && r.value != null && fresh(r.value) && r.value.Row() == updated &&
          repo.rows == old(repo.rows)[id := updated] && repo.log == old(repo.log) + [Saved(updated)] &&
          storage.files == old(storage.files) && storage.log == old(storage.log)
        else if ioFails then
          r == IOFailure &&
          repo.rows == old(repo.rows)[id := updated] && repo.log == old(repo.log) + [Saved(updated)] &&
          storage.files == AfterDelete(old(storage.files), stored.fotoBukti) &&
          storage.log == old(storage.log) + [DeleteRequested(stored.fotoBukti), StoreRequested(id, file.value)]
        else
          var withPhoto := Persisted(WithDetails(stored, details.Row()).(fotoBukti := Some(StoredName(id, file.value))),
                                     old(repo.rows), id, now);
          r.Ok? && r.value != null && fresh(r.value) && r.value.Row() == withPhoto &&
          repo.rows == old(repo.rows)[id := withPhoto] && repo.log == old(repo.log) + [Saved(withPhoto)] &&
          storage.files == AfterDelete(old(storage.files), stored.fotoBukti) + {StoredName(id, file.value)} &&
          storage.log == old(storage.log) + [DeleteRequested(stored.fotoBukti), StoreRequested(id, file.value)]
    {
      var existing := GetTugasById(id);
      if existing == null {
        return Ok(null);
      }
      existing.SetJudul(details.judul);
      existing.SetMataKuliah(details.mataKuliah);
      existing.SetDeskripsi(details.deskripsi);
      existing.SetDeadline(details.deadline);
      if HasContent(file) {
        storage.DeleteFile(existing.fotoBukti);
        var newFilename := storage.StoreFile(file.value, existing.id.value, ioFails);
        if newFilename.IOFailure? {
          // the commit flushes the managed entity before the exception leaves
          repo.Save(existing, id, now);
          return IOFailure;
        }
        existing.SetFotoBukti(Some(newFilename.value));
      }
      repo.Save(existing, id, now);
      r := Ok(existing);
    }

    /** updateStatus: null for an absent id, with nothing changed; otherwise
        only the status changes, and the task is saved. */
    method UpdateStatus(id: Uuid, status: Option<string>, now: Instant) returns (t: Tugas?)
      requires Valid()
      modifies repo
      ensures Valid()
      ensures id !in old(repo.rows) ==> t == null && repo.rows == old(repo.rows) && repo.log == old(repo.log)
      ensures id in old(repo.rows) ==>
        var updated := Persisted(old(repo.rows)[id].(status := status), old(repo.rows), id, now);
        t != null && fresh(t) && t.Row() == updated &&
        repo.rows == old(repo.rows)[id := updated] && repo.log == old(repo.log) + [Saved(updated)]
    {
      t := GetTugasById(id);
      if t != null {
        t.SetStatus(status);
        repo.Save(t, id, now);
        return t;
      }
      return null;
    }

    /** deleteTugas: for a present id the proof file is deleted and then the
        row; an absent id changes nothing. */
    method DeleteTugas(id: Uuid)
      requires Valid()
      modifies repo, storage
      ensures Valid()
      ensures id !in old(repo.rows) ==>
        repo.rows == old(repo.rows) && repo.log == old(repo.log) &&
        storage.files == old(storage.files) && storage.log == old(storage.log)
      ensures id in old(repo.rows) ==>
        var stored := old(repo.rows)[id];
        repo.rows == old(repo.rows) - {id} && repo.log == old(repo.log) + [Deleted(stored)] &&
        storage.files == AfterDelete(old(storage.files), stored.fotoBukti) &&
        storage.log == old(storage.log) + [DeleteRequested(stored.fotoBukti)]
    {
      var tugas := GetTugasById(id);
      if tugas != null {
        storage.DeleteFile(tugas.fotoBukti);
        repo.Delete(tugas);
      }
    }
  }
}
