/** The Tugas (task) entity: a mutable object with setters and the JPA
    lifecycle hooks, and the value of its columns as one row. */
module Entities {
  import opened Common

  /** The part of a User the core reads: its id and its display name. */
  datatype User = User(id: Uuid, name: string)

  /** Status of a task that has not been finished yet. */
  const DefaultStatus := "Belum Selesai"

  /** The columns of one task. Each is a nullable field of the entity; the
      table declares judul, mata_kuliah, status, user_id, created_at and
      updated_at NOT NULL, which the model does not enforce. */
  datatype TugasRow = TugasRow(
    id: Option<Uuid>,
    judul: Option<string>,
    mataKuliah: Option<string>,
    deskripsi: Option<string>,
    deadline: Option<Instant>,
    fotoBukti: Option<string>,
    status: Option<string>,
    user: Option<User>,
    createdAt: Option<Instant>,
    updatedAt: Option<Instant>)

  /** A row whose every column is null. */
  const NullRow := TugasRow(None, None, None, None, None, None, None, None, None, None)

  /** The entity; getters are reads of its fields. */
  class Tugas {
    var id: Option<Uuid>
    var judul: Option<string>
    var mataKuliah: Option<string>
    var deskripsi: Option<string>
    var deadline: Option<Instant>
    var fotoBukti: Option<string>
    var status: Option<string>
    var user: Option<User>
    var createdAt: Option<Instant>
    var updatedAt: Option<Instant>

    /** The current value of every field. */
    function Row(): TugasRow
      reads this
    {
      TugasRow(id, judul, mataKuliah, deskripsi, deadline, fotoBukti, status, user, createdAt, updatedAt)
    }

    /** `new Tugas()`: every field null. */
    constructor Empty()
      ensures Row() == NullRow
    {
      id, judul, mataKuliah, deskripsi, deadline := None, None, None, None, None;
      fotoBukti, status, user, createdAt, updatedAt := None, None, None, None, None;
    }

    /** `new Tugas(judul, mataKuliah, deskripsi, deadline, user)`: stores its
        arguments, status "Belum Selesai", every other field null. */
    constructor (judul: Option<string>, mataKuliah: Option<string>, deskripsi: Option<string>,
                 deadline: Option<Instant>, user: Option<User>)
      ensures Row() == NullRow.(judul := judul, mataKuliah := mataKuliah, deskripsi := deskripsi,
                                deadline := deadline, user := user, status := Some(DefaultStatus))
    {
      this.id := None;
      this.judul := judul;
      this.mataKuliah := mataKuliah;
      this.deskripsi := deskripsi;
      this.deadline := deadline;
      this.fotoBukti := None;
      this.user := user;
      this.status := Some(DefaultStatus);
      this.createdAt, this.updatedAt := None, None;
    }

    /** An entity the persistence layer materialises from a stored row. */
    constructor Load(r: TugasRow)
      ensures Row() == r
    {
      id, judul, mataKuliah, deskripsi, deadline := r.id, r.judul, r.mataKuliah, r.deskripsi, r.deadline;
      fotoBukti, status, user, createdAt, updatedAt := r.fotoBukti, r.status, r.user, r.createdAt, r.updatedAt;
    }

    method SetId(x: Option<Uuid>)
      modifies this
      ensures Row() == old(Row()).(id := x)
    {
      id := x;
    }

    method SetJudul(x: Option<string>)
      modifies this
      ensures Row() == old(Row()).(judul := x)
    {
      judul := x;
    }

    method SetMataKuliah(x: Option<string>)
      modifies this
      ensures Row() == old(Row()).(mataKuliah := x)
    {
      mataKuliah := x;
    }

    method SetDeskripsi(x: Option<string>)
      modifies this
      ensures Row() == old(Row()).(deskripsi := x)
    {
      deskripsi := x;
    }

    method SetDeadline(x: Option<Instant>)
      modifies this
      ensures Row() == old(Row()).(deadline := x)
    {
      deadline := x;
    }

    method SetFotoBukti(x: Option<string>)
      modifies this
      ensures Row() == old(Row()).(fotoBukti := x)
    {
      fotoBukti := x;
    }

    method SetStatus(x: Option<string>)
      modifies this
      ensures Row() == old(Row()).(status := x)
    {
      status := x;
    }

    method SetUser(x: Option<User>)
      modifies this
      ensures Row() == old(Row()).(user := x)
    {
      user := x;
    }

    /** @PrePersist: stamps both timestamps with the clock and defaults a null
        status to "Belum Selesai"; a non-null status is kept. */
    method OnCreate(now: Instant)
      modifies this
      ensures Row() == old(Row()).(createdAt := Some(now), updatedAt := Some(now),
                                   status := if old(status).None? then Some(DefaultStatus) else old(status))
      ensures status.Some?
    {
      createdAt := Some(now);
      updatedAt := Some(now);
      if status == None {
        status := Some(DefaultStatus);
      }
    }

    /** @PreUpdate: only the update timestamp moves. */
    method OnUpdate(now: Instant)
      modifies this
      ensures Row() == old(Row()).(updatedAt := Some(now))
    {
      updatedAt := Some(now);
    }
  }
}
