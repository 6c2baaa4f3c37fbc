/** TugasRepository: the table of tasks as a map from id to stored row, with
    the queries and updates the service uses (findById, save, delete and the
    derived query findAllByUserIdOrderByDeadlineAsc). */
module Repository {
  import opened Common
  import opened Entities

  /** One write the repository made (a save call, or the flush of a changed
      entity when its transaction commits); the log keeps them in order. */
  datatype RepoOp = Saved(row: TugasRow) | Deleted(row: TugasRow)

  /** The task belongs to the user with this id. */
  predicate OwnedBy(t: TugasRow, userId: Uuid) {
    t.user.Some? && t.user.value.id == userId
  }

  /** What findAllByUserIdOrderByDeadlineAsc promises of its list: deadlines
      ascend; where null deadlines go is the database's choice. */
  ghost predicate AscendingByDeadline(ts: seq<TugasRow>) {
    forall i, j :: 0 <= i < j < |ts| && ts[i].deadline.Some? && ts[j].deadline.Some? ==>
      ts[i].deadline.value <= ts[j].deadline.value
  }

  /** ts lists every stored task of the user exactly once, as stored, in
      ascending deadline order. */
  ghost predicate ListsTasksOf(rows: map<Uuid, TugasRow>, userId: Uuid, ts: seq<TugasRow>) {
    (forall i :: 0 <= i < |ts| ==>
      ts[i].id.Some? && ts[i].id.value in rows && rows[ts[i].id.value] == ts[i] && OwnedBy(ts[i], userId)) &&
    (forall k :: k in rows && OwnedBy(rows[k], userId) ==> rows[k] in ts) &&
    (forall i, j :: 0 <= i < j < |ts| ==> ts[i].id != ts[j].id) &&
    AscendingByDeadline(ts)
  }

  /** The order this repository lists in: ascending deadlines, null deadlines last. */
  predicate DeadlineLe(a: TugasRow, b: TugasRow) {
    b.deadline.None? || (a.deadline.Some? && a.deadline.value <= b.deadline.value)
  }

  ghost predicate NullsLastSorted(ts: seq<TugasRow>) {
    forall i, j :: 0 <= i < j < |ts| ==> DeadlineLe(ts[i], ts[j])
  }

  /** Where x goes in a sorted list: after every row strictly before it. */
  function InsertionIndex(x: TugasRow, s: seq<TugasRow>): (p: nat)
    ensures p <= |s|
    ensures forall i :: 0 <= i < p ==> !DeadlineLe(x, s[i])
    ensures p < |s| ==> DeadlineLe(x, s[p])
  {
    if s == [] || DeadlineLe(x, s[0]) then 0 else 1 + InsertionIndex(x, s[1..])
  }

  /** Inserting at InsertionIndex keeps a list sorted. */
  lemma InsertKeepsOrder(x: TugasRow, s: seq<TugasRow>, p: nat)
    requires NullsLastSorted(s)
    requires p == InsertionIndex(x, s)
    ensures NullsLastSorted(s[..p] + [x] + s[p..])
  {
    var r := s[..p] + [x] + s[p..];
    forall i, j | 0 <= i < j < |r|
      ensures DeadlineLe(r[i], r[j])
    {
      if j < p {
        assert r[i] == s[i] && r[j] == s[j];
      } else if j == p {
        assert r[i] == s[i] && r[j] == x;
      } else if i == p {
        assert r[i] == x && r[j] == s[j - 1];
        assert DeadlineLe(x, s[p]);
      } else if i < p {
        assert r[i] == s[i] && r[j] == s[j - 1];
      } else {
        assert r[i] == s[i - 1] && r[j] == s[j - 1];
      }
    }
  }

  class TugasRepository {
    var rows: map<Uuid, TugasRow>
    ghost var log: seq<RepoOp>

    /** Every row is stored under its own id. */
    ghost predicate Valid()
      reads this
    {
      forall k :: k in rows ==> rows[k].id == Some(k)
    }

    constructor ()
      ensures Valid() && rows == map[] && log == []
    {
      rows := map[];
      log := [];
    }

    /** findById(id).orElse(null): the stored entity, or null. */
    method FindById(id: Uuid) returns (t: Tugas?)
      ensures t == null <==> id !in rows
      ensures t != null ==> fresh(t) && t.Row() == rows[id]
    {
      if id in rows {
        t := new Tugas.Load(rows[id]);
      } else {
        t := null;
      }
    }

    /** save: an entity without an id is persisted: @PrePersist runs and the
        entity gets the generated id (`freshId`, a UUID no row has). An entity
        with an id is merged: @PreUpdate runs when its row differs from the
        stored one. The row is then written under the entity's id. */
    method Save(t: Tugas, freshId: Uuid, now: Instant)
      requires Valid()
      requires t.id.None? ==> freshId !in rows
      modifies this, t
      ensures Valid()
      ensures t.Row() == Persisted(old(t.Row()), old(rows), freshId, now)
      ensures rows == old(rows)[t.id.value := t.Row()]
      ensures log == old(log) + [Saved(t.Row())]
    {
      if t.id.None? {
        t.OnCreate(now);
        t.SetId(Some(freshId));
      } else if t.id.value !in rows || rows[t.id.value] != t.Row() {
        t.OnUpdate(now);
      }
      rows := rows[t.id.value := t.Row()];
      log := log + [Saved(t.Row())];
    }

    /** delete: removes the row stored under the entity's id; an entity without
        an id was never stored and nothing happens. */
    method Delete(t: Tugas)
      requires Valid()
      modifies this
      ensures Valid()
      ensures rows == if t.id.Some? then old(rows) - {t.id.value} else old(rows)
      ensures log == old(log) + [Deleted(t.Row())]
    {
      if t.id.Some? {
        rows := rows - {t.id.value};
      }
      log := log + [Deleted(t.Row())];
    }

    /** findAllByUserIdOrderByDeadlineAsc: the user's tasks, deadline first. */
    method FindAllByUserIdOrderByDeadlineAsc(userId: Uuid) returns (ts: seq<TugasRow>)
      requires Valid()
      ensures ListsTasksOf(rows, userId, ts)
    {
      ts := [];
      var pending := rows.Keys;
      while pending != {}
        invariant pending <= rows.Keys
        invariant NullsLastSorted(ts)
        invariant ListedSoFar(rows, userId, pending, ts)
        decreases pending
      {
        var k :| k in pending;
        if OwnedBy(rows[k], userId) {
          var p := InsertionIndex(rows[k], ts);
          InsertKeepsOrder(rows[k], ts, p);
          ListedSoFarInsert(rows, userId, pending, ts, k, p);
          ts := ts[..p] + [rows[k]] + ts[p..];
        }
        pending := pending - {k};
      }
      ListedSoFarDone(rows, userId, ts);
    }
  }

  /** The row save writes for an entity whose fields are `r`, given the stored
      rows, the generated id and the clock. */
  function Persisted(r: TugasRow, rows: map<Uuid, TugasRow>, freshId: Uuid, now: Instant): TugasRow {
    if r.id.None? then
      r.(id := Some(freshId), createdAt := Some(now), updatedAt := Some(now),
         status := if r.status.None? then Some(DefaultStatus) else r.status)
    else if r.id.value !in rows || rows[r.id.value] != r then r.(updatedAt := Some(now))
    else r
  }

  /** Saving keeps every column the application sets: only the id (when new),
      the timestamps and a null status change, and a saved row always has an
      id and a status. */
  lemma PersistedKeepsContent(r: TugasRow, rows: map<Uuid, TugasRow>, freshId: Uuid, now: Instant)
    ensures var p := Persisted(r, rows, freshId, now);
      p.judul == r.judul && p.mataKuliah == r.mataKuliah && p.deskripsi == r.deskripsi &&
      p.deadline == r.deadline && p.fotoBukti == r.fotoBukti && p.user == r.user
    ensures var p := Persisted(r, rows, freshId, now);
      p.id == (if r.id.Some? then r.id else Some(freshId)) &&
      (r.status.Some? ==> p.status == r.status) &&
      (r.id.None? ==> p.status.Some? && p.createdAt == Some(now))
    ensures r.id.Some? ==> Persisted(r, rows, freshId, now).createdAt == r.createdAt
  {
  }

  /** Saving the same entity twice without a change writes nothing new: the
      second save leaves the row as the first wrote it. */
  lemma PersistedIdempotent(r: TugasRow, rows: map<Uuid, TugasRow>, freshId: Uuid, now: Instant)
    ensures var p := Persisted(r, rows, freshId, now);
      Persisted(p, rows[p.id.value := p], freshId, now) == p
  {
  }

  /** The loop state of the listing: ts holds, once each and as stored, exactly
      the user's rows whose keys are no longer pending. */
  ghost predicate ListedSoFar(rows: map<Uuid, TugasRow>, userId: Uuid, pending: set<Uuid>, ts: seq<TugasRow>) {
    (forall i :: 0 <= i < |ts| ==>
      ts[i].id.Some? && ts[i].id.value in rows && rows[ts[i].id.value] == ts[i] &&
      OwnedBy(ts[i], userId) && ts[i].id.value !in pending) &&
    (forall k :: k in rows && k !in pending && OwnedBy(rows[k], userId) ==> rows[k] in ts) &&
    (forall i, j :: 0 <= i < j < |ts| ==> ts[i].id != ts[j].id)
  }

  lemma ListedSoFarInsert(rows: map<Uuid, TugasRow>, userId: Uuid, pending: set<Uuid>, ts: seq<TugasRow>, k: Uuid, p: nat)
    requires ListedSoFar(rows, userId, pending, ts)
    requires k in pending && k in rows && rows[k].id == Some(k) && OwnedBy(rows[k], userId)
    requires p <= |ts|
    ensures ListedSoFar(rows, userId, pending - {k}, ts[..p] + [rows[k]] + ts[p..])
  {
    var r := ts[..p] + [rows[k]] + ts[p..];
    InsertAt(ts, rows[k], p);
    forall i | 0 <= i < |r|
      ensures r[i].id.Some? && r[i].id.value in rows && rows[r[i].id.value] == r[i]
      ensures OwnedBy(r[i], userId) && r[i].id.value !in pending - {k}
    {
      if i != p {
        var j := if i < p then i else i - 1;
        assert r[i] == ts[j];
      }
    }
    forall q | q in rows && q !in pending - {k} && OwnedBy(rows[q], userId)
      ensures rows[q] in r
    {
      if q != k {
        var i :| 0 <= i < |ts| && ts[i] == rows[q];
        assert r[if i < p then i else i + 1] == rows[q];
      } else {
        assert r[p] == rows[k];
      }
    }
    forall i, j | 0 <= i < j < |r|
      ensures r[i].id != r[j].id
    {
      var i' := if i < p then i else i - 1;
      var j' := if j < p then j else j - 1;
      if i != p && j != p {
        assert r[i] == ts[i'] && r[j] == ts[j'];
      } else if i == p {
        assert r[j] == ts[j'];
      } else {
        assert r[i] == ts[i'];
      }
    }
  }

  /** Where each element of ts lands once x is inserted at index p. */
  lemma InsertAt<T>(ts: seq<T>, x: T, p: nat)
    requires p <= |ts|
    ensures var r := ts[..p] + [x] + ts[p..];
      |r| == |ts| + 1 && r[p] == x &&
      (forall i :: 0 <= i < p ==> r[i] == ts[i]) &&
      (forall i :: p < i < |r| ==> r[i] == ts[i - 1])
  {
  }

  lemma ListedSoFarDone(rows: map<Uuid, TugasRow>, userId: Uuid, ts: seq<TugasRow>)
    requires ListedSoFar(rows, userId, {}, ts)
    requires NullsLastSorted(ts)
    ensures ListsTasksOf(rows, userId, ts)
  {
  }
}
