/** TugasView: the server-rendered pages under /tugas. Every page first looks
    up the logged-in user and sends anyone else to the login page; the list
    page also counts the user's tasks as done, late or in progress. */
module Views {
  import opened Common
  import opened JavaStrings
  import opened Entities
  import opened Repository
  import opened Storage
  import opened Services

  const LoginRedirect := "redirect:/auth/login"
  const ListRedirect := "redirect:/tugas"
  const ListPage := "pages/tugas/index"
  const CreatePage := "pages/tugas/create"
  const EditPage := "pages/tugas/edit"
  const DoneStatus := "Selesai"

  /** The principal of a security-context authentication: one of the
      application's users, or anything else. */
  datatype Principal = UserPrincipal(user: User) | OtherPrincipal

  /** The authentication held by the security context. */
  datatype Authentication = Authentication(authenticated: bool, anonymous: bool, principal: Principal)

  /** getAuthenticatedUser: the user of an authenticated, non-anonymous
      authentication whose principal is a User; null otherwise. */
  function AuthenticatedUser(auth: Option<Authentication>): Option<User> {
    if auth.Some? && auth.value.authenticated && !auth.value.anonymous && auth.value.principal.UserPrincipal?
    then Some(auth.value.principal.user)
    else None
  }

  /** A flash attribute carried across the redirect. */
  datatype Flash = Flash(key: string, message: string)

  /** Where the dashboard counts a task. */
  datatype Category = Done | Late | InProgress

  /** "Selesai".equalsIgnoreCase(status): false for a null status. */
  predicate IsDone(status: Option<string>) {
    status.Some? && EqualsIgnoreCase(DoneStatus, status.value)
  }

  /** Done when its status is "Selesai" in any letter case; otherwise late
      when its deadline is strictly before now; otherwise in progress. */
  function Classify(t: TugasRow, now: Instant): Category {
    if IsDone(t.status) then Done
    else if t.deadline.Some? && t.deadline.value < now then Late
    else InProgress
  }

  /** The dashboard counters. */
  datatype Stats = Stats(selesai: nat, proses: nat, telat: nat)

  function Add(a: Stats, b: Stats): Stats {
    Stats(a.selesai + b.selesai, a.proses + b.proses, a.telat + b.telat)
  }

  function Count(c: Category): Stats {
    match c
    case Done => Stats(1, 0, 0)
    case InProgress => Stats(0, 1, 0)
    case Late => Stats(0, 0, 1)
  }

  /** The counters for the first n tasks of a list. */
  function TallyUpTo(ts: seq<TugasRow>, n: nat, now: Instant): Stats
    requires n <= |ts|
  {
    if n == 0 then Stats(0, 0, 0)
    else Add(TallyUpTo(ts, n - 1, now), Count(Classify(ts[n - 1], now)))
  }

  /** The counters for a whole list. */
  function Tally(ts: seq<TugasRow>, now: Instant): Stats {
    TallyUpTo(ts, |ts|, now)
  }

  /** The counters add up to the number of tasks counted: every task is
      counted exactly once. */
  lemma {:induction false} TallyCountsEachOnce(ts: seq<TugasRow>, n: nat, now: Instant)
    requires n <= |ts|
    ensures TallyUpTo(ts, n, now).selesai + TallyUpTo(ts, n, now).proses + TallyUpTo(ts, n, now).telat == n
  {
    if n > 0 {
      TallyCountsEachOnce(ts, n - 1, now);
    }
  }

  lemma AddAssociative(x: Stats, y: Stats, z: Stats)
    ensures Add(Add(x, y), z) == Add(x, Add(y, z))
    ensures Add(Add(x, y), z) == Add(Add(x, z), y)
  {
  }

  /** The counters for the first n tasks depend only on those tasks. */
  lemma {:induction false} TallyUpToPrefix(a: seq<TugasRow>, b: seq<TugasRow>, n: nat, now: Instant)
    requires n <= |a| && n <= |b| && a[..n] == b[..n]
    ensures TallyUpTo(a, n, now) == TallyUpTo(b, n, now)
  {
    if n > 0 {
      assert a[n - 1] == a[..n][n - 1] == b[..n][n - 1] == b[n - 1];
      assert a[..n - 1] == a[..n][..n - 1] == b[..n][..n - 1] == b[..n - 1];
      TallyUpToPrefix(a, b, n - 1, now);
    }
  }

  /** Counting a list followed by the first k tasks of another. */
  lemma {:induction false} TallyAppendUpTo(a: seq<TugasRow>, b: seq<TugasRow>, k: nat, now: Instant)
    requires k <= |b|
    ensures TallyUpTo(a + b, |a| + k, now) == Add(Tally(a, now), TallyUpTo(b, k, now))
  {
    if k == 0 {
      assert (a + b)[..|a|] == a[..|a|];
      TallyUpToPrefix(a + b, a, |a|, now);
    } else {
      assert (a + b)[|a| + k - 1] == b[k - 1];
      TallyAppendUpTo(a, b, k - 1, now);
      AddAssociative(Tally(a, now), TallyUpTo(b, k - 1, now), Count(Classify(b[k - 1], now)));
    }
  }

  /** Counting two lists is counting each and adding. */
  lemma TallyAppend(a: seq<TugasRow>, b: seq<TugasRow>, now: Instant)
    ensures Tally(a + b, now) == Add(Tally(a, now), Tally(b, now))
  {
    TallyAppendUpTo(a, b, |b|, now);
  }

  /** Counting a single task. */
  lemma TallySingle(x: TugasRow, now: Instant)
    ensures Tally([x], now) == Count(Classify(x, now))
  {
    assert TallyUpTo([x], 0, now) == Stats(0, 0, 0);
  }

  /** Counting a list with one task in its middle. */
  lemma TallySplit(b1: seq<TugasRow>, x: TugasRow, b2: seq<TugasRow>, now: Instant)
    ensures Tally(b1 + [x] + b2, now) == Add(Add(Tally(b1, now), Tally([x], now)), Tally(b2, now))
  {
    TallyAppend(b1 + [x], b2, now);
    TallyAppend(b1, [x], now);
  }

  /** Counting a list with one task taken out of its middle. */
  lemma TallyMiddle(b1: seq<TugasRow>, x: TugasRow, b2: seq<TugasRow>, now: Instant)
    ensures Tally(b1 + [x] + b2, now) == Add(Tally(b1 + b2, now), Count(Classify(x, now)))
  {
    TallySingle(x, now);
    TallySplit(b1, x, b2, now);
    TallyAppend(b1, b2, now);
    AddAssociative(Tally(b1, now), Tally([x], now), Tally(b2, now));
  }

  /** A list with the same elements as a' + [x] has x somewhere, and what
      surrounds it has the same elements as a'. */
  lemma PickOut<T>(a': seq<T>, x: T, b: seq<T>) returns (b1: seq<T>, b2: seq<T>)
    requires multiset(a' + [x]) == multiset(b)
    ensures b == b1 + [x] + b2
    ensures multiset(a') == multiset(b1 + b2)
  {
    assert x in multiset(b);
    var k :| 0 <= k < |b| && b[k] == x;
    b1, b2 := b[..k], b[k + 1..];
    assert b == b1 + [x] + b2;
    MultisetWithout(a', [], x);
    MultisetWithout(b1, b2, x);
  }

  /** Taking x out of b1 + [x] + b2 leaves the elements of b1 + b2. */
  lemma MultisetWithout<T>(b1: seq<T>, b2: seq<T>, x: T)
    ensures multiset(b1 + b2) == multiset(b1 + [x] + b2) - multiset{x}
  {
    assert multiset(b1 + [x] + b2) == multiset(b1) + multiset{x} + multiset(b2);
    assert multiset(b1 + b2) == multiset(b1) + multiset(b2);
  }

  /** The counters do not depend on the order of the list, so where the
      repository puts tasks without a deadline does not change them. */
  lemma {:induction false} TallyIgnoresOrder(a: seq<TugasRow>, b: seq<TugasRow>, now: Instant)
    requires multiset(a) == multiset(b)
    ensures Tally(a, now) == Tally(b, now)
    decreases |a|
  {
    if a != [] {
      var x, a' := a[|a| - 1], a[..|a| - 1];
      assert a == a' + [x];
      var b1, b2 := PickOut(a', x, b);
      TallyIgnoresOrder(a', b1 + b2, now);
      TallyMiddle(b1, x, b2, now);
      TallyAppend(a', [x], now);
      TallySingle(x, now);
    }
  }

  /** As time passes the done count stays, and tasks only move from in
      progress to late. */
  lemma {:induction false} TallyOverTime(ts: seq<TugasRow>, n: nat, now1: Instant, now2: Instant)
    requires n <= |ts| && now1 <= now2
    ensures TallyUpTo(ts, n, now1).selesai == TallyUpTo(ts, n, now2).selesai
    ensures TallyUpTo(ts, n, now1).telat <= TallyUpTo(ts, n, now2).telat
    ensures TallyUpTo(ts, n, now1).proses >= TallyUpTo(ts, n, now2).proses
  {
    if n > 0 {
      TallyOverTime(ts, n - 1, now1, now2);
      ClassifyOverTime(ts[n - 1], now1, now2);
    }
  }

  /** A task done stays done and a late task stays late as time passes. */
  lemma ClassifyOverTime(t: TugasRow, now1: Instant, now2: Instant)
    requires now1 <= now2
    ensures Classify(t, now1) == Done <==> Classify(t, now2) == Done
    ensures Classify(t, now1) == Late ==> Classify(t, now2) == Late
  {
  }

  /** A status of "SELESAI" counts as done whatever the deadline; the default
      status without a deadline is in progress; a null status past its
      deadline is late. */
  lemma ClassifyCases(t: TugasRow, now: Instant)
    ensures t.status == Some("SELESAI") ==> Classify(t, now) == Done
    ensures t.status == Some(DefaultStatus) && t.deadline.None? ==> Classify(t, now) == InProgress
    ensures t.status.None? && t.deadline.Some? && t.deadline.value < now ==> Classify(t, now) == Late
  {
    if t.status == Some("SELESAI") {
      EqualsIgnoreCasePointwise(DoneStatus, "SELESAI");
    }
  }

  /** The counting loop of the list page: one pass over the tasks. */
  method CountStats(listTugas: seq<TugasRow>, now: Instant) returns (stats: Stats)
    ensures stats == Tally(listTugas, now)
  {
    var statSelesai: nat, statProses: nat, statTelat: nat := 0, 0, 0;
    for i := 0 to |listTugas|
      invariant Stats(statSelesai, statProses, statTelat) == TallyUpTo(listTugas, i, now)
    {
      var t := listTugas[i];
      if IsDone(t.status) {
        statSelesai := statSelesai + 1;
      } else {
        if t.deadline.Some? && t.deadline.value < now {
          statTelat := statTelat + 1;
        } else {
          statProses := statProses + 1;
        }
      }
    }
    stats := Stats(statSelesai, statProses, statTelat);
  }

  /** The model of the list page. */
  datatype ListModel = ListModel(listTugas: seq<TugasRow>, userName: string, totalTugas: nat,
                                 statSelesai: nat, statProses: nat, statTelat: nat)

  class TugasView {
    const service: TugasService

    constructor (service: TugasService)
      ensures this.service == service
    {
      this.service := service;
    }

    /** GET /tugas: the user's tasks as getAllTugas lists them, the user's name
        and the counters as of `now` (the clock read by the page). */
    method ShowList(auth: Option<Authentication>, now: Instant) returns (view: string, model: Option<ListModel>)
      requires service.Valid()
      ensures AuthenticatedUser(auth).None? ==> view == LoginRedirect && model.None?
      ensures AuthenticatedUser(auth).Some? ==>
        var user := AuthenticatedUser(auth).value;
        view == ListPage && model.Some? &&
        ListsTasksOf(service.repo.rows, user.id, model.value.listTugas) &&
        model.value.userName == user.name &&
        model.value.totalTugas == |model.value.listTugas| &&
        Stats(model.value.statSelesai, model.value.statProses, model.value.statTelat) == Tally(model.value.listTugas, now) &&
        model.value.statSelesai + model.value.statProses + model.value.statTelat == model.value.totalTugas
    {
      var user := AuthenticatedUser(auth);
      if user.None? {
        return LoginRedirect, None;
      }
      var listTugas := service.GetAllTugas(user.value.id);
      var stats := CountStats(listTugas, now);
      TallyCountsEachOnce(listTugas, |listTugas|, now);
      view := ListPage;
      model := Some(ListModel(listTugas, user.value.name, |listTugas|, stats.selesai, stats.proses, stats.telat));
    }

    /** GET /tugas/create: an empty task for the form and the user's name. */
    method ShowCreateForm(auth: Option<Authentication>) returns (view: string, tugas: Tugas?, userName: Option<string>)
      ensures AuthenticatedUser(auth).None? ==> view == LoginRedirect && tugas == null && userName.None?
      ensures AuthenticatedUser(auth).Some? ==>
        view == CreatePage && tugas != null && fresh(tugas) && tugas.Row() == NullRow &&
        userName == Some(AuthenticatedUser(auth).value.name)
    {
      var user := AuthenticatedUser(auth);
      if user.None? {
        return LoginRedirect, null, None;
      }
      tugas := new Tugas.Empty();
      view, userName := CreatePage, Some(user.value.name);
    }

    /** POST /tugas/store: the bound task is given to the logged-in user and
        created; the page returns to the list with a success flash, or an
        error flash when the upload failed (the task itself stays saved). */
    method StoreTugas(auth: Option<Authentication>, tugas: Tugas, file: MultipartFile,
                      freshId: Uuid, ioFails: bool, now: Instant)
      returns (view: string, flash: Option<Flash>)
      requires service.Valid()
      requires tugas.id.None? ==> freshId !in service.repo.rows
      modifies service.repo, service.storage, tugas
      ensures service.Valid()
      ensures AuthenticatedUser(auth).None? ==>
        view == LoginRedirect && flash.None? && tugas.Row() == old(tugas.Row()) &&
        service.repo.rows == old(service.repo.rows) && service.repo.log == old(service.repo.log) &&
        service.storage.files == old(service.storage.files) && service.storage.log == old(service.storage.log)
      ensures AuthenticatedUser(auth).Some? ==>
        var first := Persisted(old(tugas.Row()).(user := AuthenticatedUser(auth)), old(service.repo.rows), freshId, now);
        var id := first.id.value;
        view == ListRedirect &&
        if file.IsEmpty() then
          flash == Some(Flash("success", "Tugas berhasil ditambahkan!")) && tugas.Row() == first &&
          service.repo.rows == old(service.repo.rows)[id := first] &&
          service.storage.files == old(service.storage.files)
        else if ioFails then
          flash == Some(Flash("error", "Gagal mengupload gambar.")) && tugas.Row() == first &&
          service.repo.rows == old(service.repo.rows)[id := first] &&
          service.storage.files == old(service.storage.files)
        else
          var second := Persisted(first.(fotoBukti := Some(StoredName(id, file))),
                                  old(service.repo.rows)[id := first], freshId, now);
          flash == Some(Flash("success", "Tugas berhasil ditambahkan!")) && tugas.Row() == second &&
          service.repo.rows == old(service.repo.rows)[id := second] &&
          service.storage.files == old(service.storage.files) + {StoredName(id, file)}
    {
      var user := AuthenticatedUser(auth);
      if user.None? {
        return LoginRedirect, None;
      }
      tugas.SetUser(user);
      var created := service.CreateTugas(tugas, Some(file), freshId, ioFails, now);
      if created.IOFailure? {
        flash := Some(Flash("error", "Gagal mengupload gambar."));
      } else {
        flash := Some(Flash("success", "Tugas berhasil ditambahkan!"));
      }
      view := ListRedirect;
    }

    /** GET /tugas/edit/{id}: the stored task and the user's name; back to the
        list for an absent id. */
    method ShowEditForm(auth: Option<Authentication>, id: Uuid) returns (view: string, tugas: Tugas?, userName: Option<string>)
      ensures AuthenticatedUser(auth).None? ==> view == LoginRedirect && tugas == null && userName.None?
      ensures AuthenticatedUser(auth).Some? && id !in service.repo.rows ==>
        view == ListRedirect && tugas == null && userName.None?
      ensures AuthenticatedUser(auth).Some? && id in service.repo.rows ==>
        view == EditPage && tugas != null && fresh(tugas) && tugas.Row() == service.repo.rows[id] &&
        userName == Some(AuthenticatedUser(auth).value.name)
    {
      var user := AuthenticatedUser(auth);
      if user.None? {
        return LoginRedirect, null, None;
      }
      tugas := service.GetTugasById(id);
      if tugas == null {
        return ListRedirect, null, None;
      }
      view, userName := EditPage, Some(user.value.name);
    }

    /** POST /tugas/update/{id}: updateTugas with the bound task as details.
        The flash is success also when the id is absent (nothing changes then);
        it is an error when the new image cannot be stored, though the copied
        columns are then committed all the same. */
    method UpdateTugas(auth: Option<Authentication>, id: Uuid, tugas: Tugas, file: Option<MultipartFile>,
                       ioFails: bool, now: Instant)
      returns (view: string, flash: Option<Flash>)
      requires service.Valid()
      modifies service.repo, service.storage
      ensures service.Valid()
      ensures AuthenticatedUser(auth).None? || id !in old(service.repo.rows) ==>
        service.repo.rows == old(service.repo.rows) && service.repo.log == old(service.repo.log) &&
        service.storage.files == old(service.storage.files) && service.storage.log == old(service.storage.log)
      ensures AuthenticatedUser(auth).None? ==> view == LoginRedirect && flash.None?
      ensures AuthenticatedUser(auth).Some? ==>
        view == ListRedirect &&
        if id !in old(service.repo.rows) then flash == Some(Flash("success", "Tugas berhasil diperbarui!"))
        else
          var stored := old(service.repo.rows)[id];
          var updated := Persisted(WithDetails(stored, tugas.Row()), old(service.repo.rows), id, now);
          if !HasContent(file) then
            flash == Some(Flash("success", "Tugas berhasil diperbarui!")) &&
            service.repo.rows == old(service.repo.rows)[id := updated] &&
            service.storage.files == old(service.storage.files) && service.storage.log == old(service.storage.log)
          else if ioFails then
            flash == Some(Flash("error", "Gagal update gambar.")) &&
            service.repo.rows == old(service.repo.rows)[id := updated] &&
            service.storage.files == AfterDelete(old(service.storage.files), stored.fotoBukti)
          else
            flash == Some(Flash("success", "Tugas berhasil diperbarui!")) &&
            service.repo.rows == old(service.repo.rows)[id := Persisted(
              WithDetails(stored, tugas.Row()).(fotoBukti := Some(StoredName(id, file.value))), old(service.repo.rows), id, now)] &&
            service.storage.files == AfterDelete(old(service.storage.files), stored.fotoBukti) + {StoredName(id, file.value)}
    {
      if AuthenticatedUser(auth).None? {
        return LoginRedirect, None;
      }
      var updated := service.UpdateTugas(id, tugas, file, ioFails, now);
      if updated.IOFailure? {
        flash := Some(Flash("error", "Gagal update gambar."));
      } else {
        flash := Some(Flash("success", "Tugas berhasil diperbarui!"));
      }
      view := ListRedirect;
    }

    /** POST /tugas/delete/{id}: deleteTugas, then back to the list. */
    method DeleteTugas(auth: Option<Authentication>, id: Uuid) returns (view: string, flash: Option<Flash>)
      requires service.Valid()
      modifies service.repo, service.storage
      ensures service.Valid()
      ensures AuthenticatedUser(auth).None? ==>
        view == LoginRedirect && flash.None? &&
        service.repo.rows == old(service.repo.rows) && service.repo.log == old(service.repo.log) &&
        service.storage.files == old(service.storage.files) && service.storage.log == old(service.storage.log)
      ensures AuthenticatedUser(auth).Some? ==>
        view == ListRedirect && flash == Some(Flash("success", "Tugas berhasil dihapus.")) &&
        service.repo.rows == old(service.repo.rows) - {id} &&
        service.storage.files == (if id in old(service.repo.rows)
                                  then AfterDelete(old(service.storage.files), old(service.repo.rows)[id].fotoBukti)
                                  else old(service.storage.files))
    {
      if AuthenticatedUser(auth).None? {
        return LoginRedirect, None;
      }
      service.DeleteTugas(id);
      return ListRedirect, Some(Flash("success", "Tugas berhasil dihapus."));
    }

    /** POST /tugas/{id}/selesai: sets the status to "Selesai", so the task is
        counted as done from then on. */
    method TandaiSelesai(auth: Option<Authentication>, id: Uuid, now: Instant) returns (view: string)
      requires service.Valid()
      modifies service.repo
      ensures service.Valid()
      ensures AuthenticatedUser(auth).None? || id !in old(service.repo.rows) ==>
        service.repo.rows == old(service.repo.rows) && service.repo.log == old(service.repo.log)
      ensures AuthenticatedUser(auth).None? ==> view == LoginRedirect
      ensures AuthenticatedUser(auth).Some? ==>
        view == ListRedirect &&
        (id in old(service.repo.rows) ==>
          service.repo.rows == old(service.repo.rows)[id := Persisted(old(service.repo.rows)[id].(status := Some(DoneStatus)),
                                                                      old(service.repo.rows), id, now)] &&
          Classify(service.repo.rows[id], now) == Done)
    {
      if AuthenticatedUser(auth).None? {
        return LoginRedirect;
      }
      var _ := service.UpdateStatus(id, Some(DoneStatus), now);
      assert EqualsIgnoreCase(DoneStatus, DoneStatus);
      view := ListRedirect;
    }
  }
}
