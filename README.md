# Tugas: a verified model of the task tracker's core

This Dafny project models the core of a Spring Boot application in which students keep track of their course assignments ("tugas"). The model covers:

- **The authentication gate.** `AuthInterceptor.preHandle` checks each request's bearer token, in a fixed order, against a token registry and a user table. It fills the per-request `AuthContext` or writes a JSON rejection. Its helpers `extractToken`, `isPublicEndpoint` and `sendErrorResponse` are modelled too.
- **The task service.** `TugasService` runs over a repository and an upload directory.
- **The JSON API.** The endpoints of `TugasController` map authentication, date parsing, missing records and I/O failures to HTTP statuses.
- **The server-rendered pages.** `TugasView` covers the login guard of every page and the dashboard's counting of tasks as done, late or in progress.
- **The `Tugas` entity.** Its constructors, setters and JPA lifecycle hooks.
- **The `TugasForm` form object.** Its default status and its image checks.

Layout: one module per file.

| module | file | holds |
|---|---|---|
| `Common` | `common.dfy` | nullable references, checked exceptions, ids, clock values, uploads |
| `JavaStrings` | `java_strings.dfy` | `startsWith`, `replace`, `trim`, `isBlank`, `equalsIgnoreCase` |
| `Entities` | `entities.dfy` | the `Tugas` class, and `TugasRow`, the value of its columns |
| `Forms` | `tugas_form.dfy` | the `TugasForm` class |
| `Storage` | `file_storage.dfy` | the upload directory as a set of file names |
| `Repository` | `tugas_repository.dfy` | the table of tasks as a map from id to row |
| `Services` | `tugas_service.dfy` | `TugasService` |
| `Auth` | `auth.dfy` | `AuthContext`, the servlet response, `AuthInterceptor`, and the pure function `Gate` that specifies `preHandle` |
| `Controllers` | `tugas_controller.dfy` | `TugasController` and `CleanStatus` |
| `Views` | `tugas_view.dfy` | `TugasView` and the dashboard counters |

How the environment enters the model:

- **Collaborators.** Token checking (`JwtUtil.validateToken`, `JwtUtil.extractUserId`) is a pair of arbitrary functions. The token registry is a map from user id to that user's token. The user table is a map from id to user.
- **Clock and parser.** The clock is a parameter `now`. `LocalDateTime.parse` is a parameter `parse` that yields a time or an error message.
- **Generated ids and disk failures.** The id the database generates is a parameter `freshId`, required to be unused. Whether the disk fails a copy is a parameter `ioFails`.
- **Call order.** Ghost logs on the repository and on the file store record the order of `save`, `delete`, `storeFile` and `deleteFile`. The contracts state, for example, that `createTugas` saves twice when a file is attached, and that `updateTugas` deletes the old image before storing the new one.

`Repository.Persisted` states what `save` writes:

- An entity without an id gets the generated id, and `@PrePersist` stamps it.
- An entity with an id is merged, and `@PreUpdate` moves its update time only when the row differs from the stored one.

A checked `IOException` does not roll back a Spring transaction. So when the upload fails in `createTugas`, the task saved before it stays in the model, as it does in the application. When the upload fails in `updateTugas`, the commit still flushes the entity the setters changed: the copied columns are written with the old image name, whose file was already deleted.

`Auth.Gate` is `preHandle` written as a function. It returns the decision and the list of collaborator calls made. `AuthInterceptor.PreHandle` is the imperative method with early returns, and its contract ties it to `Gate`. The lemmas beside `Gate` state:

- the gate fails closed;
- the first failing check decides the outcome;
- every rejection is 401 or 404.

The dashboard loop `CountStats` keeps the source's three counters and is proved equal to `Tally`, a recursive count over the list. The lemmas about `Tally` state:

- the counters add up to the number of tasks;
- the counts do not depend on list order;
- as time passes a task can only move from in progress to late.

## Model

Source paths are relative to the repository root. `Entities.Tugas.constructor` is the unnamed five-argument constructor.

A few definitions carry no contract of their own and appear in the table only through the lemmas and handlers that state their meaning:
- `Auth.IsPublicEndpoint` (src/main/java/org/delcom/app/interceptors/AuthInterceptor.java:92-101) is described by `Auth.PublicPrefixIsTextual` and `Auth.ApplicationPathsAreGuarded`.
- `Auth.Gate` (src/main/java/org/delcom/app/interceptors/AuthInterceptor.java:32-81) is described by `Auth.GateAdmitsExactly`, `Auth.FirstFailureDecides` and `Auth.RejectionStatuses`, and `Auth.AuthInterceptor.PreHandle` is proved to follow it.
- `Forms.TugasForm.HasImage` and `Forms.TugasForm.IsValidImageFormat` (src/main/java/org/delcom/app/dto/TugasForm.java:103-111) are described by `Forms.ImageFormatOnlyChecksImages`, `Forms.ImageFormatDependsOnTypeOnly` and `Forms.ImageFormatExamples`.
- `Auth.FindUserToken` and `Auth.GetUserById` stand for the token and user lookups (src/main/java/org/delcom/app/interceptors/AuthInterceptor.java:65 and :72) as maps from user id. They are described by `Auth.GateAdmitsExactly` and `Auth.FirstFailureDecides`.
- `Views.AuthenticatedUser` (src/main/java/org/delcom/app/views/TugasView.java:31-40) appears in the login-redirect clauses of every `Views.TugasView` handler.

| member | source | states |
|---|---|---|
| JavaStrings.RemoveChar | src/main/java/org/delcom/app/controllers/TugasController.java:124 | `replace("\"", "")` leaves no quote, never lengthens the text, keeps the count of every other character, and is the identity on text without the character |
| JavaStrings.RemoveCharConcat | src/main/java/org/delcom/app/controllers/TugasController.java:124 | removing a character commutes with concatenation, so the kept characters stay in order |
| JavaStrings.Trim | src/main/java/org/delcom/app/controllers/TugasController.java:124 | `trim` yields the infix of the text whose surroundings are all characters up to U+0020 and whose own ends are not |
| JavaStrings.TrimOfIsUnique | src/main/java/org/delcom/app/controllers/TugasController.java:124 | at most one string satisfies that characterisation of `trim` for a given text |
| JavaStrings.TrimIdempotent | src/main/java/org/delcom/app/controllers/TugasController.java:124 | trimming twice is trimming once |
| JavaStrings.EqualsIgnoreCasePointwise | src/main/java/org/delcom/app/views/TugasView.java:59 | `equalsIgnoreCase` holds exactly when the lengths agree and every pair of characters agrees after case folding |
| JavaStrings.EqualsIgnoreCaseIsEquivalence | src/main/java/org/delcom/app/views/TugasView.java:59 | `equalsIgnoreCase` is reflexive, symmetric and transitive |
| Entities.Tugas.Empty | src/main/java/org/delcom/app/entities/Tugas.java:53-54 | `new Tugas()` has every field null |
| Entities.Tugas.constructor | src/main/java/org/delcom/app/entities/Tugas.java:56-63 | the five arguments are stored, the status is "Belum Selesai", every other field is null |
| Entities.Tugas.SetId | src/main/java/org/delcom/app/entities/Tugas.java:69-71 | the id becomes the value given; no other field changes |
| Entities.Tugas.SetJudul | src/main/java/org/delcom/app/entities/Tugas.java:77-79 | the title becomes the value given; no other field changes |
| Entities.Tugas.SetMataKuliah | src/main/java/org/delcom/app/entities/Tugas.java:85-87 | the course becomes the value given; no other field changes |
| Entities.Tugas.SetDeskripsi | src/main/java/org/delcom/app/entities/Tugas.java:93-95 | the description becomes the value given; no other field changes |
| Entities.Tugas.SetDeadline | src/main/java/org/delcom/app/entities/Tugas.java:101-103 | the deadline becomes the value given; no other field changes |
| Entities.Tugas.SetFotoBukti | src/main/java/org/delcom/app/entities/Tugas.java:109-111 | the proof image name becomes the value given; no other field changes |
| Entities.Tugas.SetStatus | src/main/java/org/delcom/app/entities/Tugas.java:117-119 | the status becomes the value given; no other field changes |
| Entities.Tugas.SetUser | src/main/java/org/delcom/app/entities/Tugas.java:125-127 | the owner becomes the value given; no other field changes |
| Entities.Tugas.OnCreate | src/main/java/org/delcom/app/entities/Tugas.java:138-145 | both timestamps become the clock value; a null status becomes "Belum Selesai" and a non-null one is kept; nothing else changes |
| Entities.Tugas.OnUpdate | src/main/java/org/delcom/app/entities/Tugas.java:147-150 | only the update timestamp changes |
| Forms.TugasForm.constructor | src/main/java/org/delcom/app/dto/TugasForm.java:32-35 | a fresh form has status "Belum Selesai" and every other field null |
| Forms.TugasForm.SetId | src/main/java/org/delcom/app/dto/TugasForm.java:41-43 | the id becomes the value given; no other field changes |
| Forms.TugasForm.SetJudul | src/main/java/org/delcom/app/dto/TugasForm.java:49-51 | the title becomes the value given; no other field changes |
| Forms.TugasForm.SetMataKuliah | src/main/java/org/delcom/app/dto/TugasForm.java:57-59 | the course becomes the value given; no other field changes |
| Forms.TugasForm.SetDeskripsi | src/main/java/org/delcom/app/dto/TugasForm.java:65-67 | the description becomes the value given; no other field changes |
| Forms.TugasForm.SetDeadline | src/main/java/org/delcom/app/dto/TugasForm.java:73-75 | the deadline becomes the value given; no other field changes |
| Forms.TugasForm.SetFileGambar | src/main/java/org/delcom/app/dto/TugasForm.java:81-83 | the uploaded file becomes the value given; no other field changes |
| Forms.TugasForm.SetExistingFoto | src/main/java/org/delcom/app/dto/TugasForm.java:89-91 | the existing image name becomes the value given; no other field changes |
| Forms.TugasForm.SetStatus | src/main/java/org/delcom/app/dto/TugasForm.java:97-99 | the status becomes the value given; no other field changes |
| Forms.ImageFormatOnlyChecksImages | src/main/java/org/delcom/app/dto/TugasForm.java:107-111 | every form without an image passes; a form with an image passes exactly when the image's content type is known and is one of image/jpeg, image/png and image/webp |
| Forms.ImageFormatDependsOnTypeOnly | src/main/java/org/delcom/app/dto/TugasForm.java:107-111 | of two forms with non-empty uploads of the same content type, both pass or both fail, whatever the file names and sizes |
| Forms.ImageFormatExamples | src/main/java/org/delcom/app/dto/TugasForm.java:107-111 | a JPEG is accepted; a PDF and an image of unknown type are refused; an empty upload and no upload are accepted |
| Storage.FileStorage.StoreFile | src/main/java/org/delcom/app/services/FileStorageService.java:27-40 | an empty upload or a failing copy throws IOException and stores nothing; otherwise the file is stored as "<task id>_<original name>" and that name is returned |
| Storage.FileStorage.DeleteFile | src/main/java/org/delcom/app/services/FileStorageService.java:42-54 | a null or blank name changes nothing; any other name is no longer stored afterwards |
| Repository.TugasRepository.FindAllByUserIdOrderByDeadlineAsc | src/main/java/org/delcom/app/repositories/TugasRepository.java:15 | the result lists every stored task of the user exactly once, as stored, with deadlines ascending |
| Repository.TugasRepository.FindById | src/main/java/org/delcom/app/services/TugasService.java:33 | null exactly for an absent id, otherwise a new entity holding the stored row |
| Repository.TugasRepository.Save | src/main/java/org/delcom/app/entities/Tugas.java:137-150 | the entity runs its lifecycle hook and is written under its id: a generated id for an entity without one, the id it carries otherwise (see Left out); every row stays stored under its own id |
| Repository.TugasRepository.Delete | src/main/java/org/delcom/app/services/TugasService.java:96 | the row under the entity's id is removed and nothing else |
| Repository.PersistedKeepsContent | src/main/java/org/delcom/app/entities/Tugas.java:138-150 | saving keeps title, course, description, deadline, image and owner; a new entity gets the generated id, a creation time and a status; a stored entity keeps its id and creation time |
| Repository.PersistedIdempotent | src/main/java/org/delcom/app/entities/Tugas.java:147-150 | saving an unchanged entity again writes the same row; the update time does not move |
| Services.TugasService.GetAllTugas | src/main/java/org/delcom/app/services/TugasService.java:25-28 | the user's tasks, each once and as stored, deadlines ascending |
| Services.TugasService.GetTugasById | src/main/java/org/delcom/app/services/TugasService.java:31-34 | the stored task for a present id, null for an absent one |
| Services.TugasService.CreateTugas | src/main/java/org/delcom/app/services/TugasService.java:37-50 | without a non-empty file: one save and no file store call. With one: the file is stored under the saved id, then a second save records its name. A failed store throws after the first save, which stays |
| Services.TugasService.UpdateTugas | src/main/java/org/delcom/app/services/TugasService.java:53-75 | absent id: null and nothing changes. Otherwise exactly the four text and date columns are copied. With a file the old image is deleted before the new one is stored and named. A failed store throws, and the commit still writes the copied columns with the old image name |
| Services.TugasService.UpdateStatus | src/main/java/org/delcom/app/services/TugasService.java:77-86 | absent id: null and nothing changes; otherwise only the status (and the update time) of that row change |
| Services.TugasService.DeleteTugas | src/main/java/org/delcom/app/services/TugasService.java:88-98 | a present id loses its image file and its row; an absent id changes neither |
| Auth.ExtractToken | src/main/java/org/delcom/app/interceptors/AuthInterceptor.java:85-90 | a token exactly when the header starts with "Bearer " (case-sensitive), and the header is then "Bearer " followed by the token |
| Auth.ExtractTokenRoundTrip | src/main/java/org/delcom/app/interceptors/AuthInterceptor.java:85-90 | extracting from "Bearer " + t gives back t |
| Auth.PublicPrefixIsTextual | src/main/java/org/delcom/app/interceptors/AuthInterceptor.java:92-101 | matching is by text prefix: every extension of a public path other than "/error" is public, so "/json/private" is public because "/js" is |
| Auth.ApplicationPathsAreGuarded | src/main/java/org/delcom/app/interceptors/AuthInterceptor.java:92-101 | every path beginning with "/api/tugas" is guarded, and so is every path that extends "/error" by at least one character |
| Auth.ErrorBodyRoundTrip | src/main/java/org/delcom/app/interceptors/AuthInterceptor.java:107 | the message can be read back out of every rejection body |
| Auth.GateAdmitsExactly | src/main/java/org/delcom/app/interceptors/AuthInterceptor.java:32-81 | fail-closed: a request is admitted exactly when its path is public or every check passes. On a protected path it is admitted with the user that the registry entry names, and only then is the context set |
| Auth.PublicPathSkipsChecks | src/main/java/org/delcom/app/interceptors/AuthInterceptor.java:36-38 | a public path is admitted without reading the header or calling any collaborator |
| Auth.MissingTokenExamples | src/main/java/org/delcom/app/interceptors/AuthInterceptor.java:45-49 | a missing header, a "Basic" header and "Bearer " with nothing after it are all 401 "Token autentikasi tidak ditemukan" |
| Auth.FirstFailureDecides | src/main/java/org/delcom/app/interceptors/AuthInterceptor.java:52-69 | an invalid token, a token without a user id, or one missing from the registry each gives its own 401, and no later lookup happens |
| Auth.RejectionStatuses | src/main/java/org/delcom/app/interceptors/AuthInterceptor.java:45-76 | every rejection is 401 or 404; its status is 404 exactly when the token passed every check and the user is missing, and a 404 always carries the "user not found" message |
| Auth.AuthContext.constructor | src/test/java/org/delcom/app/configs/AuthContextTests.java:14-21 | a new context holds no user and is not authenticated |
| Auth.AuthContext.SetAuthUser | src/test/java/org/delcom/app/configs/AuthContextTests.java:24-53 | the user given is held; the context is authenticated exactly when that user is not null |
| Auth.AuthInterceptor.SendErrorResponse | src/main/java/org/delcom/app/interceptors/AuthInterceptor.java:103-109 | the status given, JSON content in UTF-8, and `{"status":"fail","message":"<m>","data":null}` appended to the body |
| Auth.AuthInterceptor.PreHandle | src/main/java/org/delcom/app/interceptors/AuthInterceptor.java:32-81 | returns true exactly when the gate admits, and makes the gate's calls. A rejection writes its status and body and leaves the context alone. An admission writes nothing, and on a protected path puts the resolved user in the context |
| Controllers.CleanStatus | src/main/java/org/delcom/app/controllers/TugasController.java:124 | the stored status has no quote and is the trim of the body with its quotes removed |
| Controllers.CleanStatusIdempotent | src/main/java/org/delcom/app/controllers/TugasController.java:124 | cleaning a cleaned status changes nothing |
| Controllers.CleanStatusIgnoresQuotes | src/main/java/org/delcom/app/controllers/TugasController.java:124 | for every status, the status sent as a JSON string and the same status sent bare are stored alike |
| Controllers.CleanStatusUnquotes | src/main/java/org/delcom/app/controllers/TugasController.java:124 | a status with no quote and no surrounding blanks is stored exactly as sent, bare or quoted |
| Controllers.TugasController.GetAllTugas | src/main/java/org/delcom/app/controllers/TugasController.java:32-42 | 401 "Unauthorized" without a user; otherwise 200 with the user's tasks as the service lists them |
| Controllers.TugasController.CreateTugas | src/main/java/org/delcom/app/controllers/TugasController.java:45-74 | 401 or a 400 with the parser's message changes nothing. Otherwise the task is created for the user with status "Belum Selesai": 200 with the saved task, or 500 "error" when the upload fails (the task stays saved) |
| Controllers.TugasController.UpdateTugas | src/main/java/org/delcom/app/controllers/TugasController.java:77-112 | 401, a 400 "Format tanggal salah" and a 404 change nothing; 500 when the image cannot be stored, with the copied columns committed all the same; otherwise 200 with the updated task, and without a file the stored images stay as they were |
| Controllers.TugasController.UpdateStatus | src/main/java/org/delcom/app/controllers/TugasController.java:115-133 | 401 and 404 change nothing; otherwise 200 with the row whose status is the cleaned body |
| Controllers.TugasController.DeleteTugas | src/main/java/org/delcom/app/controllers/TugasController.java:136-145 | 401 changes nothing; otherwise 200 whether or not the id existed, and a present id's row and image are removed |
| Views.CountStats | src/main/java/org/delcom/app/views/TugasView.java:53-69 | the three counters the loop computes are the count of done, in-progress and late tasks of the list |
| Views.TallyCountsEachOnce | src/main/java/org/delcom/app/views/TugasView.java:52-69 | done + in progress + late equals the number of tasks counted |
| Views.TallyIgnoresOrder | src/main/java/org/delcom/app/views/TugasView.java:58-69 | two lists with the same tasks give the same counters, wherever the tasks without a deadline are placed |
| Views.TallyOverTime | src/main/java/org/delcom/app/views/TugasView.java:58-69 | at a later clock the done count is the same, the late count no smaller and the in-progress count no larger |
| Views.ClassifyOverTime | src/main/java/org/delcom/app/views/TugasView.java:59-67 | a task is done at one time exactly when it is done at another; a late task stays late |
| Views.ClassifyCases | src/main/java/org/delcom/app/views/TugasView.java:59-67 | "SELESAI" counts as done whatever the deadline; "Belum Selesai" without a deadline is in progress; a null status past its deadline is late |
| Views.TugasView.ShowList | src/main/java/org/delcom/app/views/TugasView.java:43-82 | login redirect without a user. Otherwise the list page with the user's tasks and name, the total equal to the list length, the counters of that list, and counters that sum to the total |
| Views.TugasView.ShowCreateForm | src/main/java/org/delcom/app/views/TugasView.java:85-94 | login redirect without a user; otherwise the create page with an empty task and the user's name |
| Views.TugasView.StoreTugas | src/main/java/org/delcom/app/views/TugasView.java:97-114 | login redirect changes nothing. Otherwise the task is given the logged-in user before it is created, with a success flash, or an error flash when the upload fails (the task stays saved) |
| Views.TugasView.ShowEditForm | src/main/java/org/delcom/app/views/TugasView.java:117-129 | login redirect without a user; back to the list for an absent id; otherwise the edit page with the stored task |
| Views.TugasView.UpdateTugas | src/main/java/org/delcom/app/views/TugasView.java:132-148 | login redirect changes nothing. Otherwise back to the list; the flash says success also for an absent id (nothing changes then), and error when the new image cannot be stored (the copied columns are committed all the same); without a file the stored images stay as they were |
| Views.TugasView.DeleteTugas | src/main/java/org/delcom/app/views/TugasView.java:151-158 | login redirect changes nothing; otherwise the row and its image are removed and the flash says success |
| Views.TugasView.TandaiSelesai | src/main/java/org/delcom/app/views/TugasView.java:161-167 | login redirect changes nothing; otherwise a present task gets status "Selesai" and from then on counts as done |

## Left out

- Token signing and expiry (`JwtUtil`) and password hashing are not modelled; the two token functions are arbitrary parameters.
- `AuthTokenService`, `UserService` and `AuthContext` are not part of this model beyond what the gate reads: a registry map holding one token per user, a user map, and one nullable field.
- File contents, path resolution and normalisation, and the upload directory's creation are not modelled: the directory is a set of names.
- Repository.TugasRepository.FindAllByUserIdOrderByDeadlineAsc: promises ascending order only among tasks that have a deadline; where tasks without one go is the database's choice and is left open.
- Repository.TugasRepository.Save: `@PreUpdate` is taken to run when the entity's row differs from the stored one. This approximates Hibernate's dirty checking. A single clock value serves a whole call.
- Repository.TugasRepository.Save: the NOT NULL constraints on judul, mata_kuliah, status, user_id, created_at and updated_at are not enforced. A row with a null judul, say from a page form sent without that field, is stored, where the database would refuse the flush and the handler would end in an error instead of a redirect.
- Views.TugasView.StoreTugas: as a consequence, a task bound without judul or mataKuliah is reported with the success flash, where the application fails at the flush.
- Repository.TugasRepository.Save: an entity that carries an id with no stored row is written under that id. Hibernate's merge would insert it under a newly generated id instead, and recent Hibernate versions refuse it outright.
- Repository.TugasRepository.Save: an entity whose id is stored overwrites created_at with its own value. The column is declared not updatable (src/main/java/org/delcom/app/entities/Tugas.java:47), so the database would keep the stored creation time.
- Views.TugasView.UpdateTugas: a bound task without judul or mataKuliah has those nulls copied onto the stored row, which is saved and reported with the success flash. The application fails at the flush instead, because the columns are NOT NULL.
- Views.TugasView.StoreTugas: a form that binds an id reaches `save` with that id set. It is therefore written under that id, or over the stored task with that id, including its created_at, where the application would do as the two lines above describe.
- Entities.Tugas.OnCreate: the two timestamps take one clock value; the source reads the clock once for each.
- Storage.FileStorage.DeleteFile: the RuntimeException for a file that cannot be deleted is not modelled; deletion always succeeds.
- Storage.FileStorage.DeleteFile: `isBlank` knows only the ASCII whitespace characters.
- JavaStrings.EqualsIgnoreCasePointwise: case folding covers the ASCII letters only.
- Controllers.TugasController.CreateTugas: `catch (Exception)` also catches runtime errors other than a date that does not parse; only the parse failure is modelled.
- Views.CountStats: the counters are unbounded; the source's 32-bit `int` cannot overflow for any list a user can hold.
- `LocalDateTime` is a point on an integer time line; the parse format is not modelled, only its outcome.
- Spring wiring, Thymeleaf model attributes and redirect flash plumbing are values returned by the handlers.
- The shared `AuthContext` under concurrent requests is not modelled: one request at a time.
- `HomeView` (a constant redirect) and `StartupInfoLogger` (console output) are not part of this model.
