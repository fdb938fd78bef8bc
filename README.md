# box-mock, modelled in Dafny

box-mock is a Flask mock of a cloud file-storage API. Every caller names an identity in
the `Authorization` header (`Identity=<name>`), and every identity gets its own tenant.
A tenant is a SQLite database `box.db` under `DATA_DIR/<identity>` with four tables
(folders, files, users, sign requests), plus a `files` directory that holds the uploaded
contents. The database is created on first use and seeded with the root folder
`"0"` / `"All Files"`.

This project models that per-identity store and the operations on it. Tables are
sequences of records in rowid order, and every operation is proved against a
specification. The modules follow the source files:

| module | models |
|---|---|
| `Common` | Option, byte strings, JSON values |
| `Tables` | generic keyed tables: lookup, filter, delete by key, primary-key uniqueness |
| `Models` | `box_mock/models.py`: the four records, their defaults, `to_dict` and a reader for each rendering |
| `Storage` | one database (`Store`, a class over its four tables) and the data directory (`Disk`: identity directories, database files, blob directories) |
| `Db` | `box_mock/db.py`: the engine cache (`Registry`), session factories and sessions, first-use set-up and reset |
| `Identity` | `box_mock/identity.py`: the header parser (regular-expression search, then `str.strip`) |
| `Hooks` | `box_mock/hooks.py`: the request state (`flask.g`) and the setup/teardown hooks |
| `Http` | replies: status, JSON body, file body or redirect, and the API's error document |
| `FolderRoutes`, `FileRoutes`, `UserRoutes`, `SignRequestRoutes` | the handlers in `box_mock/routes/` |
| `Listing`, `Admin` | `box_mock/routes/admin.py`: which identities `/_browse` shows, the folder tree, the identity data and `/_reset` |

Handlers that write take the tenant `Store` (and the `Disk` when they touch blobs) and
change them in place. Their contracts give the reply and the new tables for every branch,
and show that the primary-key invariant `Store.Valid` is kept. Read-only handlers are
functions over the tables.

## Model

| member | source | states |
|---|---|---|
| Db.Registry.GetSessionClass | box_mock/db.py:15-39 | A cached identity gets its own factory back, and the engines and the disk do not change. On first use the identity directory is made and the database is opened (an existing file is reused, or a new empty one is created). The root folder is inserted only if absent, and the new factory is cached bound to that database. Afterwards the identity is cached and the root exists. The databases are `Prepared`: this identity's holds its old rows (empty tables when it had none) with the root added if absent, and every other database keeps its contents. |
| Db.Registry.AddEngine | box_mock/db.py:30-37 | The new factory is bound to the prepared database and cached under the identity; no other cache entry changes. |
| Db.Registry.Isolation | box_mock/db.py:17-37 | Two identities that name different directories get two different databases. After both factories are obtained and a folder is added through `a`'s factory, the folder is in `a`'s database. `b`'s database holds exactly what `b` held before: its cached contents; or an existing box.db with the root added if absent; or, on first use, only the root folder. So adding the folder through `a` changes nothing that `b` sees. |
| Db.Registry.FactoriesWithout | box_mock/db.py:17-37 | get_session_class for `b`, then for `a`. Both are cached, each factory is the cached one, and the two engines differ. A folder id absent from `a`'s database (other than the root) is still absent. `b`'s database holds its cached contents, or its existing rows with the root added if absent, or only the root folder. |
| Db.Registry.FactoryOf | box_mock/db.py:17-37 | get_session_class with the contents it leaves. A cached identity's database is as it was. An existing box.db gets the root if it has none. A new identity's database holds only the root folder. The cache and the database map change at that identity only. |
| Db.Registry.AddFolderThrough | box_mock/routes/folders.py:31-33 | Adding a folder through a cached factory appends exactly that row to the identity's database and keeps the registry valid. |
| Db.Registry.OpenSession | box_mock/db.py:17-39 | `session_class()` gives a new open session bound to the identity's database, which holds the root. That database holds its cached contents, or an existing box.db's rows with the root added if absent, or, on first use, only the root folder. Every other database keeps its contents (`Prepared`), and the database map only gains this identity. |
| Db.Registry.CloseSession | box_mock/routes/admin.py:148-149 | `session.close()` counts one close and changes no database. |
| Db.Registry.ResetIdentityData | box_mock/db.py:42-62 | For a cached identity the same engine now holds only the root folder and gets a new factory. An uncached identity adds no cache entry and its database, if one exists on disk, is not touched: its rows survive. An existing blob directory is emptied and a missing one is not created. |
| Db.Registry.RebuildEngine | box_mock/db.py:44-57 | drop_all, create_all and the root insert leave exactly `[Root]` and empty tables on the same engine; the other identities' databases are unchanged. |
| Db.SessionMaker.Open | box_mock/db.py:30-31 | A new session with no close yet, bound to the factory's engine. |
| Db.Session.Close | box_mock/hooks.py:37 | close() is counted exactly once per call. |
| Storage.Store.InsertRootIfAbsent | box_mock/db.py:31-34 | The tables become `WithRoot` of the old ones, folder "0" exists, and uniqueness of ids is kept. |
| Storage.WithRootProperties | box_mock/db.py:32-34 | After the root insert folder "0" exists. Existing rows keep their place, at most one row is added, the other tables are untouched, and ids stay unique. |
| Storage.WithRootIdempotent | box_mock/db.py:32-34 | Running the first-use set-up twice never duplicates the root. |
| Storage.ResetLikeFirstUse | box_mock/db.py:48-55 | For a cached identity, the rebuild leaves exactly what the first use of a new identity creates. An identity that is not cached is not rebuilt (see `Db.Registry.ResetIdentityData`). |
| Storage.Store.AddFolder | box_mock/routes/folders.py:31-33 | session.add plus commit appends exactly the new folder row, and ids stay unique. |
| Storage.Store.Recreate | box_mock/db.py:48-55 | The database holds only the root folder, and ids are unique. |
| Storage.Disk.OpenDatabase | box_mock/db.py:21-28 | `box.db` is reused when it exists; otherwise a new database with empty tables is created for that identity only. No other database's contents change. |
| Storage.Disk.PrepareDatabase | box_mock/db.py:17-35 | The directory is made, the database is opened and the root is added if absent. The result holds the root and is the identity's database, and the contents of all databases become `Prepared` of the old ones at that identity. |
| Storage.Disk.InsertRoot | box_mock/db.py:30-34 | The identity's database becomes `WithRoot` of its old contents and holds the root; every other database keeps its contents. |
| Storage.PreparedAllContents | box_mock/db.py:17-37 | Setting up identities in any order, any of them any number of times: each named database holds its old rows (or empty tables when it had none) with the root added if absent, and every other database keeps its rows. |
| Storage.PreparedWithRoot | box_mock/db.py:17-37 | Setting up an identity whose database already holds the root changes no database. |
| Storage.Disk.ClearFiles | box_mock/db.py:59-62 | Unlinking the entries one at a time leaves the identity's blob directory empty; every other directory is unchanged. |
| Storage.Disk.MakeDir | box_mock/db.py:18-19 | mkdir with exist_ok adds the identity directory and nothing else. |
| Storage.Disk.FilesDir | box_mock/routes/files.py:21-28 | The directory is that of the request's identity, "default" without one, and is created when it is missing. |
| Storage.Disk.FilePath | box_mock/routes/files.py:31-33 | The path is `<identity>/files/<id>`, and its directory now exists. |
| Storage.Disk.RemoveBlob | box_mock/routes/files.py:73-75 | The blob of that id is gone from the identity's directory, whether it existed or not. |
| Storage.Disk.StoreBlob | box_mock/routes/files.py:141 | The blob is created or fully replaced by the given bytes. |
| Storage.Disk.CopyBlob | box_mock/routes/files.py:198-201 | The destination gets the source's bytes when the source blob exists; otherwise nothing is written. |
| Identity.GetIdentity | box_mock/identity.py:8-12 | The identity never contains ';' and has no whitespace at either end. |
| Identity.MatchedIdentity | box_mock/identity.py:11-12 | With the leftmost match at `i`, the identity is the maximal non-';' run after `Identity=`, stripped. |
| Identity.UnmatchedIdentity | box_mock/identity.py:10-12 | Without any match, and for a missing header, the identity is exactly "default". |
| Identity.BlankValueIsEmpty | box_mock/identity.py:12 | A whitespace-only value yields the empty identity, not "default". |
| Identity.EmptyCaptureSkipped | box_mock/identity.py:11 | `Identity=;` is not a match: the search goes on to later occurrences. |
| Identity.FindFrom | box_mock/identity.py:11 | re.search finds the leftmost position that matches; none means no position matches. |
| Identity.RunFrom | box_mock/identity.py:11 | The capture `[^;]+` is greedy: it holds no ';' and ends at a ';' or at the end of the header. |
| Identity.Strip | box_mock/identity.py:12 | str.strip keeps a contiguous part of the input with no whitespace at either end, and everything cut off is whitespace (Python's str.isspace set). |
| Hooks.SetupDbSession | box_mock/hooks.py:26-30 | The request identity is `GetIdentity` of the header. A new open session is bound to that identity's database, which holds the root, and the identity is cached. An identity already cached leaves the cache unchanged. The database map changes at that identity only. The session's database holds the cached contents, or an existing box.db's rows with the root added if absent, or, for a new identity, only the root folder. |
| Hooks.TeardownDbSession | box_mock/hooks.py:33-37 | The session leaves the request state and, if there was one, is closed once. |
| Hooks.TeardownTwice | box_mock/hooks.py:35-37 | Two teardowns close the request's session exactly once. |
| Hooks.SessionAfterSetup | box_mock/db.py:65-71 | After setup, `db.session` is the request's new open session. It is bound to the database of the identity the header names, and that database holds the root. |
| Hooks.SessionAfterTeardown | box_mock/db.py:68-71 | After teardown there is no session in the request state, so `db.session` has none to give (the source raises AttributeError). |
| Models.NewFile | box_mock/models.py:86-95 | A new file row has version 1 and size 0 unless a size is given. |
| Models.Decimal | box_mock/models.py:109 | The decimal rendering of the version is a non-empty run of digits. |
| Models.DecimalRoundTrip | box_mock/models.py:109 | The decimal rendering reads back as the same number. |
| Models.VersionIdsDiffer | box_mock/models.py:108-111 | Different versions of one file have different version ids `<id>_v<version>`. |
| Models.OptFolderRef | box_mock/models.py:79-81 | The parent is null exactly when the parent id is empty, else a folder reference carrying that id. |
| Models.UserToDict | box_mock/models.py:34-45 | The document carries the tag "user" and the user's id. |
| Models.UserRoundTrip | box_mock/models.py:34-45 | The user document reads back as the same user. |
| Models.FolderToDict | box_mock/models.py:73-83 | The document carries the tag "folder" and the folder's id, and its parent is null exactly when the parent id is empty. |
| Models.FolderRoundTrip | box_mock/models.py:73-83 | The folder document reads back as the folder, with an empty parent id read as none. |
| Models.FileToDict | box_mock/models.py:100-113 | The document carries the tag "file" and the file's id. `file_version.id` is `<id>_v<version>` and `version_number` is the version. |
| Models.FileRoundTrip | box_mock/models.py:100-113 | The file document reads back as the same file. |
| Models.SignRequestToDict | box_mock/models.py:129-143 | The document carries the tag "sign-request", the id and the status. A missing signer list shows as `[]`. The parent folder is null exactly when its id is empty. |
| Models.SignersRoundTrip | box_mock/models.py:131-137 | The stored signer list reads back unchanged. |
| Models.SignedFilesRoundTrip | box_mock/models.py:132-138 | The stored output-file list reads back unchanged. |
| Models.SignRequestMembers | box_mock/models.py:133-142 | The document holds the signers, `sign_files.files` and the parent folder as rendered from the record. |
| Models.SignRequestRoundTrip | box_mock/models.py:129-143 | The document reads back as the record, except that a missing list reads back as an empty one, an empty parent id as none, and the redirect URL is not rendered. |
| FolderRoutes.Children | box_mock/models.py:63-66 | The `children` relationship: exactly the folders whose parent is the folder. |
| FolderRoutes.FilesIn | box_mock/models.py:67-71 | The `files` relationship: exactly the files stored in the folder. |
| FolderRoutes.CreateFolder | box_mock/routes/folders.py:13-34 | The parent defaults to "0". A missing parent gives 404 and adds nothing. A missing name fails at commit with 500 and adds nothing. Otherwise exactly the new folder, with the requested name and parent, is appended and returned with 201. The root and id uniqueness are kept. |
| FolderRoutes.GetFolder | box_mock/routes/folders.py:37-45 | The folder's document, or 404 when no folder has the id. |
| FolderRoutes.Updated | box_mock/routes/folders.py:57-61 | The name changes only when given, and the parent only when a parent object is given; the id never changes. |
| FolderRoutes.UpdateFolder | box_mock/routes/folders.py:48-64 | Only that row changes, in place and without a check on the new parent. A missing id gives 404 and no change. The set of ids is kept. |
| FolderRoutes.Detach | box_mock/models.py:63-66 | Folders whose parent is the deleted folder lose their parent; every other row is unchanged. |
| FolderRoutes.DeleteFolderEffect | box_mock/routes/folders.py:84-86 | Exactly the deleted id is removed. No folder points at it afterwards, every child folder survives without a parent, and ids stay unique. |
| FolderRoutes.DeleteFolder | box_mock/routes/folders.py:67-86 | A missing id gives 404 first, then "0" gives 403; neither changes anything. Otherwise the folder and its own files go, child folders are detached, and the reply is 204. The root and id uniqueness are kept. |
| FolderRoutes.Items | box_mock/routes/folders.py:98-99 | The child folders' documents come first, then the files' documents, in table order. |
| FolderRoutes.ItemsAreDirect | box_mock/routes/folders.py:98-99 | Every listed entry has the listed folder as its parent. |
| FolderRoutes.GetFolderItems | box_mock/routes/folders.py:89-101 | 404 for a missing folder. Otherwise 200 with the entries, and `total_count` is the number of child folders plus files. |
| FileRoutes.GetFile | box_mock/routes/files.py:36-44 | The file's document, or 404. |
| FileRoutes.UpdateFile | box_mock/routes/files.py:47-61 | Only the name changes, and only when given; a missing id gives 404 and no change. |
| FileRoutes.DeleteFile | box_mock/routes/files.py:64-79 | A missing id gives 404 and no change. Otherwise the blob is unlinked if present, the record is removed and the reply is 204. |
| FileRoutes.DownloadFile | box_mock/routes/files.py:82-97 | 404 for a missing record and a separate 404 for a missing blob. Otherwise the stored bytes are sent under the file's name. |
| FileRoutes.FirstContentSpec | box_mock/routes/files.py:100-108 | The content is the first non-empty part; there is none exactly when every part is missing or empty. |
| FileRoutes.ExtractFileContent | box_mock/routes/files.py:100-108 | The loop with its early return computes exactly that first non-empty part. |
| FileRoutes.Entries | box_mock/routes/files.py:143 | The upload answer lists exactly the new file's document. |
| FileRoutes.UploadFile | box_mock/routes/files.py:111-143 | The name defaults to "unnamed_file" and the parent to "0". The parent is checked first (404), then the content (400); either error changes nothing. Otherwise a version-1 record sized to the content is appended and the blob is set to the content. |
| FileRoutes.UploadFileVersion | box_mock/routes/files.py:146-168 | 404, then 400, change nothing. Otherwise the row's version goes up by exactly one, its size becomes the content length, the blob is replaced, and the ids are kept. |
| FileRoutes.WriteVersion | box_mock/routes/files.py:161-166 | The in-place update of the row and the blob write. |
| FileRoutes.NewVersionNewVersionId | box_mock/routes/files.py:161-162 | A new version changes the document's version id. |
| FileRoutes.CopyFile | box_mock/routes/files.py:171-203 | A missing source or destination gives 404 and no change. The destination defaults to the source's folder and the name to the source's. The copy starts at version 1 with the source's size, and the source row is untouched. The blob is copied only when the source has one. |
| FileRoutes.Conflict | box_mock/routes/files.py:220-230 | The 409 answer carries the code "item_name_in_use". |
| FileRoutes.FirstTaken | box_mock/routes/files.py:219 | The first file of the folder with the requested name, or none exactly when no file has that name. |
| FileRoutes.PreflightCheck | box_mock/routes/files.py:206-232 | 404 for a missing folder. Otherwise 409 exactly when a file of that folder has the name, naming the first such file; else 200 with the upload token. |
| UserRoutes.Lower | box_mock/routes/users.py:33-35 | lower() maps each character, so the length is kept. |
| UserRoutes.ContainsIsInfix | box_mock/routes/users.py:33-35 | For a term without wildcards, LIKE `%term%` is exactly a substring test. |
| UserRoutes.ILikeIsInfix | box_mock/routes/users.py:33-35 | ILIKE `%term%` is a case-insensitive substring test. |
| UserRoutes.LikeLeadingPercent | box_mock/routes/users.py:33-35 | A leading `%` lets the rest of the pattern match any suffix. |
| UserRoutes.GetCurrentUser | box_mock/routes/users.py:15-23 | Returns the first user. With no users, exactly one "Box Mock Service" user with login `service@boxmock.local` is created first; otherwise the table is unchanged. |
| UserRoutes.GetCurrentUserTwice | box_mock/routes/users.py:17-18 | Two calls give the same answer and create at most one user. |
| UserRoutes.Listed | box_mock/routes/users.py:28-37 | All users for an empty term; otherwise exactly those whose name, email or login matches `%term%`. |
| UserRoutes.ListedByInfix | box_mock/routes/users.py:30-37 | With a plain term a user is listed exactly when its name, email or login contains the term, case-insensitively. |
| UserRoutes.PercentListsAll | box_mock/routes/users.py:30-37 | The term "%" lists every user. |
| UserRoutes.ListUsers | box_mock/routes/users.py:26-39 | 200, with the listed users' documents as entries and `total_count` equal to their number. |
| UserRoutes.ListUsersReadsBack | box_mock/routes/users.py:38-39 | Each entry reads back as the listed user, in table order. |
| UserRoutes.CreateUser | box_mock/routes/users.py:43-56 | The name defaults to "Unnamed User" and the flag to false. Exactly that user is appended, and the reply reads back as it. |
| UserRoutes.GetUser | box_mock/routes/users.py:59-67 | The user's document, or 404. |
| UserRoutes.DeleteUser | box_mock/routes/users.py:70-79 | 404 and no change for a missing id; otherwise only that user is removed and the reply is 204. |
| SignRequestRoutes.Signers | box_mock/routes/sign_requests.py:28-36 | One signer per input, in order, with the role defaulting to "signer" and the embed URL built from the request's id. |
| SignRequestRoutes.EmbedUrlsDistinct | box_mock/routes/sign_requests.py:26-33 | Two signing links of one request are equal exactly when their tokens are. |
| SignRequestRoutes.SignerLinksDistinct | box_mock/routes/sign_requests.py:26-36 | Distinct tokens give every signer its own link. |
| SignRequestRoutes.SignedFiles | box_mock/routes/sign_requests.py:38-45 | One output file per source, in order, named `signed_document_<id>.pdf`. |
| SignRequestRoutes.CreateSignRequest | box_mock/routes/sign_requests.py:16-58 | Exactly the new record is appended, with status "created", the given parent folder id and redirect URL, and the derived signers and files. The reply reads back as that record. |
| SignRequestRoutes.GetSignRequest | box_mock/routes/sign_requests.py:61-74 | The record's document, or 404. |
| Listing.SortByName | box_mock/routes/admin.py:161 | `sorted` keeps the entries (a permutation). |
| Listing.Selected | box_mock/routes/admin.py:159-163 | Exactly the names of the directories that hold a box.db file. |
| Listing.BrowseSelectionSpec | box_mock/routes/admin.py:158-166 | /_browse shows exactly the identity directories, each once, in name order, and none when the data directory is missing. |
| Listing.BrowseSelectionDistinct | box_mock/routes/admin.py:158-166 | /_browse shows no name twice. |
| Admin.ResetTarget | box_mock/routes/admin.py:174-178 | The identity in the body when it is non-empty, else the request's identity, else "default". |
| Admin.Reset | box_mock/routes/admin.py:171-185 | The chosen identity is reset once. A cached identity is left with only the root folder, as on first use, on the same engine, with a new factory; no other cache entry changes. An uncached identity keeps its cache entry absent and its database rows, even when a `box.db` exists from an earlier process. Either way its existing blob directory is emptied. JSON gets `{"status": "reset complete", "identity": ...}`; a form is redirected to /_browse. |
| Admin.FileEntries | box_mock/routes/admin.py:114 | One `{id, name, size}` entry per file, in order. |
| Admin.GetTreeShape | box_mock/routes/admin.py:109-116 | A tree is the folder's id and name, its own files, and one subtree per child folder in table order. |
| Admin.ChildTreesShape | box_mock/routes/admin.py:115 | The children are built exactly when every child's tree is, one per child. |
| Admin.GetTreeMoreFuel | box_mock/routes/admin.py:109-116 | A tree built within a depth bound is the same under any larger bound. |
| Admin.SelfParentHasNoTree | box_mock/routes/admin.py:109-116 | A folder that is its own parent never yields a finite tree. |
| Admin.IdentityDataOf | box_mock/routes/admin.py:119-149 | The identity's name, the tree `IdentityTree` gives (none exactly when that tree exceeds the depth bound), and one summary per user and per sign request, in table order. |
| Admin.IdentityTree | box_mock/routes/admin.py:125-130 | Without folder "0" the tree is the placeholder `{"id": "0", "name": "Empty"}` with no files and no children; with it, the tree is that of folder "0". |
| Admin.GetIdentityData | box_mock/routes/admin.py:119-149 | The identity data of the identity's database, which is prepared on first use. Afterwards that database holds its old rows with the root added if absent (only the root when it is new), and every other database is unchanged (`Prepared`). The data is computed from exactly those contents. The one session opened for the read is bound to that database and is closed exactly once. |
| Admin.ReadNext | box_mock/routes/admin.py:159-163 | Reading one more identity keeps the identities read before as they were read. Every identity after it in the listing keeps its cache entry absent or present, and keeps its database (absent, or the same one), as before. Only the read identity's database changes, and only by the first-use set-up (`Prepared`). |
| Admin.BrowseStep | box_mock/routes/admin.py:159-163 | One turn of the listing loop: one more identity is read, the earlier entries stay, `failed` says whether its tree could not be built, and `Browsing` is kept. |
| Admin.ReadAll | box_mock/routes/admin.py:158-163 | The loop stops once every name is read or the last read one failed, and leaves `Browsing` true: every entry before the last is some data, the read identities are cached with the data their databases hold, the unread ones are as before, and the databases are `PreparedAll` over the names read. |
| Admin.BrowsingStep | box_mock/routes/admin.py:159-163 | ReadNext's outcome keeps `Browsing`: the step of `Prepared` extends `PreparedAll` by the name read. |
| Admin.BrowsingDone | box_mock/routes/admin.py:158-168 | Once the loop stops, a listing shorter than the selection ends with the failed entry, and every earlier entry is some data. |
| Admin.Browse | box_mock/routes/admin.py:152-168 | Reads the selected identities in order, each entry the data its database holds. The first identity whose tree cannot be built (the RecursionError) is the last entry read, and the page is then a 500. The identities after it are not read: they are cached, and have a database, exactly as before. The databases afterwards are `PreparedAll` of the old ones over the names read, so by `Storage.PreparedAllContents` each read database gets the root added if absent and every other database keeps its rows. |

## Left out

- Flask and Werkzeug plumbing: request parsing, the `json.loads` of `attributes`, `jsonify`, `send_file` and `redirect` are inputs and `Reply` values. Explicit JSON nulls and non-string JSON values are not modelled.
- The HTML template and `render_template_string` of /_browse are left out; the model stops at the identity data.
- SQLAlchemy and SQLite mechanics are left out: engines, `sessionmaker`, `create_all`, `drop_all`, identity maps and autoflush. A database is four tables in rowid order.
- `created_at` and every timestamp are left out.
- `uuid.uuid4` ids and the signers' tokens are parameters; a freshness precondition stands in for their uniqueness.
- Concurrency is left out. The unsynchronised check-then-insert on the engine cache is a race, and every operation is taken as sequential.
- Filesystem atomicity and crashes are left out: a blob write or copy is one map update.
- Paths are left out. An identity names a directory as given, with no normalisation of `..`, `.` or `/`. In the source, different identity strings that name the same directory (`a`, `a/`, `./a`; or the empty identity and `.`) are different cache keys sharing one box.db, so a reset of one drops the tables another reads. In the model, different identities never share a database.
- The listing of the data directory is a parameter of `Admin.Browse` (names, is-directory, has-box.db).
- `log_request`, `app.py` (wiring, argparse, the hook registration) and `box_mock/routes/collaborations.py` (an echo with no state) are not part of this model.
- Admin.GetTree: `_get_tree` has no visited set, so a folder cycle (which `update_folder` can create) recurses until Python raises RecursionError. The model bounds the depth with a `fuel` parameter and yields None past it. `Admin.SelfParentHasNoTree` shows that a cycle never yields a tree.
- FileRoutes.FirstContent: each part is the first file under its key; later files under the same key are not seen, as with `request.files`.
- Identity.GetIdentity: its own contract gives only the no-';' and no-outer-whitespace properties; the exact result is stated by `Identity.MatchedIdentity`, `Identity.UnmatchedIdentity` and `Identity.EmptyCaptureSkipped`.
