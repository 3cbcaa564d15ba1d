# Propylon document manager: file versions, downloads and user accounts in Dafny

This project models the core of a small Django REST service. Each authenticated
user uploads file versions. A version is a record with an owner (`created_by`),
a logical `path`, a `file_name`, a `version_number` and a `content_hash`. The
user can later list, retrieve, delete and download their versions. The model
covers:

- **Owner scoping** (`FileVersions`). Every query of the two file view sets
  starts from `get_queryset`, which keeps only the requester's records. A record
  of another owner is therefore answered exactly like a missing one (404).
  `FileVersionStore` is the table. It is a class whose `Create` and `Destroy`
  methods append or delete records. The records are kept in primary-key order,
  so `.first()` on an unordered query set is the match with the lowest primary
  key.
- **Downloads** (`Downloads`). There are three lookups: by primary key; by path
  and file name, with an optional revision, where the latest version wins when
  no revision is given; and by content hash. The model also covers the two URL
  patterns that route a URL tail to the lookups. A tail is the text between
  `files/` and the route's trailing `/`. The hash pattern is tried first, because
  the router lists a view set's extra actions in name order, and
  `download_by_hash` sorts before `download_by_url`. A tail `cas/` plus 64 hex
  digits therefore reaches the hash lookup, even though the path-and-name
  pattern also matches it.
- **User permissions** (`UserPermissions`). `get_permissions` maps an action
  name to a permission class. A lemma states whom each class admits.
- **Accounts** (`Accounts`). The users table holds row values under a unique
  email column. A `User` is an in-memory instance whose fields
  `create_user` / `create_superuser` set one by one before `save` writes them.
  `normalize_email` and the password hasher belong to the framework. They are
  function-valued parameters of `UserProfileManager`.
- **User serializer** (`UserApi`). It covers the field rules (unique email,
  password of at least 8 characters, optional name), `create`, `update` with its
  `setattr` loop, the serialized output, and the registration endpoint.
  `update` cannot be reached through `UserViewSet`, which has no update action.
  It is modelled as the serializer method it is.

Three behaviours of the code are worth stating outright:

- the hash route accepts upper-case hex digits too (`[0-9a-fA-F]{64}`), and the
  hash is then compared exactly as sent;
- a malformed `cas/...` tail is not a separate not-found case. It is looked up
  as the path `cas` with that file name;
- the part of the `FileVersion` model shown declares no uniqueness of (owner,
  file name, version), and tests/test_models.py:92-103 updates `path` after
  creation, so neither uniqueness nor immutability is asserted.

The unique-email validator compares the email exactly as sent, but the table
stores the normalised email. An address that differs from a stored one only in
the case of its domain therefore passes validation. `create_user` then fails on
the unique column (lemma `UniqueCheckPrecedesNormalization`; `Register` answers
`Refused(DuplicateEmail)` instead of `Invalid({Email})`).

## Model

| member | source | states |
|---|---|---|
| `QuerySets.Filter` | src/propylon_document_manager/file_versions/api/views.py:90-92 | a filtered query set holds exactly the rows that satisfy the filter and is never longer than the input |
| `FileVersions.OwnedBy` | src/propylon_document_manager/file_versions/api/views.py:37-38 | `get_queryset` holds exactly the requester's records |
| `FileVersions.FindById` | src/propylon_document_manager/file_versions/api/views.py:60-61 | lookup by pk returns a record of the requester's with that pk, and not-found exactly when the requester has no record with that pk |
| `FileVersions.Without` | src/propylon_document_manager/file_versions/api/views.py:28 | after deleting pk, exactly the rows with another pk remain |
| `FileVersions.FirstIsLowestPk` | src/propylon_document_manager/file_versions/api/views.py:96 | on a table in pk order, `.first()` of any filter is the match with the lowest pk |
| `FileVersions.WithoutRemovesOne` | src/propylon_document_manager/file_versions/api/views.py:28 | deleting by pk removes exactly the one row with that pk and keeps the order of the rest |
| `FileVersions.ForeignRecordInvisible` | src/propylon_document_manager/file_versions/api/views.py:37-38 | inserting another owner's record anywhere leaves the requester's query set unchanged |
| `FileVersions.AppendedRecordScope` | src/propylon_document_manager/file_versions/api/views.py:24-41 | a newly created record shows up only in its owner's query set, as its last element |
| `FileVersions.DeleteInvisibleToOthers` | src/propylon_document_manager/file_versions/api/views.py:28 | deleting one owner's record leaves every other owner's query set unchanged |
| `FileVersions.FileVersionStore.Create` | src/propylon_document_manager/file_versions/api/views.py:40-41 | creation appends a record owned by the requester under a fresh pk and keeps the table in pk order |
| `FileVersions.FileVersionStore.Destroy` | src/propylon_document_manager/file_versions/api/views.py:28 | it deletes exactly when the requester owns a record with that pk, after which no record has that pk; otherwise it reports not-found and changes nothing |
| `Downloads.Latest` | src/propylon_document_manager/file_versions/api/views.py:94-96 | `order_by("-version_number").first()` is a member whose version no member exceeds, and empty only for an empty query set |
| `Downloads.DownloadById` | src/propylon_document_manager/file_versions/api/views.py:60-61 | the requester's record with that pk, or not-found exactly when there is none |
| `Downloads.DownloadByUrl` | src/propylon_document_manager/file_versions/api/views.py:85-98 | the result is the requester's record with that path, name and (if given) revision; without a revision its version is maximal among those; not-found exactly when nothing matches |
| `Downloads.DownloadByHash` | src/propylon_document_manager/file_versions/api/views.py:113-116 | the result is the requester's record whose hash equals the given text; not-found exactly when there is none |
| `Downloads.ExactLookupsTakeLowestPk` | src/propylon_document_manager/file_versions/api/views.py:92-96 | with a revision, and for a hash, the match with the lowest pk is served |
| `Downloads.LastSlash` | src/propylon_document_manager/file_versions/api/views.py:84 | the position found holds `/` and no `/` follows it; -1 means there is none |
| `Downloads.SplitTailSound` | src/propylon_document_manager/file_versions/api/views.py:84 | a split found by the path-and-name pattern rebuilds the tail: a non-empty path without line breaks, then `/`, then a non-empty name without `/` |
| `Downloads.SplitTailComplete` | src/propylon_document_manager/file_versions/api/views.py:84 | every such path and name is exactly the split the pattern finds in `path/name` |
| `Downloads.RouteTail` | src/propylon_document_manager/file_versions/api/views.py:112 | a tail reaches the hash lookup iff it is `cas/` plus 64 hex digits; a path-and-name route rebuilds the tail from a valid split |
| `Downloads.PathRouteComplete` | src/propylon_document_manager/file_versions/api/views.py:84 | every valid path and file name, unless they spell `cas/` plus 64 hex digits, is routed to the path-and-name lookup with exactly that split |
| `Downloads.HashRouteWins` | src/propylon_document_manager/file_versions/api/views.py:112 | `cas/h` is routed to the hash lookup iff h is 64 hex digits, although the path-and-name pattern also matches it (path `cas`) |
| `Downloads.Download` | src/propylon_document_manager/file_versions/api/views.py:44-49 | for a tail either action pattern matches, a served record belongs to the requester |
| `Downloads.ByIdSeesOnlyOwnRecords` | src/propylon_document_manager/file_versions/api/views.py:48-49 | another owner's record changes no answer of the download by pk, so it is indistinguishable from a missing one |
| `Downloads.ByTailSeesOnlyOwnRecords` | src/propylon_document_manager/file_versions/api/views.py:48-49 | another owner's record changes no answer of the downloads by path and name or by hash |
| `Downloads.TwoUploadsByPath` | src/propylon_document_manager/file_versions/api/views.py:90-98 | two uploads of one file under one path: no revision gives the second, revision 1 the first |
| `Downloads.TwoUploadsByHashAndPk` | src/propylon_document_manager/file_versions/api/views.py:112-116 | for the same uploads, the first's hash and the first's pk give the first |
| `Downloads.OtherUserScenario` | src/propylon_document_manager/file_versions/api/views.py:48-49 | a user who owns none of the records gets not-found from every lookup |
| `UserPermissions.ActionAccess` | src/propylon_document_manager/file_versions/api/views.py:127-132 | an action is permitted iff it is `create`, or `me` for a signed-in user, or the user is staff |
| `UserPermissions.PrivilegeMonotone` | src/propylon_document_manager/file_versions/api/views.py:127-132 | what an anonymous user may do a signed-in user may, and what a signed-in user may a staff user may |
| `Accounts.UpsertKeepsUnique` | src/propylon_document_manager/file_versions/models.py:56 | saving a row whose email no other row holds keeps emails and pks unique |
| `Accounts.User.constructor` | src/propylon_document_manager/file_versions/models.py:19-22 | a new instance is unsaved, has the given email and name, no flags and no password |
| `Accounts.User.SetPassword` | src/propylon_document_manager/file_versions/models.py:26 | only the hasher's output (or the unusable marker for no password) is stored |
| `Accounts.UserTable.Save` | src/propylon_document_manager/file_versions/models.py:27 | save inserts or updates the instance's row and gives a new instance its pk; it is refused, changing nothing, iff another row holds the email; emails stay unique |
| `Accounts.UserProfileManager.CreateUser` | src/propylon_document_manager/file_versions/models.py:13-29 | an empty email is refused; otherwise the user is saved with the normalised email, the given name, neither flag and the hashed password, iff the normalised email is not already held |
| `Accounts.UserProfileManager.CreateSuperuser` | src/propylon_document_manager/file_versions/models.py:31-42 | the same refusals as `create_user`; the saved row has both the staff and superuser flags |
| `UserApi.Validate` | src/propylon_document_manager/file_versions/api/serializers.py:16-37 | validation succeeds exactly when neither the email rule (present unless partial, non-blank, an email address, not held by another user) nor the password rule (present unless partial, at least 8 characters) fails; on failure the error names exactly the failing fields and never the name; a held email fails on `email`, a short password on `password`; success on a full payload means a non-blank, well-formed, unheld email and a long enough password; the id is dropped |
| `UserApi.IdIsReadOnly` | src/propylon_document_manager/file_versions/api/serializers.py:37 | the client's id has no effect on validation |
| `UserApi.UniqueCheckPrecedesNormalization` | src/propylon_document_manager/file_versions/api/serializers.py:17-22 | an email that differs from a stored one only in its domain's case passes the unique validator, although its normalised form is held |
| `UserApi.PasswordNeverSerialized` | src/propylon_document_manager/file_versions/api/serializers.py:36 | the output depends only on id, email and name, never on the password |
| `UserApi.Create` | src/propylon_document_manager/file_versions/api/serializers.py:39-46 | the user is created through `create_user` with the name defaulting to `""`, the hashed password and neither flag; it fails exactly on an empty email or a normalised email already held, and names which |
| `UserApi.AssignedRemaining` | src/propylon_document_manager/file_versions/api/serializers.py:51-52 | assigning the remaining items sets exactly the sent email and name and leaves the others as they were |
| `UserApi.Update` | src/propylon_document_manager/file_versions/api/serializers.py:48-54 | a sent password goes only through the hasher; sent fields are overwritten, others and the flags unchanged; then the instance is saved under the table's rules |
| `UserApi.Register` | src/propylon_document_manager/file_versions/api/views.py:122-124 | invalid input is answered with its failing fields and changes nothing; valid input succeeds exactly when its normalised email is free, and is otherwise refused as a duplicate email; success appends one row, neither staff nor superuser, and answers its id, email and name |

## Left out

- Version-number assignment, content hashing, file size, MIME type, path validation and the storage key: the `FileVersion` model beyond `file_name` and `version_number` is not part of this model. `version_number` and `content_hash` are plain values given to `Create`.
- How `created_by` is filled on upload: the upload serializer is not part of this model. `Create` takes the requester as the owner, as the uploads do.
- Serving the bytes (`FileResponse`), blob storage and removal of the backing file on delete: I/O. A lookup returns the record that would be served.
- Concurrent uploads and retries: concurrency.
- Authentication, sessions and tokens: the requester is a parameter. The email syntax check, `normalize_email` and the password hasher are framework code and are parameters. The transient in-memory copy of the raw password that the framework keeps until the next save is not modelled.
- Parsing of the `revision` query parameter: it arrives as an integer. A non-numeric revision makes the database lookup raise an error, which is not modelled.
- The primary-key download route and its `[^/.]+` pattern, router registration and the `DEBUG` router choice: plumbing of the framework's router. `DownloadById` takes the pk as a number, and `Download` covers only tails that one of the two action patterns matches.
- List pagination and the schema decorators: plumbing. The list is `OwnedBy`.
- Whitespace trimming and `null` handling by the serializer's character fields: framework parsing. Values arrive trimmed and non-null.
- The 255-character limit on `name` is enforced only by the database column, not by the serializer, and is not modelled.
- A missing email to `create_user` is modelled as the empty string. Both are refused alike.
- `UserViewSet.me`: it returns the serialized requesting user, which is `Representation`.
- The order of `.first()`: the model keeps the table in primary-key order, which is the order Django uses for `.first()` on a query set only when the `FileVersion` model declares no default `Meta.ordering`. Its declaration is not part of this model, so `FileVersions.FirstIsLowestPk` and `Downloads.ExactLookupsTakeLowestPk` rest on that assumption.
- FileVersions.AppendedRecordScope: the model's query set is in pk order, so the new record comes last; the list endpoint promises no order, only which records it holds.
- Downloads.Latest: among records with equal maximal version the model serves the earliest in pk order. The database promises no particular one, so the contract states only maximality.
