# cvideo route: a Dafny model

A model of the `/api/cvideo` route of a small video-upload web application.
The route has three handlers over one flat storage directory, `public/videos`:

- `GET` lists the files whose name ends in `.mp4`. With the query `meta=1`
  it also returns each file's modification time. A missing directory lists
  as empty.
- `POST` takes the multipart field `video`. It creates the directory when it
  is missing, then writes the file under its client-supplied name. A file
  already there under that name is overwritten.
- `DELETE` takes the query parameter `filename`. It answers 400 when the
  parameter is missing and 404 when there is no such file; otherwise it
  removes the file.

Each handler's `catch` turns any I/O failure into status 500.

The directory is a value `Storage.Dir`: a flag saying whether it exists,
and a map from file name to an `Entry` holding the content bytes and an
opaque integer mtime. `GET` is a pure query over that value. `Route.ListVideos`
models it. `POST` and `DELETE` change the directory in place. In the model
they are the methods `Post` and `Delete` of the class
`Handlers.VideoDirectory`, which updates its `present` and `files` fields
step by step as the handlers do. Each method is proved to produce exactly
the directory and response given by the functions `Route.UploadVideo`
and `Route.DeleteVideo`. Those functions carry the contracts, and the
cross-handler lemmas in module `Properties` are stated over them.

The outside world is modelled by parameters:

- The order in which `readdirSync` returns names is the argument `listing`.
  It is constrained only to name every file once (`Storage.IsListing`);
  this is a guarantee of the file system, not a demand on the route's callers.
- Every I/O failure is an `Option<string>` argument. `Some(message)` means
  the call throws with that message. The arguments are `readError` for
  `readdirSync`/`statSync`, `mkdirError` for `mkdirSync`, `writeError` for
  `writeFileSync` and `unlinkError` for `unlinkSync`.
- A body that `request.formData()` cannot parse is `Form.Unreadable`.
- The mtime that the file system gives a written file is the argument `now`.

Query strings and form bodies are ordered lists of name/value pairs.
`URLSearchParams.get` and `FormData.get` return the first value under a name;
`Params.First` models both.

Some JavaScript truthiness cases are modelled as the code behaves:

- `!file` also holds for a `video` field that is the empty string, which
  gives 400.
- A non-empty text `video` field reaches `file.arrayBuffer()`. That call
  throws a `TypeError`, which the `catch` turns into 500.
- `!filename` also holds for `filename=` (the empty string), which gives 400.
- When `mkdirSync` succeeds and `writeFileSync` then fails, the directory has
  been created but no file was written.

## Model

| member | source | states |
|---|---|---|
| `Params.First` | app/api/cvideo/route.js:7-8 | `get(key)` is absent exactly when no pair has that name; otherwise it is the value of the first pair with that name |
| `Storage.VideoNames` | app/api/cvideo/route.js:17-18 | the `.mp4` filter keeps exactly the listing's names that end in `.mp4`, and keeps them free of repetitions |
| `Storage.VideoNamesAppend` | app/api/cvideo/route.js:18 | filtering keeps listing order: it distributes over concatenation of listings |
| `Params.FirstSkips` | app/api/cvideo/route.js:7-8 | pairs before the first one with the asked name do not affect `get`: it returns that first pair's value whatever follows |
| `Route.WithMeta` | app/api/cvideo/route.js:8 | metadata is on exactly when the first `meta` value in the query is the string `"1"`; any other value, or no `meta`, gives the plain list |
| `Route.Metadata` | app/api/cvideo/route.js:21-24 | one `{name, mtime}` per filtered name, in the same order, with the mtime stored for that name |
| `Route.ListVideos` | app/api/cvideo/route.js:6-41 | missing directory: 200 and an empty list. Read failure: 500 with an empty list and the error message. Otherwise: 200 with the filtered names, or with one `{name, mtime}` per name in the same order when metadata is on |
| `Route.UploadVideo` | app/api/cvideo/route.js:43-74 | status is 200, 400 or 500. 400 exactly when the `video` field is missing or empty; then the directory is unchanged and the body is the missing-file error. 200 exactly when the field is a file and no I/O call fails; then the directory exists, `file.name` maps to the uploaded bytes with mtime `now`, every other entry is kept, and the body carries `filename = file.name`. On 500 the files are unchanged and the body is `{error}` with the thrown message (form parse, `arrayBuffer` on a text field, `mkdirSync` or `writeFileSync`); the directory flag is unchanged unless `mkdirSync` succeeded before the write failed. Preserves "a missing directory holds no files" |
| `Route.DeleteVideo` | app/api/cvideo/route.js:76-105 | 400 exactly when `filename` is missing or empty, with the missing-name error. 404 exactly when it is given but names no file (for a valid directory: no entry of that name), with the not-found error. 500 exactly when the file exists and `unlinkSync` fails, with its message. On all three the directory is unchanged. On 200 exactly that entry is removed and every other entry and the directory flag are kept |
| `Handlers.VideoDirectory.Post` | app/api/cvideo/route.js:43-74 | the in-place handler leaves the directory and answers exactly as `Route.UploadVideo` says, and keeps the object invariant |
| `Handlers.VideoDirectory.Delete` | app/api/cvideo/route.js:76-105 | the in-place handler leaves the directory and answers exactly as `Route.DeleteVideo` says, and keeps the object invariant |
| `Properties.MetadataNames` | app/api/cvideo/route.js:21-24 | the names of a metadata listing are the filtered names it was built from |
| `Properties.ListedAreExactlyVideos` | app/api/cvideo/route.js:17-30 | a successful `GET`, with or without metadata, reports every `.mp4` file of the directory exactly once and no other name |
| `Properties.UploadThenList` | app/api/cvideo/route.js:57-66 | after a successful upload of `name`, a listing reports `name` exactly once (with mtime `now` under metadata) when it ends in `.mp4`, and never when it does not, although the file is stored either way |
| `Properties.UploadOverwrites` | app/api/cvideo/route.js:62-63 | uploading twice under one name gives the same directory as the second upload alone: the last write wins |
| `Properties.UploadTwiceListedOnce` | app/api/cvideo/route.js:62-63 | after two uploads of the same `.mp4` name it is listed exactly once and holds the second content and mtime |
| `Properties.DeleteThenList` | app/api/cvideo/route.js:94 | after a successful delete, no listing of the directory reports the deleted name |
| `Properties.DeleteTwice` | app/api/cvideo/route.js:88-93 | deleting the same name again answers 404 and changes nothing |
| `Properties.UploadThenDelete` | app/api/cvideo/route.js:57-98 | deleting a file just uploaded under a new non-empty name restores the previous files; the directory is left existing |

## Left out

- The file system calls themselves (`existsSync`, `readdirSync`, `statSync`, `mkdirSync`, `writeFileSync`, `unlinkSync`). They are replaced by the `Dir` value and the error arguments.
- `path.join` normalisation of the client-supplied file name. The model treats a name as an opaque map key. So a name with `..` or `/` that escapes the directory is not modelled (path traversal). Neither is a name such as `.` that resolves to the directory itself; there `writeFileSync` and `unlinkSync` fail.
- Route.UploadVideo: an empty file name is stored as the key `""` and answered with 200, whereas `path.join(videosDir, "")` is the directory itself, so the real `writeFileSync` always fails there with 500. The model does not capture this, because it does not model path resolution.
- Case-insensitive or normalising file systems, where two different names (`A.mp4` and `a.mp4`, or two Unicode spellings) denote one file. The model keys files by the exact string, so these names are distinct entries.
- Partial effects of a failing call. A `writeFileSync` that truncates and then fails, or a recursive `mkdirSync` that creates only some parents, is modelled as making no change.
- Which read call failed in `GET`. One `readError` stands for a failing `readdirSync` or any failing `statSync`.
- Files that change during a listing. A file that vanishes between `readdirSync` and `statSync` (a concurrent delete) is not modelled, because the listing always matches the directory.
- Multipart parsing, `arrayBuffer`/`Buffer` conversion, JSON serialisation, headers and `Response` construction. A response is a status and a `Body` datatype.
- Clock and `stat` values are opaque integers, and the mtime of a written file is the caller's `now`. `Date` parsing and formatting are left out.
- Concurrency between requests. The route has no locking, and racing uploads or deletes have no defined outcome.
- The React pages `app/page.js` and `app/videos/page.js` (forms, previews, confirmation dialogs, and the client-side sort of the list by mtime).
