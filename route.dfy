/**
 * The three handlers of the `/api/cvideo` route, each as a function of its
 * request, of the storage directory and of the outcome of the file-system
 * calls it makes:
 *   - ListVideos   GET    `?meta=1` optional, lists the `.mp4` files;
 *   - UploadVideo  POST   multipart field `video`, writes it under its own name;
 *   - DeleteVideo  DELETE `?filename=<name>`, removes that file.
 * An I/O failure is an `error` argument: `Some(message)` means the call
 * throws with that message, and the handler's `catch` answers 500.
 */
module Route {
  import opened Wrappers
  import opened Params
  import opened Storage

  /** One element of the metadata listing, `{name, mtime}`. */
  datatype Video = Video(name: string, mtime: int)

  /** A value of a multipart form field: an uploaded file, or plain text. */
  datatype FormValue = FileField(name: string, content: seq<byte>) | TextField(text: string)

  /** The body of a POST as `request.formData()` sees it: unparseable, or its fields in order. */
  datatype Form = Unreadable(error: string) | Fields(fields: seq<(string, FormValue)>)

  /** The JSON payloads the route answers with. */
  datatype Body =
    | Names(videos: seq<string>)    // {videos: [name, ...]}
    | Meta(entries: seq<Video>)     // {videos: [{name, mtime}, ...]}
    | ListFailed(error: string)     // {videos: [], error}
    | Uploaded(filename: string)    // {success: true, filename}
    | Deleted                       // {success: true}
    | Failed(error: string)         // {error}

  datatype Response = Response(status: nat, body: Body)

  type Query = seq<(string, string)>

  const NoVideoMessage: string := "未收到视频文件"
  const NoFilenameMessage: string := "缺少文件名"
  const NotFoundMessage: string := "文件不存在"
  /** What JavaScript throws when the `video` field is text: it has no `arrayBuffer` method. */
  const NotAFileMessage: string := "file.arrayBuffer is not a function"

  // ---------------------------------------------------------------- GET

  /** The metadata switch: the first `meta` query value is exactly `"1"`. */
  predicate WithMeta(query: Query): (on: bool)
    ensures on <==> exists i :: FirstAt(query, "meta", i) && query[i].1 == "1"
  {
    First(query, "meta") == Some("1")
  }

  /** `names.map(name => ({name, mtime: statSync(name).mtime}))`. */
  function Metadata(names: seq<string>, files: map<string, Entry>): (r: seq<Video>)
    requires forall n :: n in names ==> n in files
    ensures |r| == |names|
    ensures forall i :: 0 <= i < |names| ==> r[i].name == names[i] && r[i].mtime == files[names[i]].mtime
  {
    if names == [] then []
    else [Video(names[0], files[names[0]].mtime)] + Metadata(names[1..], files)
  }

  /**
   * GET. `listing` is what `readdirSync` returns; `readError` is the failure
   * of the directory read, or of a `statSync` call on the metadata path.
   */
  function ListVideos(query: Query, d: Dir, listing: seq<string>, readError: Option<string>): (r: Response)
    requires IsListing(listing, d.files)
    ensures r.status == 200 <==> !d.present || readError.None?
    ensures r.status == 500 <==> d.present && readError.Some?
    ensures r.status == 500 ==> r.body == ListFailed(readError.value)
    ensures !d.present ==> r == Response(200, Names([]))
    ensures d.present && readError.None? && !WithMeta(query) ==> r.body == Names(VideoNames(listing))
    ensures d.present && readError.None? && WithMeta(query) ==>
      var names := VideoNames(listing);
      r.body.Meta? && |r.body.entries| == |names| &&
      forall i :: 0 <= i < |names| ==> r.body.entries[i] == Video(names[i], d.files[names[i]].mtime)
  {
    if !d.present then Response(200, Names([]))
    else if readError.Some? then Response(500, ListFailed(readError.value))
    else
      var names := VideoNames(listing);
      if WithMeta(query) then Response(200, Meta(Metadata(names, d.files)))
      else Response(200, Names(names))
  }

  /** The names a successful listing reports, with or without metadata. */
  function ListedNames(b: Body): seq<string> {
    match b
    case Names(videos) => videos
    case Meta(entries) => seq(|entries|, i requires 0 <= i < |entries| => entries[i].name)
    case _ => []
  }

  // ---------------------------------------------------------------- POST

  /** The `video` field of the form, `formData.get('video')`. */
  function VideoField(fields: seq<(string, FormValue)>): Option<FormValue> {
    First(fields, "video")
  }

  /** `!file`: the field is absent (`null`) or the empty string. */
  predicate MissingVideo(form: Form) {
    form.Fields? &&
    var v := VideoField(form.fields);
    v.None? || v.value == TextField("")
  }

  /** The form carries a file named `name` with content `content` in its `video` field. */
  predicate UploadsFile(form: Form, name: string, content: seq<byte>) {
    form.Fields? && VideoField(form.fields) == Some(FileField(name, content))
  }

  /** The `video` field holds a file, so the handler goes on to the file-system calls. */
  predicate IsFileUpload(form: Form) {
    form.Fields? && VideoField(form.fields).Some? && VideoField(form.fields).value.FileField?
  }

  /**
   * POST: the new directory and the response. `now` is the modification time
   * the file system gives the written file; `mkdirError` is the failure of
   * `mkdirSync` (only called when the directory is missing) and `writeError`
   * that of `writeFileSync`.
   */
  function UploadVideo(d: Dir, form: Form, now: int, mkdirError: Option<string>, writeError: Option<string>): (res: (Dir, Response))
    ensures res.1.status in {200, 400, 500}
    ensures res.1.status == 400 <==> MissingVideo(form)
    ensures res.1.status != 200 ==> res.0.files == d.files
    ensures res.1.status == 400 ==> res.0 == d && res.1.body == Failed(NoVideoMessage)
    ensures res.1.status == 200 <==>
      IsFileUpload(form) && (d.present || mkdirError.None?) && writeError.None?
    ensures res.1.status == 200 ==>
      var name := VideoField(form.fields).value.name;
      res.0.present && res.1.body == Uploaded(name) &&
      name in res.0.files && res.0.files[name] == Entry(VideoField(form.fields).value.content, now) &&
      res.0.files.Keys == d.files.Keys + {name} &&
      forall k :: k in d.files && k != name ==> res.0.files[k] == d.files[k]
    ensures res.1.status == 500 ==>
      res.1.body.Failed? &&
      res.0.present == (d.present || (IsFileUpload(form) && mkdirError.None?))
    ensures form.Unreadable? ==> res == (d, Response(500, Failed(form.error)))
    ensures form.Fields? && VideoField(form.fields).Some? && VideoField(form.fields).value.TextField? ==>
      VideoField(form.fields).value.text != "" ==> res == (d, Response(500, Failed(NotAFileMessage)))
    ensures IsFileUpload(form) && !d.present && mkdirError.Some? ==>
      res == (d, Response(500, Failed(mkdirError.value)))
    ensures IsFileUpload(form) && (d.present || mkdirError.None?) && writeError.Some? ==>
      res == (Dir(true, d.files), Response(500, Failed(writeError.value)))
    ensures d.Valid() ==> res.0.Valid()
  {
    match form
    case Unreadable(e) => (d, Response(500, Failed(e)))
    case Fields(fields) =>
      match VideoField(fields)
      case None => (d, Response(400, Failed(NoVideoMessage)))
      case Some(TextField(t)) =>
        if t == "" then (d, Response(400, Failed(NoVideoMessage)))
        else (d, Response(500, Failed(NotAFileMessage)))
      case Some(FileField(name, content)) =>
        if !d.present && mkdirError.Some? then (d, Response(500, Failed(mkdirError.value)))
        else if writeError.Some? then (Dir(true, d.files), Response(500, Failed(writeError.value)))
        else (Dir(true, d.files[name := Entry(content, now)]), Response(200, Uploaded(name)))
  }

  // ---------------------------------------------------------------- DELETE

  /** `searchParams.get('filename')`. */
  function FilenameParam(query: Query): Option<string> {
    First(query, "filename")
  }

  /** `!filename`: the parameter is absent (`null`) or the empty string. */
  predicate MissingFilename(query: Query) {
    var f := FilenameParam(query);
    f.None? || f.value == ""
  }

  /** `existsSync(path.join(videosDir, name))`. */
  predicate FileExists(d: Dir, name: string) {
    d.present && name in d.files
  }

  /** DELETE: the new directory and the response. `unlinkError` is the failure of `unlinkSync`. */
  function DeleteVideo(d: Dir, query: Query, unlinkError: Option<string>): (res: (Dir, Response))
    ensures res.1.status in {200, 400, 404, 500}
    ensures res.1.status == 400 <==> MissingFilename(query)
    ensures res.1.status == 404 <==> !MissingFilename(query) && !FileExists(d, FilenameParam(query).value)
    ensures res.1.status == 500 <==>
      !MissingFilename(query) && FileExists(d, FilenameParam(query).value) && unlinkError.Some?
    ensures res.1.status != 200 ==> res.0 == d
    ensures res.1.status == 400 ==> res.1.body == Failed(NoFilenameMessage)
    ensures res.1.status == 404 ==> res.1.body == Failed(NotFoundMessage)
    ensures res.1.status == 500 ==> res.1.body == Failed(unlinkError.value)
    ensures d.Valid() ==>
      (res.1.status == 404 <==> !MissingFilename(query) && FilenameParam(query).value !in d.files)
    ensures res.1.status == 200 ==>
      var name := FilenameParam(query).value;
      res.1.body == Deleted && res.0.present == d.present &&
      name in d.files && name !in res.0.files &&
      res.0.files.Keys == d.files.Keys - {name} &&
      forall k :: k in res.0.files ==> res.0.files[k] == d.files[k]
    ensures d.Valid() ==> res.0.Valid()
  {
    var filename := FilenameParam(query);
    if filename.None? || filename.value == "" then (d, Response(400, Failed(NoFilenameMessage)))
    else if !FileExists(d, filename.value) then (d, Response(404, Failed(NotFoundMessage)))
    else if unlinkError.Some? then (d, Response(500, Failed(unlinkError.value)))
    else (Dir(d.present, d.files - {filename.value}), Response(200, Deleted))
  }
}
