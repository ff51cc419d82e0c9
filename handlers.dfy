/**
 * The storage directory as the route's POST and DELETE handlers change it:
 * in place, one file-system call after another. Each handler is proved to
 * leave the directory, and to answer, exactly as the corresponding function
 * of module Route says.
 */
module Handlers {
  import opened Wrappers
  import opened Params
  import opened Storage
  import opened Route

  class VideoDirectory {
    var present: bool
    var files: map<string, Entry>

    ghost predicate Valid()
      reads this
    {
      Snapshot().Valid()
    }

    /** The directory as a value, what GET reads. */
    function Snapshot(): Dir
      reads this
    {
      Dir(present, files)
    }

    constructor (d: Dir)
      requires d.Valid()
      ensures Valid() && Snapshot() == d
    {
      present := d.present;
      files := d.files;
    }

    /** POST /api/cvideo. */
    method Post(form: Form, now: int, mkdirError: Option<string>, writeError: Option<string>) returns (r: Response)
      requires Valid()
      modifies this
      ensures Valid()
      ensures (Snapshot(), r) == UploadVideo(old(Snapshot()), form, now, mkdirError, writeError)
    {
      if form.Unreadable? {
        return Response(500, Failed(form.error));
      }
      var video := VideoField(form.fields);
      if video.None? || video.value == TextField("") {
        return Response(400, Failed(NoVideoMessage));
      }
      if video.value.TextField? {
        return Response(500, Failed(NotAFileMessage));
      }
      var name, content := video.value.name, video.value.content;
      if !present {
        if mkdirError.Some? {
          return Response(500, Failed(mkdirError.value));
        }
        present := true;
      }
      if writeError.Some? {
        return Response(500, Failed(writeError.value));
      }
      files := files[name := Entry(content, now)];
      r := Response(200, Uploaded(name));
    }

    /** DELETE /api/cvideo. */
    method Delete(query: Query, unlinkError: Option<string>) returns (r: Response)
      requires Valid()
      modifies this
      ensures Valid()
      ensures (Snapshot(), r) == DeleteVideo(old(Snapshot()), query, unlinkError)
    {
      var filename := FilenameParam(query);
      if filename.None? || filename.value == "" {
        return Response(400, Failed(NoFilenameMessage));
      }
      if !(present && filename.value in files) {
        return Response(404, Failed(NotFoundMessage));
      }
      if unlinkError.Some? {
        return Response(500, Failed(unlinkError.value));
      }
      files := files - {filename.value};
      r := Response(200, Deleted);
    }
  }
}
