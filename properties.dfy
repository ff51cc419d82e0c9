/**
 * What the route promises across its handlers: what a listing reports, and
 * how uploads and deletions show up in the listings that follow them.
 */
module Properties {
  import opened Wrappers
  import opened Params
  import opened Storage
  import opened Route

  // ---------------------------------------------------------------- GET

  /** The names of a metadata listing are the names it was built from. */
  lemma MetadataNames(names: seq<string>, files: map<string, Entry>)
    requires forall n :: n in names ==> n in files
    ensures ListedNames(Meta(Metadata(names, files))) == names
  {
  }

  /** A successful GET reports every `.mp4` file of the directory once, and no other name. */
  lemma ListedAreExactlyVideos(query: Query, d: Dir, listing: seq<string>)
    requires d.present && IsListing(listing, d.files)
    ensures var listed := ListedNames(ListVideos(query, d, listing, None).body);
      Distinct(listed) && forall n :: n in listed <==> n in d.files && IsVideoName(n)
  {
    if WithMeta(query) {
      MetadataNames(VideoNames(listing), d.files);
    }
  }

  // ---------------------------------------------------------------- POST then GET

  /**
   * After a successful upload of `name`, a listing of the directory reports
   * `name` exactly once, with the upload's mtime, when it ends in `.mp4`, and
   * never otherwise, although the file is stored either way.
   */
  lemma UploadThenList(d: Dir, form: Form, name: string, content: seq<byte>, now: int,
                       mkdirError: Option<string>, query: Query, listing: seq<string>)
    requires UploadsFile(form, name, content) && (d.present || mkdirError.None?)
    requires IsListing(listing, UploadVideo(d, form, now, mkdirError, None).0.files)
    ensures var after := UploadVideo(d, form, now, mkdirError, None).0;
      var r := ListVideos(query, after, listing, None);
      after.present && name in after.files && r.status == 200 &&
      (IsVideoName(name) ==> multiset(ListedNames(r.body))[name] == 1) &&
      (!IsVideoName(name) ==> name !in ListedNames(r.body)) &&
      (IsVideoName(name) && WithMeta(query) ==> Video(name, now) in r.body.entries)
  {
    var after := UploadVideo(d, form, now, mkdirError, None).0;
    var r := ListVideos(query, after, listing, None);
    ListedAreExactlyVideos(query, after, listing);
    if IsVideoName(name) {
      DistinctOccursOnce(ListedNames(r.body), name);
      if WithMeta(query) {
        var names := VideoNames(listing);
        var i :| 0 <= i < |names| && names[i] == name;
        assert r.body.entries[i] == Video(name, now);
      }
    }
  }

  /** Uploading under a name that is already there replaces its content: the last write wins. */
  lemma UploadOverwrites(d: Dir, first: Form, second: Form, name: string, c1: seq<byte>, c2: seq<byte>,
                         t1: int, t2: int, mkdirError: Option<string>, again: Option<string>)
    requires UploadsFile(first, name, c1) && UploadsFile(second, name, c2)
    requires d.present || mkdirError.None?
    ensures var once := UploadVideo(d, first, t1, mkdirError, None);
      var twice := UploadVideo(once.0, second, t2, again, None);
      twice.1 == Response(200, Uploaded(name)) &&
      twice.0 == UploadVideo(d, second, t2, mkdirError, None).0
  {
  }

  /** Uploading the same `.mp4` name twice leaves it listed exactly once, with the second mtime. */
  lemma UploadTwiceListedOnce(d: Dir, first: Form, second: Form, name: string, c1: seq<byte>, c2: seq<byte>,
                              t1: int, t2: int, mkdirError: Option<string>, again: Option<string>,
                              query: Query, listing: seq<string>)
    requires UploadsFile(first, name, c1) && UploadsFile(second, name, c2) && IsVideoName(name)
    requires d.present || mkdirError.None?
    requires IsListing(listing, UploadVideo(UploadVideo(d, first, t1, mkdirError, None).0, second, t2, again, None).0.files)
    ensures var twice := UploadVideo(UploadVideo(d, first, t1, mkdirError, None).0, second, t2, again, None).0;
      var r := ListVideos(query, twice, listing, None);
      multiset(ListedNames(r.body))[name] == 1 && twice.files[name] == Entry(c2, t2)
  {
    var once := UploadVideo(d, first, t1, mkdirError, None).0;
    UploadThenList(once, second, name, c2, t2, again, query, listing);
  }

  // ---------------------------------------------------------------- DELETE then GET

  /** After a successful DELETE of `name`, no listing of the directory reports it. */
  lemma DeleteThenList(d: Dir, delQuery: Query, query: Query, listing: seq<string>, readError: Option<string>)
    requires DeleteVideo(d, delQuery, None).1.status == 200
    requires IsListing(listing, DeleteVideo(d, delQuery, None).0.files)
    ensures FilenameParam(delQuery).Some? &&
      FilenameParam(delQuery).value !in ListedNames(ListVideos(query, DeleteVideo(d, delQuery, None).0, listing, readError).body)
  {
  }

  /** Deleting a name a second time answers 404 and changes nothing. */
  lemma DeleteTwice(d: Dir, query: Query, unlinkError: Option<string>)
    requires DeleteVideo(d, query, None).1.status == 200
    ensures var after := DeleteVideo(d, query, None).0;
      DeleteVideo(after, query, unlinkError) == (after, Response(404, Failed(NotFoundMessage)))
  {
  }

  /**
   * Deleting a file just uploaded under a new name gives back the directory
   * as it was, except that it now exists.
   */
  lemma UploadThenDelete(d: Dir, form: Form, name: string, content: seq<byte>, now: int,
                         mkdirError: Option<string>, query: Query)
    requires name !in d.files && name != ""
    requires UploadsFile(form, name, content) && (d.present || mkdirError.None?)
    requires FilenameParam(query) == Some(name)
    ensures var up := UploadVideo(d, form, now, mkdirError, None);
      var del := DeleteVideo(up.0, query, None);
      up.1.status == 200 && del.1.status == 200 && del.0 == Dir(true, d.files)
  {
  }
}
