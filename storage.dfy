/**
 * The storage directory `public/videos`: one flat directory whose files are
 * the whole persistent state of the application. A file is named by its
 * file name; it holds bytes and a modification time.
 */
module Storage {

  newtype byte = x: int | 0 <= x < 256

  /** A file in the directory: its content and its last-modified time, an opaque timestamp. */
  datatype Entry = Entry(content: seq<byte>, mtime: int)

  /** The directory: whether it exists on disk, and its files by name. */
  datatype Dir = Dir(present: bool, files: map<string, Entry>) {
    /** A directory that does not exist holds no files. */
    ghost predicate Valid() {
      !present ==> files == map[]
    }
  }

  /** The extension the listing keeps. */
  const VideoSuffix: string := ".mp4"

  /** JavaScript's `s.endsWith(suffix)`: case-sensitive, and true when `s == suffix`. */
  predicate EndsWith(s: string, suffix: string) {
    |suffix| <= |s| && s[|s| - |suffix|..] == suffix
  }

  predicate IsVideoName(name: string) {
    EndsWith(name, VideoSuffix)
  }

  ghost predicate Distinct<T>(s: seq<T>) {
    forall i, j :: 0 <= i < j < |s| ==> s[i] != s[j]
  }

  /**
   * What `readdirSync` returns for a directory holding `files`: every name
   * once, in an order the file system chooses.
   */
  ghost predicate IsListing(listing: seq<string>, files: map<string, Entry>) {
    Distinct(listing) && forall n :: n in listing <==> n in files
  }

  /** `listing.filter(file => file.endsWith('.mp4'))`. */
  function VideoNames(listing: seq<string>): (r: seq<string>)
    ensures forall n :: n in r <==> n in listing && IsVideoName(n)
    ensures Distinct(listing) ==> Distinct(r)
  {
    if listing == [] then []
    else if IsVideoName(listing[0]) then [listing[0]] + VideoNames(listing[1..])
    else VideoNames(listing[1..])
  }

  /** Filtering keeps the order of the listing: it distributes over concatenation. */
  lemma {:induction false} VideoNamesAppend(a: seq<string>, b: seq<string>)
    ensures VideoNames(a + b) == VideoNames(a) + VideoNames(b)
  {
    if a != [] {
      assert (a + b)[1..] == a[1..] + b;
      VideoNamesAppend(a[1..], b);
    } else {
      assert a + b == b;
    }
  }

  /** In a sequence without repetitions, every element occurs exactly once. */
  lemma {:induction false} DistinctOccursOnce<T>(s: seq<T>, x: T)
    requires Distinct(s) && x in s
    ensures multiset(s)[x] == 1
  {
    assert s == [s[0]] + s[1..];
    if s[0] == x {
      assert x !in s[1..];
    } else {
      DistinctOccursOnce(s[1..], x);
    }
  }
}
