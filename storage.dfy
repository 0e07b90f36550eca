/** The notes bucket of the storage service, as the note pages use it: a map from path to
    the stored text. Calls to the service become parameters carrying their outcome. */
module Storage {

  type Bucket = map<string, string>

  /** The `{ error }` part of an upload or remove call. */
  datatype Outcome = Ok | Failed(message: string)

  /** The result of a `list` call: the names found, or an error. */
  datatype Listing = Listed(names: seq<string>) | ListFailed(message: string)

  /** `${name}/index.html`: where a note's HTML is stored. */
  function IndexPath(name: string): string
  {
    name + "/index.html"
  }

  /** `${noteId}/assets/${file}`: where a note's uploaded file is stored. */
  function AssetPath(noteId: string, file: string): string
  {
    noteId + "/assets/" + file
  }

  /** Two strings that start alike and are equal differ only after the common start. */
  lemma SamePrefix(p: string, a: string, b: string)
    requires p + a == p + b
    ensures a == b
  {
    assert a == (p + a)[|p|..];
  }

  /** Different files of a note are stored at different paths. */
  lemma AssetPathInjective(noteId: string, f: string, g: string)
    requires AssetPath(noteId, f) == AssetPath(noteId, g)
    ensures f == g
  {
    assert noteId + "/assets/" + f == (noteId + "/assets/") + f;
    assert noteId + "/assets/" + g == (noteId + "/assets/") + g;
    SamePrefix(noteId + "/assets/", f, g);
  }

  /** A note's HTML is never one of its own asset files. */
  lemma IndexIsNoAsset(noteId: string, file: string)
    ensures IndexPath(noteId) != AssetPath(noteId, file)
  {
    assert IndexPath(noteId)[|noteId| + 1] == 'i';
    assert AssetPath(noteId, file)[|noteId| + 1] == 'a';
  }

  /** The paths of different notes' HTML differ. */
  lemma IndexPathInjective(a: string, b: string)
    requires IndexPath(a) == IndexPath(b)
    ensures a == b
  {
    var n := |"/index.html"|;
    assert a == IndexPath(a)[..|IndexPath(a)| - n];
    assert b == IndexPath(b)[..|IndexPath(b)| - n];
  }

  /** `upload(path, content, { upsert: true })`: on success the path holds the content. */
  function Upload(bucket: Bucket, path: string, content: string, outcome: Outcome): (r: Bucket)
    ensures outcome.Ok? ==> path in r && r[path] == content && r.Keys == bucket.Keys + {path}
    ensures outcome.Ok? ==> forall p :: p in bucket && p != path ==> p in r && r[p] == bucket[p]
    ensures outcome.Failed? ==> r == bucket
  {
    if outcome.Ok? then bucket[path := content] else bucket
  }

  /** `remove(paths)`: on success none of the paths is stored any more. */
  function Remove(bucket: Bucket, paths: set<string>, outcome: Outcome): (r: Bucket)
    ensures outcome.Ok? ==> r.Keys == bucket.Keys - paths
    ensures forall p :: p in r ==> p in bucket && r[p] == bucket[p]
    ensures outcome.Failed? ==> r == bucket
  {
    if outcome.Ok? then bucket - paths else bucket
  }
}
