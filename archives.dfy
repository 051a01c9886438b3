/**
 * A resource pack as the zip reader presents it: an ordered sequence of
 * entries, each a directory or a file with its bytes, and what the merge
 * writes into the output archive at a path.
 */
module Archives {
  import opened Wrappers
  import opened JsonValue

  newtype byte = b: int | 0 <= b < 256

  /** A zip entry; its path is both the `relativePath` and the `name` the reader reports. */
  datatype Entry = Dir(path: string) | File(path: string, data: seq<byte>)

  type Archive = seq<Entry>

  /**
   * What the output archive holds at a path: a folder marker, raw bytes, or
   * the text JSON.stringify(doc, null, 2) gives for a merged document.
   */
  datatype Content = Folder | Blob(bytes: seq<byte>) | JsonText(doc: Json)

  predicate EndsWith(s: string, suffix: string)
  {
    |suffix| <= |s| && s[|s| - |suffix|..] == suffix
  }

  /** No two entries share a path (the reader keys entries by name). */
  predicate UniquePaths(z: Archive)
  {
    forall i, j :: 0 <= i < j < |z| ==> z[i].path != z[j].path
  }

  /** The reader's naming rule: exactly the directory entries end with '/'. */
  predicate WellNamed(z: Archive)
  {
    forall i :: 0 <= i < |z| ==> (z[i].Dir? <==> EndsWith(z[i].path, "/"))
  }

  predicate ValidArchive(z: Archive)
  {
    UniquePaths(z) && WellNamed(z)
  }

  /** The entry stored under `p`; a later entry under the same name replaces an earlier one. */
  function Find(z: Archive, p: string): (r: Option<Entry>)
    ensures r.Some? ==> r.value in z && r.value.path == p
    ensures r.None? ==> forall i :: 0 <= i < |z| ==> z[i].path != p
    decreases |z|
  {
    if z == [] then None
    else if z[|z| - 1].path == p then Some(z[|z| - 1])
    else Find(z[..|z| - 1], p)
  }

  /** `zip.file(name)`: the entry under `name` if it is a file, null (None) for a directory or no entry. */
  function FileAt(z: Archive, p: string): (r: Option<seq<byte>>)
    ensures r.Some? <==> Find(z, p).Some? && Find(z, p).value.File?
    ensures r.Some? ==> File(p, r.value) in z
  {
    match Find(z, p)
    case Some(File(_, d)) => Some(d)
    case _ => None
  }

  /** What `entry.async('blob')` yields: a file's bytes; a directory entry holds none. */
  function Payload(e: Entry): seq<byte>
  {
    if e.File? then e.data else []
  }

  /** The paths of the directory entries. */
  function DirPaths(z: Archive): set<string>
  {
    set i | 0 <= i < |z| && z[i].Dir? :: z[i].path
  }

  /** The directories of a pack are those before its last entry, and that entry's path if it is one. */
  lemma DirPathsSnoc(z: Archive)
    requires z != []
    ensures DirPaths(z) == DirPaths(z[..|z| - 1]) + (if z[|z| - 1].Dir? then {z[|z| - 1].path} else {})
  {
    var init, last := z[..|z| - 1], z[|z| - 1];
    forall q | q in DirPaths(z) ensures q in DirPaths(init) + (if last.Dir? then {last.path} else {}) {
      var i :| 0 <= i < |z| && z[i].Dir? && z[i].path == q;
      if i < |init| {
        assert init[i] == z[i];
      }
    }
    forall q | q in DirPaths(init) ensures q in DirPaths(z) {
      var i :| 0 <= i < |init| && init[i].Dir? && init[i].path == q;
      assert z[i] == init[i];
    }
    if last.Dir? {
      assert z[|z| - 1] == last;
    }
  }

  /** The paths of all entries. */
  function Paths(z: Archive): set<string>
  {
    set i | 0 <= i < |z| :: z[i].path
  }

  /** With unique paths, every entry is the one found under its own path. */
  lemma {:induction false} FindUnique(z: Archive, i: nat)
    requires UniquePaths(z) && i < |z|
    ensures Find(z, z[i].path) == Some(z[i])
    decreases |z|
  {
    if i < |z| - 1 {
      var init := z[..|z| - 1];
      assert init[i] == z[i];
      assert UniquePaths(init) by {
        forall a, b | 0 <= a < b < |init| ensures init[a].path != init[b].path {
          assert init[a] == z[a] && init[b] == z[b];
        }
      }
      FindUnique(init, i);
    }
  }

  /** With unique paths, an entry is found under its own path. */
  lemma FoundEntry(z: Archive, e: Entry)
    requires UniquePaths(z) && e in z
    ensures Find(z, e.path) == Some(e)
  {
    var i :| 0 <= i < |z| && z[i] == e;
    FindUnique(z, i);
  }

  /** A path no entry has finds nothing. */
  lemma NotFound(z: Archive, p: string)
    requires p !in Paths(z)
    ensures Find(z, p).None?
  {
  }

  /** A path is a directory path exactly when the entry found under it is a directory. */
  lemma DirPathsFind(z: Archive, p: string)
    requires UniquePaths(z)
    ensures p in DirPaths(z) <==> Find(z, p).Some? && Find(z, p).value.Dir?
  {
    if p in DirPaths(z) {
      var i :| 0 <= i < |z| && z[i].Dir? && z[i].path == p;
      FindUnique(z, i);
    }
    if Find(z, p).Some? {
      var e := Find(z, p).value;
      var i :| 0 <= i < |z| && z[i] == e;
    }
  }

  /** Under the reader's naming rule a path never names a file in one pack and a directory in another. */
  lemma FileAndDirNeverShare(a: Archive, b: Archive, p: string, d: seq<byte>)
    requires WellNamed(a) && WellNamed(b) && File(p, d) in a
    ensures Dir(p) !in b
  {
    var i :| 0 <= i < |a| && a[i] == File(p, d);
    assert !EndsWith(p, "/");
  }
}
