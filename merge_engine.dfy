/**
 * The two passes of handleMerge as functions on a stage (output archive,
 * `outputFolders`, log), an independent path-by-path description of the
 * archive they produce, and the properties of that archive.
 */
module MergeEngine {
  import opened Wrappers
  import opened JsonValue
  import opened MergePolicy
  import opened Archives

  /**
   * How mergeFiles turns the two parsed texts of the file `name` into what it
   * writes.  The passes are stated for any such function; the component uses
   * MergePolicy.MergeDocuments.
   */
  type DocMerge = (string, Option<Json>, Option<Json>) -> Outcome

  /** What the passes build: the output archive, the folders the A pass recorded, and the log. */
  datatype Stage = Stage(output: map<string, Content>, folders: set<string>, log: seq<string>)

  function MapGet(m: map<string, Content>, p: string): Option<Content>
  {
    if p in m then Some(m[p]) else None
  }

  /** Writes `c` at `p` when there is something to write. */
  function Put(m: map<string, Content>, p: string, c: Option<Content>): map<string, Content>
  {
    if c.Some? then m[p := c.value] else m
  }

  /** What a completed mergeFiles call writes: the merged document, or nothing. */
  function MergeWrite(o: Outcome): Option<Content>
  {
    if o.Merged? then Some(JsonText(o.doc)) else None
  }

  /** `mergeFiles(content1, content2, result, relativePath, fileName)`, run to completion. */
  function MergeFilesStep(st: Stage, parse: seq<byte> -> Option<Json>, merge: DocMerge, content1: seq<byte>,
                          content2: seq<byte>, relativePath: string, fileName: string): Stage
  {
    var pa, pb := parse(content1), parse(content2);
    Stage(Put(st.output, relativePath, MergeWrite(merge(fileName, pa, pb))), st.folders,
          st.log + ParseMessages(pa, pb, fileName))
  }

  // ---------------------------------------------------------------------
  // The A pass
  // ---------------------------------------------------------------------

  /** An A file goes to mergeFiles when B has a file of the same name and the name ends in ".json". */
  predicate RoutedToMerge(e: Entry, b: Archive)
  {
    e.File? && FileAt(b, e.path).Some? && EndsWith(e.path, ".json")
  }

  /** One callback of `zip1.forEach`. */
  function AStep(st: Stage, e: Entry, b: Archive, parse: seq<byte> -> Option<Json>, merge: DocMerge): (r: Stage)
    ensures r.log == st.log + AMessages(e, b, parse)
    ensures r.folders == if e.Dir? then st.folders + {e.path} else st.folders
    ensures forall p :: p != e.path ==> MapGet(r.output, p) == MapGet(st.output, p)
  {
    match e
    case Dir(p) => Stage(st.output[p := Folder], st.folders + {p}, st.log)
    case File(p, d) =>
      if RoutedToMerge(e, b) then MergeFilesStep(st, parse, merge, d, FileAt(b, p).value, p, p)
      else Stage(st.output[p := Blob(d)], st.folders, st.log)
  }

  /** `zip1.forEach` over the entries `a`, from the stage `st`. */
  function APass(a: Archive, b: Archive, parse: seq<byte> -> Option<Json>, merge: DocMerge, st: Stage): (r: Stage)
    ensures st.folders <= r.folders
    ensures forall p :: p !in Paths(a) ==> MapGet(r.output, p) == MapGet(st.output, p)
    decreases |a|
  {
    if a == [] then st
    else
      var init := a[..|a| - 1];
      assert forall i :: 0 <= i < |init| ==> init[i] == a[i];
      assert Paths(init) <= Paths(a);
      AStep(APass(init, b, parse, merge, st), a[|a| - 1], b, parse, merge)
  }

  /** What the A pass writes for one entry, whatever came before. */
  function AWrite(e: Entry, b: Archive, parse: seq<byte> -> Option<Json>, merge: DocMerge): Option<Content>
  {
    if e.Dir? then Some(Folder)
    else if RoutedToMerge(e, b) then MergeWrite(merge(e.path, parse(e.data), parse(FileAt(b, e.path).value)))
    else Some(Blob(e.data))
  }

  /** What the A pass logs for one entry. */
  function AMessages(e: Entry, b: Archive, parse: seq<byte> -> Option<Json>): seq<string>
  {
    if RoutedToMerge(e, b)
    then ParseMessages(parse(e.data), parse(FileAt(b, e.path).value), e.path)
    else []
  }

  /** The parse errors of the whole A pass, entry by entry in A's order. */
  function ParseErrors(a: Archive, b: Archive, parse: seq<byte> -> Option<Json>): seq<string>
    decreases |a|
  {
    if a == [] then [] else ParseErrors(a[..|a| - 1], b, parse) + AMessages(a[|a| - 1], b, parse)
  }

  // ---------------------------------------------------------------------
  // The B pass
  // ---------------------------------------------------------------------

  /**
   * One callback of `zip2.forEach`: a directory the A pass did not record is
   * emitted; any other entry, a recorded directory included, is copied when
   * A has no file of that name.
   */
  function BStep(st: Stage, e: Entry, a: Archive): (r: Stage)
    ensures r.folders == st.folders && r.log == st.log
    ensures MapGet(r.output, e.path) ==
              if BWrite(e, st.folders, a).Some? then BWrite(e, st.folders, a) else MapGet(st.output, e.path)
    ensures forall p :: p != e.path ==> MapGet(r.output, p) == MapGet(st.output, p)
  {
    if e.Dir? && e.path !in st.folders then st.(output := st.output[e.path := Folder])
    else if FileAt(a, e.path).None? then st.(output := st.output[e.path := Blob(Payload(e))])
    else st
  }

  /** `zip2.forEach` over the entries `b`; it changes neither the folders nor the log. */
  function BPass(b: Archive, a: Archive, st: Stage): (r: Stage)
    ensures r.folders == st.folders && r.log == st.log
    ensures forall p :: p !in Paths(b) ==> MapGet(r.output, p) == MapGet(st.output, p)
    decreases |b|
  {
    if b == [] then st
    else
      var init := b[..|b| - 1];
      assert forall i :: 0 <= i < |init| ==> init[i] == b[i];
      assert Paths(init) <= Paths(b);
      BStep(BPass(init, a, st), b[|b| - 1], a)
  }

  function BWrite(e: Entry, folders: set<string>, a: Archive): Option<Content>
  {
    if e.Dir? && e.path !in folders then Some(Folder)
    else if FileAt(a, e.path).None? then Some(Blob(Payload(e)))
    else None
  }

  /** The merge body of handleMerge: a fresh output archive and folder record, the A pass, then the B pass. */
  function Merge(a: Archive, b: Archive, parse: seq<byte> -> Option<Json>, merge: DocMerge, log0: seq<string>): (r: Stage)
    ensures r.folders == DirPaths(a)
    ensures r.log == log0 + ParseErrors(a, b, parse)
    ensures forall p :: p !in Paths(a) + Paths(b) ==> p !in r.output
  {
    APassFolders(a, b, parse, merge, Stage(map[], {}, log0));
    APassLog(a, b, parse, merge, Stage(map[], {}, log0));
    BPass(b, a, APass(a, b, parse, merge, Stage(map[], {}, log0)))
  }

  /** The merge body is the B pass run on what the A pass built from a fresh stage. */
  lemma MergeIsPasses(a: Archive, b: Archive, parse: seq<byte> -> Option<Json>, merge: DocMerge, log0: seq<string>)
    ensures Merge(a, b, parse, merge, log0) == BPass(b, a, APass(a, b, parse, merge, Stage(map[], {}, log0)))
  {
  }

  // ---------------------------------------------------------------------
  // The merged archive, path by path
  // ---------------------------------------------------------------------

  /**
   * What the merged archive holds at `p`, decided from the two entries found
   * there.  A file wins over B's file; two files under a ".json" name are
   * merged (and nothing is written when that merge fails); an A directory
   * with a B entry under the same path becomes B's bytes as a plain entry.
   * The (File, Dir) row cannot arise from the zip reader: under WellNamed a
   * file and a directory never share a path (Archives.FileAndDirNeverShare).
   * Were it to arise, JSZip's `folder()` would keep A's file rather than
   * write the folder this row gives.
   */
  function ExpectedAt(a: Archive, b: Archive, parse: seq<byte> -> Option<Json>, merge: DocMerge, p: string): (r: Option<Content>)
    ensures r.None? <==>
              || (Find(a, p).None? && Find(b, p).None?)
              || (&& FileAt(a, p).Some? && FileAt(b, p).Some? && EndsWith(p, ".json")
                  && !merge(p, parse(FileAt(a, p).value), parse(FileAt(b, p).value)).Merged?)
    ensures Find(a, p).Some? && Find(a, p).value.Dir? ==>
              r == Some(if Find(b, p).Some? then Blob(Payload(Find(b, p).value)) else Folder)
    ensures FileAt(a, p).Some? && (Find(b, p).None? || (FileAt(b, p).Some? && !EndsWith(p, ".json"))) ==>
              r == Some(Blob(FileAt(a, p).value))
  {
    match (Find(a, p), Find(b, p))
    case (None, None) => None
    case (None, Some(Dir(_))) => Some(Folder)
    case (None, Some(File(_, d))) => Some(Blob(d))
    case (Some(Dir(_)), None) => Some(Folder)
    case (Some(Dir(_)), Some(e)) => Some(Blob(Payload(e)))
    case (Some(File(_, _)), Some(Dir(_))) => Some(Folder)
    case (Some(File(_, d)), Some(File(_, d'))) =>
      if EndsWith(p, ".json") then MergeWrite(merge(p, parse(d), parse(d'))) else Some(Blob(d))
    case (Some(File(_, d)), None) => Some(Blob(d))
  }

  function Expected(a: Archive, b: Archive, parse: seq<byte> -> Option<Json>, merge: DocMerge): map<string, Content>
  {
    map p | p in Paths(a) + Paths(b) && ExpectedAt(a, b, parse, merge, p).Some? :: ExpectedAt(a, b, parse, merge, p).value
  }

  /** After the A pass, a path holds what its A entry wrote, or what it held before. */
  lemma {:induction false} APassAt(a: Archive, b: Archive, parse: seq<byte> -> Option<Json>, merge: DocMerge, st: Stage, p: string)
    requires UniquePaths(a)
    ensures var w := if Find(a, p).Some? then AWrite(Find(a, p).value, b, parse, merge) else None;
      MapGet(APass(a, b, parse, merge, st).output, p) == if w.Some? then w else MapGet(st.output, p)
    decreases |a|
  {
    if a != [] {
      var init, last := a[..|a| - 1], a[|a| - 1];
      assert UniquePaths(init) by {
        forall i, j | 0 <= i < j < |init| ensures init[i].path != init[j].path {
          assert init[i] == a[i] && init[j] == a[j];
        }
      }
      APassAt(init, b, parse, merge, st, p);
      var prev := APass(init, b, parse, merge, st);
      assert APass(a, b, parse, merge, st).output == Put(prev.output, last.path, AWrite(last, b, parse, merge));
      if last.path == p {
        assert Find(init, p).None? by {
          forall i | 0 <= i < |init| ensures init[i].path != p {
            assert init[i] == a[i];
          }
        }
      }
    }
  }

  /** The A pass records exactly A's directories. */
  lemma {:induction false} APassFolders(a: Archive, b: Archive, parse: seq<byte> -> Option<Json>, merge: DocMerge, st: Stage)
    ensures APass(a, b, parse, merge, st).folders == st.folders + DirPaths(a)
    decreases |a|
  {
    if a != [] {
      var init, last := a[..|a| - 1], a[|a| - 1];
      APassFolders(init, b, parse, merge, st);
      DirPathsSnoc(a);
      assert APass(a, b, parse, merge, st) == AStep(APass(init, b, parse, merge, st), last, b, parse, merge);
    }
  }

  /** The A pass appends to the log the parse errors of A's merged files, in A's order. */
  lemma {:induction false} APassLog(a: Archive, b: Archive, parse: seq<byte> -> Option<Json>, merge: DocMerge, st: Stage)
    ensures APass(a, b, parse, merge, st).log == st.log + ParseErrors(a, b, parse)
    decreases |a|
  {
    if a == [] {
      assert st.log + [] == st.log;
    } else {
      var init, last := a[..|a| - 1], a[|a| - 1];
      APassLog(init, b, parse, merge, st);
      var prev := APass(init, b, parse, merge, st);
      assert APass(a, b, parse, merge, st) == AStep(prev, last, b, parse, merge);
      assert prev.log + AMessages(last, b, parse) == st.log + (ParseErrors(init, b, parse) + AMessages(last, b, parse));
    }
  }

  /** After the B pass, a path holds what its B entry wrote, or what it held before. */
  lemma {:induction false} BPassAt(b: Archive, a: Archive, st: Stage, p: string)
    requires UniquePaths(b)
    ensures var w := if Find(b, p).Some? then BWrite(Find(b, p).value, st.folders, a) else None;
      MapGet(BPass(b, a, st).output, p) == if w.Some? then w else MapGet(st.output, p)
    decreases |b|
  {
    if b != [] {
      var init, last := b[..|b| - 1], b[|b| - 1];
      assert UniquePaths(init) by {
        forall i, j | 0 <= i < j < |init| ensures init[i].path != init[j].path {
          assert init[i] == b[i] && init[j] == b[j];
        }
      }
      BPassAt(init, a, st, p);
      var prev := BPass(init, a, st);
      assert BPass(b, a, st).output == Put(prev.output, last.path, BWrite(last, st.folders, a));
      if last.path == p {
        assert Find(init, p).None? by {
          forall i | 0 <= i < |init| ensures init[i].path != p {
            assert init[i] == b[i];
          }
        }
      }
    }
  }

  /**
   * The merge body produces exactly the archive described path by path, its
   * folder record is A's directories, and its log gains A's parse errors.
   */
  lemma MergeIsExpected(a: Archive, b: Archive, parse: seq<byte> -> Option<Json>, merge: DocMerge, log0: seq<string>)
    requires UniquePaths(a) && UniquePaths(b)
    ensures Merge(a, b, parse, merge, log0).output == Expected(a, b, parse, merge)
    ensures Merge(a, b, parse, merge, log0).folders == DirPaths(a)
    ensures Merge(a, b, parse, merge, log0).log == log0 + ParseErrors(a, b, parse)
  {
    var m, e := Merge(a, b, parse, merge, log0).output, Expected(a, b, parse, merge);
    forall p ensures MapGet(m, p) == MapGet(e, p) {
      MergeAt(a, b, parse, merge, log0, p);
      ExpectedAtOffPaths(a, b, parse, merge, p);
    }
    SameEntries(m, e);
  }

  /** Nothing is expected at a path neither pack has. */
  lemma ExpectedAtOffPaths(a: Archive, b: Archive, parse: seq<byte> -> Option<Json>, merge: DocMerge, p: string)
    ensures p !in Paths(a) + Paths(b) ==> ExpectedAt(a, b, parse, merge, p).None?
  {
    if p !in Paths(a) + Paths(b) {
      NotFound(a, p);
      NotFound(b, p);
    }
  }

  lemma SameEntries(m: map<string, Content>, m': map<string, Content>)
    requires forall p :: MapGet(m, p) == MapGet(m', p)
    ensures m == m'
  {
    forall p | p in m ensures p in m' && m[p] == m'[p] {
      assert MapGet(m, p) == MapGet(m', p);
    }
    forall p | p in m' ensures p in m {
      assert MapGet(m, p) == MapGet(m', p);
    }
  }

  lemma MergeAt(a: Archive, b: Archive, parse: seq<byte> -> Option<Json>, merge: DocMerge, log0: seq<string>, p: string)
    requires UniquePaths(a) && UniquePaths(b)
    ensures MapGet(Merge(a, b, parse, merge, log0).output, p) == ExpectedAt(a, b, parse, merge, p)
  {
    var st0 := Stage(map[], {}, log0);
    var afterA := APass(a, b, parse, merge, st0);
    APassFolders(a, b, parse, merge, st0);
    APassAt(a, b, parse, merge, st0, p);
    BPassAt(b, a, afterA, p);
    DirPathsFind(a, p);
  }

  // ---------------------------------------------------------------------
  // Properties of the merged archive
  // ---------------------------------------------------------------------

  /** A JSON file both packs hold is replaced by the merged document, or is absent when the merge fails. */
  lemma JsonConflictMerged(a: Archive, b: Archive, parse: seq<byte> -> Option<Json>, merge: DocMerge, log0: seq<string>,
                           p: string, d: seq<byte>, d': seq<byte>)
    requires UniquePaths(a) && UniquePaths(b)
    requires File(p, d) in a && File(p, d') in b && EndsWith(p, ".json")
    ensures var o := merge(p, parse(d), parse(d'));
      && (p in Merge(a, b, parse, merge, log0).output <==> o.Merged?)
      && (o.Merged? ==> Merge(a, b, parse, merge, log0).output[p] == JsonText(o.doc))
  {
    FoundEntry(a, File(p, d));
    FoundEntry(b, File(p, d'));
    MergeAt(a, b, parse, merge, log0, p);
  }

  /**
   * Under the component's policy, when A's text fails to parse, or else B's,
   * the path is absent and the error naming it is logged.
   */
  lemma ParseFailureDropsPath(a: Archive, b: Archive, parse: seq<byte> -> Option<Json>, log0: seq<string>,
                              p: string, d: seq<byte>, d': seq<byte>)
    requires UniquePaths(a) && UniquePaths(b)
    requires File(p, d) in a && File(p, d') in b && EndsWith(p, ".json")
    requires parse(d).None? || parse(d').None?
    ensures p !in Merge(a, b, parse, MergeDocuments, log0).output
    ensures parse(d).None? ==> "Error reading file from RP1: " + p in Merge(a, b, parse, MergeDocuments, log0).log
    ensures parse(d).Some? ==> "Error reading file from RP2: " + p in Merge(a, b, parse, MergeDocuments, log0).log
  {
    JsonConflictMerged(a, b, parse, MergeDocuments, log0, p, d, d');
    assert !MergeDocuments(p, parse(d), parse(d')).Merged?;
    APassLog(a, b, parse, MergeDocuments, Stage(map[], {}, log0));
    var i :| 0 <= i < |a| && a[i] == File(p, d);
    FoundEntry(b, File(p, d'));
    assert FileAt(b, p) == Some(d');
    assert AMessages(a[i], b, parse) == ParseMessages(parse(d), parse(d'), p);
    ParseErrorsAt(a, b, parse, i);
  }

  lemma {:induction false} ParseErrorsAt(a: Archive, b: Archive, parse: seq<byte> -> Option<Json>, i: nat)
    requires i < |a|
    ensures forall m :: m in AMessages(a[i], b, parse) ==> m in ParseErrors(a, b, parse)
    decreases |a|
  {
    if i < |a| - 1 {
      var init := a[..|a| - 1];
      ParseErrorsAt(init, b, parse, i);
      assert init[i] == a[i];
    }
  }

  /** Two files under the same name that is not a ".json" name: A's bytes are kept. */
  lemma ConflictKeepsA(a: Archive, b: Archive, parse: seq<byte> -> Option<Json>, merge: DocMerge, log0: seq<string>,
                       p: string, d: seq<byte>, d': seq<byte>)
    requires UniquePaths(a) && UniquePaths(b)
    requires File(p, d) in a && File(p, d') in b && !EndsWith(p, ".json")
    ensures p in Merge(a, b, parse, merge, log0).output && Merge(a, b, parse, merge, log0).output[p] == Blob(d)
  {
    FoundEntry(a, File(p, d));
    FoundEntry(b, File(p, d'));
    MergeAt(a, b, parse, merge, log0, p);
  }

  /** An entry only A has is copied: a folder for a directory, its bytes for a file. */
  lemma OnlyInACopied(a: Archive, b: Archive, parse: seq<byte> -> Option<Json>, merge: DocMerge, log0: seq<string>, e: Entry)
    requires UniquePaths(a) && UniquePaths(b)
    requires e in a && e.path !in Paths(b)
    ensures e.path in Merge(a, b, parse, merge, log0).output
    ensures Merge(a, b, parse, merge, log0).output[e.path] == if e.Dir? then Folder else Blob(e.data)
  {
    FoundEntry(a, e);
    NotFound(b, e.path);
    MergeAt(a, b, parse, merge, log0, e.path);
  }

  /** An entry only B has is copied: a folder for a directory, its bytes for a file. */
  lemma OnlyInBCopied(a: Archive, b: Archive, parse: seq<byte> -> Option<Json>, merge: DocMerge, log0: seq<string>, e: Entry)
    requires UniquePaths(a) && UniquePaths(b)
    requires e in b && e.path !in Paths(a)
    ensures e.path in Merge(a, b, parse, merge, log0).output
    ensures Merge(a, b, parse, merge, log0).output[e.path] == if e.Dir? then Folder else Blob(e.data)
  {
    FoundEntry(b, e);
    NotFound(a, e.path);
    MergeAt(a, b, parse, merge, log0, e.path);
  }

  /**
   * A directory both packs hold is recorded by the A pass, reaches the
   * `else if` of the B pass, and is written again as an empty plain entry.
   */
  lemma SharedDirectoryRewritten(a: Archive, b: Archive, parse: seq<byte> -> Option<Json>, merge: DocMerge, log0: seq<string>, p: string)
    requires UniquePaths(a) && UniquePaths(b)
    requires Dir(p) in a && Dir(p) in b
    ensures p in Merge(a, b, parse, merge, log0).output && Merge(a, b, parse, merge, log0).output[p] == Blob([])
  {
    FoundEntry(a, Dir(p));
    FoundEntry(b, Dir(p));
    MergeAt(a, b, parse, merge, log0, p);
  }

  /**
   * Where A has a file, the B pass writes nothing (given the reader's naming
   * rule), so the A pass alone decides that path: a mergeFiles write made
   * after the B pass, but before the archive is serialized, would leave the
   * same archive.
   */
  lemma BPassSparesAFiles(b: Archive, a: Archive, st: Stage, p: string, d: seq<byte>)
    requires ValidArchive(a) && ValidArchive(b)
    requires File(p, d) in a
    ensures MapGet(BPass(b, a, st).output, p) == MapGet(st.output, p)
  {
    FoundEntry(a, File(p, d));
    BPassAt(b, a, st, p);
  }

  /** Every path of the merged archive comes from a pack, and every path of a pack is there unless its JSON merge failed. */
  lemma OutputPaths(a: Archive, b: Archive, parse: seq<byte> -> Option<Json>, merge: DocMerge, log0: seq<string>, p: string)
    requires UniquePaths(a) && UniquePaths(b)
    ensures p in Merge(a, b, parse, merge, log0).output ==> p in Paths(a) + Paths(b)
    ensures p in Paths(a) + Paths(b) && p !in Merge(a, b, parse, merge, log0).output ==>
      && FileAt(a, p).Some? && FileAt(b, p).Some? && EndsWith(p, ".json")
      && !merge(p, parse(FileAt(a, p).value), parse(FileAt(b, p).value)).Merged?
  {
    MergeIsExpected(a, b, parse, merge, log0);
    if p in Paths(a) + Paths(b) {
      if p in Paths(a) {
        var i :| 0 <= i < |a| && a[i].path == p;
        FindUnique(a, i);
      } else {
        var i :| 0 <= i < |b| && b[i].path == p;
        FindUnique(b, i);
      }
    }
    MergeAt(a, b, parse, merge, log0, p);
  }
}
