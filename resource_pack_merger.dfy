/**
 * The ResourcePackMerger component's state and its merge code: the log,
 * the two selected packs, the `merging` flag, the last merged pack, and,
 * while a merge runs, the output archive and the folder record.  The zip
 * reader, JSON.parse and the zip writer are the functions `load`, `parse`
 * and `generate` the component is built with.
 */
module PackMerger {
  import opened Wrappers
  import opened JsonValue
  import opened MergePolicy
  import opened Archives
  import opened MergeEngine

  class ResourcePackMerger {
    /** `JSZip.loadAsync`: an archive, or the message of the error it rejects with. */
    const load: seq<byte> -> Result<Archive, string>
    /** `entry.async('string')` followed by `JSON.parse`: None for a syntax error. */
    const parse: seq<byte> -> Option<Json>
    /** `generateAsync`: the zip blob, or the message of the error it rejects with. */
    const generate: map<string, Content> -> Result<seq<byte>, string>

    var file1: Option<seq<byte>>
    var file2: Option<seq<byte>>
    var merging: bool
    var log: seq<string>
    var mergedZip: Option<seq<byte>>
    var result: map<string, Content>
    var outputFolders: set<string>

    /** A component with both picks made (or not) and nothing logged or merged yet. */
    constructor (load: seq<byte> -> Result<Archive, string>, parse: seq<byte> -> Option<Json>,
                 generate: map<string, Content> -> Result<seq<byte>, string>,
                 file1: Option<seq<byte>>, file2: Option<seq<byte>>)
      ensures this.load == load && this.parse == parse && this.generate == generate
      ensures this.file1 == file1 && this.file2 == file2
      ensures !merging && log == [] && mergedZip.None? && result == map[] && outputFolders == {}
    {
      this.load, this.parse, this.generate := load, parse, generate;
      this.file1, this.file2 := file1, file2;
      merging, log, mergedZip := false, [], None;
      result, outputFolders := map[], {};
    }

    function State(): Stage
      reads this
    {
      Stage(result, outputFolders, log)
    }

    /** Appends one message; earlier messages stay, in order. */
    method AddLog(message: string)
      modifies this`log
      ensures log == old(log) + [message]
      ensures |log| == |old(log)| + 1 && log[..|old(log)|] == old(log) && log[|log| - 1] == message
    {
      log := log + [message];
    }

    /**
     * The sound-registry loop of mergeFiles: every member `for (key in b)`
     * visits that `b` owns and `a` does not is copied into `a`.  None when a
     * `hasOwnProperty` call or an assignment throws.
     */
    static method FillSoundGaps(a: Json, b: Json) returns (r: Option<Json>)
      ensures r == GapFill(a, b, ForInPairs(b))
    {
      var rp1Parsed := a;
      var pairs := ForInPairs(b);
      var i := 0;
      while i < |pairs|
        invariant 0 <= i <= |pairs|
        invariant GapFill(a, b, pairs[..i]) == Some(rp1Parsed)
      {
        var (key, value) := pairs[i];
        assert pairs[..i + 1][..i] == pairs[..i];
        var own2 := HasOwn(b, key);
        if own2.None? {
          GapFillThrownStays(a, b, pairs, i + 1);
          return None;
        }
        if own2.value {
          var own1 := HasOwn(rp1Parsed, key);
          if own1.None? {
            GapFillThrownStays(a, b, pairs, i + 1);
            return None;
          }
          if !own1.value {
            var updated := Assign(rp1Parsed, key, value);
            if updated.None? {
              GapFillThrownStays(a, b, pairs, i + 1);
              return None;
            }
            rp1Parsed := updated.value;
          }
        }
        i := i + 1;
      }
      assert pairs[..|pairs|] == pairs;
      return Some(rp1Parsed);
    }

    /**
     * mergeFiles: parse both texts, apply the sound-registry loop or the
     * `overrides` join to A's document, and write it at `relativePath`.  A
     * thrown TypeError ends the call with nothing written or logged.
     */
    method MergeFiles(content1: seq<byte>, content2: seq<byte>, relativePath: string, fileName: string)
      modifies this`result, this`log
      ensures State() == MergeFilesStep(old(State()), parse, MergeDocuments, content1, content2, relativePath, fileName)
    {
      var parsed1 := parse(content1);
      if parsed1.None? {
        AddLog("Error reading file from RP1: " + fileName);
        return;
      }
      var parsed2 := parse(content2);
      if parsed2.None? {
        AddLog("Error reading file from RP2: " + fileName);
        return;
      }
      var rp1Parsed, rp2Parsed := parsed1.value, parsed2.value;
      if fileName == SoundsPath {
        var filled := FillSoundGaps(rp1Parsed, rp2Parsed);
        if filled.None? {
          return;
        }
        rp1Parsed := filled.value;
      } else {
        var own2 := HasOwn(rp2Parsed, "overrides");
        if own2.None? {
          return;
        }
        if own2.value {
          var own1 := HasOwn(rp1Parsed, "overrides");
          if own1.None? {
            return;
          }
          if own1.value {
            var spread1 := Spread(OwnMember(rp1Parsed, "overrides"));
            if spread1.None? {
              return;
            }
            var spread2 := Spread(OwnMember(rp2Parsed, "overrides"));
            if spread2.None? {
              return;
            }
            var updated := Assign(rp1Parsed, "overrides", JArray(spread1.value + spread2.value));
            if updated.None? {
              return;
            }
            rp1Parsed := updated.value;
          }
        }
      }
      result := result[relativePath := JsonText(rp1Parsed)];
    }

    /** `zip1.forEach`: record and emit A's directories, route or copy A's files. */
    method MergePassA(zip1: Archive, zip2: Archive)
      modifies this`result, this`outputFolders, this`log
      ensures State() == APass(zip1, zip2, parse, MergeDocuments, old(State()))
    {
      var i := 0;
      while i < |zip1|
        invariant 0 <= i <= |zip1|
        invariant State() == APass(zip1[..i], zip2, parse, MergeDocuments, old(State()))
      {
        var zipEntry := zip1[i];
        assert zip1[..i + 1][..i] == zip1[..i];
        if zipEntry.Dir? {
          outputFolders := outputFolders + {zipEntry.path};
          result := result[zipEntry.path := Folder];
        } else {
          var zip2File := FileAt(zip2, zipEntry.path);
          if zip2File.Some? && EndsWith(zipEntry.path, ".json") {
            MergeFiles(zipEntry.data, zip2File.value, zipEntry.path, zipEntry.path);
          } else {
            result := result[zipEntry.path := Blob(zipEntry.data)];
          }
        }
        i := i + 1;
      }
      assert zip1[..|zip1|] == zip1;
    }

    /** `zip2.forEach`: emit unrecorded directories, copy what A has no file for. */
    method MergePassB(zip1: Archive, zip2: Archive)
      modifies this`result
      ensures State() == BPass(zip2, zip1, old(State()))
    {
      var i := 0;
      while i < |zip2|
        invariant 0 <= i <= |zip2|
        invariant State() == BPass(zip2[..i], zip1, old(State()))
      {
        var zipEntry := zip2[i];
        assert zip2[..i + 1][..i] == zip2[..i];
        if zipEntry.Dir? && zipEntry.path !in outputFolders {
          result := result[zipEntry.path := Folder];
        } else if FileAt(zip1, zipEntry.path).None? {
          result := result[zipEntry.path := Blob(Payload(zipEntry))];
        }
        i := i + 1;
      }
      assert zip2[..|zip2|] == zip2;
    }

    /** A fresh output archive and folder record, then the A pass and the B pass. */
    method RunPasses(zip1: Archive, zip2: Archive)
      modifies this`result, this`outputFolders, this`log
      ensures State() == Merge(zip1, zip2, parse, MergeDocuments, old(log))
    {
      result, outputFolders := map[], {};
      MergePassA(zip1, zip2);
      MergePassB(zip1, zip2);
      MergeIsPasses(zip1, zip2, parse, MergeDocuments, old(log));
    }

    /**
     * The body of handleMerge once both packs are loaded: a fresh output
     * archive, the two passes, then the zip writer; its error, or completion,
     * ends the log.
     */
    method MergeLoaded(zip1: Archive, zip2: Archive)
      modifies this`result, this`outputFolders, this`log, this`mergedZip
      ensures result == Merge(zip1, zip2, parse, MergeDocuments, old(log)).output
      ensures outputFolders == DirPaths(zip1)
      ensures UniquePaths(zip1) && UniquePaths(zip2) ==> result == Expected(zip1, zip2, parse, MergeDocuments)
      ensures var errors := old(log) + ParseErrors(zip1, zip2, parse);
        match generate(result)
        case Failure(msg) => log == errors + ["Error during merge: " + msg] && mergedZip == old(mergedZip)
        case Success(blob) => log == errors + ["Merge complete!"] && mergedZip == Some(blob)
    {
      RunPasses(zip1, zip2);
      if UniquePaths(zip1) && UniquePaths(zip2) {
        MergeIsExpected(zip1, zip2, parse, MergeDocuments, old(log));
      }
      var mergedContent := generate(result);
      if mergedContent.Failure? {
        AddLog("Error during merge: " + mergedContent.error);
      } else {
        mergedZip := Some(mergedContent.value);
        AddLog("Merge complete!");
      }
    }

    /**
     * handleMerge.  Without both packs it only logs a request for them.
     * Otherwise it sets `merging`, loads both packs, and either logs the
     * loader's error or runs MergeLoaded; `merging` is cleared at the end.
     */
    method HandleMerge()
      modifies this
      ensures file1 == old(file1) && file2 == old(file2)
      ensures old(file1).None? || old(file2).None? ==>
        && log == old(log) + ["Please select both resource packs"]
        && merging == old(merging) && mergedZip == old(mergedZip)
        && result == old(result) && outputFolders == old(outputFolders)
      ensures old(file1).Some? && old(file2).Some? ==>
        && !merging
        && var started := old(log) + ["Starting merge process..."];
        && var r1, r2 := load(file1.value), load(file2.value);
        && (r1.Failure? ==>
              && log == started + ["Error during merge: " + r1.error] && mergedZip == old(mergedZip)
              && result == old(result) && outputFolders == old(outputFolders))
        && (r1.Success? && r2.Failure? ==>
              && log == started + ["Error during merge: " + r2.error] && mergedZip == old(mergedZip)
              && result == old(result) && outputFolders == old(outputFolders))
        && (r1.Success? && r2.Success? ==>
              && result == Merge(r1.value, r2.value, parse, MergeDocuments, started).output
              && outputFolders == DirPaths(r1.value)
              && (UniquePaths(r1.value) && UniquePaths(r2.value) ==> result == Expected(r1.value, r2.value, parse, MergeDocuments))
              && var errors := started + ParseErrors(r1.value, r2.value, parse);
              && match generate(result)
                 case Failure(msg) => log == errors + ["Error during merge: " + msg] && mergedZip == old(mergedZip)
                 case Success(blob) => log == errors + ["Merge complete!"] && mergedZip == Some(blob))
    {
      if file1.None? || file2.None? {
        AddLog("Please select both resource packs");
        return;
      }
      merging := true;
      AddLog("Starting merge process...");
      var zip1 := load(file1.value);
      var zip2 := load(file2.value);
      if zip1.Failure? {
        AddLog("Error during merge: " + zip1.error);
      } else if zip2.Failure? {
        AddLog("Error during merge: " + zip2.error);
      } else {
        MergeLoaded(zip1.value, zip2.value);
      }
      merging := false;
    }
  }
}
