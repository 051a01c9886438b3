/**
 * The policy `mergeFiles` applies to two JSON documents found at the same
 * path in both packs: parse A, parse B, gap-fill the sound registry, join
 * `overrides` arrays, and otherwise keep A's document.
 */
module MergePolicy {
  import opened Wrappers
  import opened JsonValue

  /** The one path whose document is merged key by key. */
  const SoundsPath: string := "assets/minecraft/sounds.json"

  /**
   * How one call of mergeFiles ends: a side's text did not parse (the call
   * logs and returns), the merge code threw a TypeError (the call's promise
   * rejects; it is not awaited, so nothing is written or logged), or a
   * document is written.
   */
  datatype Outcome = ParseErrorA | ParseErrorB | Thrown | Merged(doc: Json)

  /**
   * One turn of the sound-registry loop on the document `d` built so far:
   * when B owns `k` and `d` does not, `d` takes B's value under `k`; B is
   * asked first, so the second call is made only when B owns `k`.  None
   * when one of the three steps throws.
   */
  function GapStep(d: Json, b: Json, k: string, v: Json): (r: Option<Json>)
    ensures HasOwn(b, k) == Some(false) ==> r == Some(d)
    ensures HasOwn(b, k) == Some(true) && HasOwn(d, k) == Some(true) ==> r == Some(d)
    ensures r.None? <==>
              || HasOwn(b, k).None?
              || (HasOwn(b, k) == Some(true)
                  && (HasOwn(d, k).None? || (HasOwn(d, k) == Some(false) && !d.JObject? && !d.JArray?)))
    ensures d.JObject? && HasOwn(b, k) == Some(true) && HasOwn(d, k) == Some(false) ==>
              r.Some? && r.value.JObject? && Lookup(r.value.fields, k) == Some(v)
  {
    match HasOwn(b, k)
    case None => None
    case Some(false) => Some(d)
    case Some(true) =>
      match HasOwn(d, k)
      case None => None
      case Some(true) => Some(d)
      case Some(false) => Assign(d, k, v)
  }

  /** The sound-registry loop run over the pairs `ps` of `for (key in b)`, starting from A's document `a`. */
  function GapFill(a: Json, b: Json, ps: Members): Option<Json>
    decreases |ps|
  {
    if ps == [] then Some(a)
    else
      match GapFill(a, b, ps[..|ps| - 1])
      case None => None
      case Some(d) => GapStep(d, b, ps[|ps| - 1].0, ps[|ps| - 1].1)
  }

  /** When a turn of the loop adds a member to an object, every other member is left as it was. */
  lemma GapStepAddsMember(d: Json, b: Json, k: string, v: Json)
    requires d.JObject? && HasOwn(b, k) == Some(true) && HasOwn(d, k) == Some(false)
    ensures var r := GapStep(d, b, k, v);
      && r.Some? && r.value.JObject?
      && Keys(r.value.fields) == Keys(d.fields) + [k]
      && Lookup(r.value.fields, k) == Some(v)
      && (forall k' :: k' != k ==> Lookup(r.value.fields, k') == Lookup(d.fields, k'))
  {
  }

  /**
   * Whatever B holds, a loop over A's object that completes keeps every
   * member of A with A's value, and every name it ends with is A's or a
   * visited one.
   */
  lemma {:induction false} GapFillKeepsA(fa: Members, b: Json, ps: Members)
    ensures var r := GapFill(JObject(fa), b, ps);
      r.Some? ==>
        && r.value.JObject?
        && (forall k :: k in Keys(fa) ==> Lookup(r.value.fields, k) == Lookup(fa, k))
        && (forall k :: k in Keys(r.value.fields) ==> k in Keys(fa) || k in Keys(ps))
    decreases |ps|
  {
    if ps != [] {
      var init, last := ps[..|ps| - 1], ps[|ps| - 1];
      assert ps == init + [last];
      KeysAppend(init, [last]);
      GapFillKeepsA(fa, b, init);
      var prev := GapFill(JObject(fa), b, init);
      if prev.Some? && HasOwn(b, last.0) == Some(true) && HasOwn(prev.value, last.0) == Some(false) {
        GapStepAddsMember(prev.value, b, last.0, last.1);
        var r := GapStep(prev.value, b, last.0, last.1).value;
        forall k | k in Keys(r.fields) ensures k in Keys(fa) || k in Keys(ps) {
          if k != last.0 {
            assert k in Keys(prev.value.fields);
          } else {
            assert Keys(ps)[|ps| - 1] == k;
          }
        }
      }
    }
  }

  /** Once a step of the loop throws, the whole loop throws: later pairs are never reached. */
  lemma {:induction false} GapFillThrownStays(a: Json, b: Json, ps: Members, i: nat)
    requires i <= |ps| && GapFill(a, b, ps[..i]).None?
    ensures GapFill(a, b, ps).None?
    decreases |ps| - i
  {
    if i < |ps| {
      assert ps[..i + 1][..i] == ps[..i];
      GapFillThrownStays(a, b, ps, i + 1);
    } else {
      assert ps[..i] == ps;
    }
  }

  /**
   * The `else if` branch: when both documents own `overrides`, A's
   * `overrides` becomes the spread of A's followed by the spread of B's.
   * B is asked first, so a B without the member short-circuits the test.
   */
  function OverridesMerge(a: Json, b: Json): (r: Outcome)
    ensures r.Merged? || r == Thrown
    ensures HasOwn(b, "overrides") == Some(false) ==> r == Merged(a)
    ensures HasOwn(b, "overrides") == Some(true) && HasOwn(a, "overrides") == Some(false) ==> r == Merged(a)
    ensures r == Thrown <==>
              || HasOwn(b, "overrides").None?
              || (HasOwn(b, "overrides") == Some(true)
                  && (HasOwn(a, "overrides").None?
                      || (HasOwn(a, "overrides") == Some(true)
                          && (Spread(OwnMember(a, "overrides")).None? || Spread(OwnMember(b, "overrides")).None?))))
    ensures r.Merged? && a.JObject? ==> r.doc.JObject? && Keys(r.doc.fields) == Keys(a.fields)
  {
    match HasOwn(b, "overrides")
    case None => Thrown
    case Some(false) => Merged(a)
    case Some(true) =>
      match HasOwn(a, "overrides")
      case None => Thrown
      case Some(false) => Merged(a)
      case Some(true) =>
        match (Spread(OwnMember(a, "overrides")), Spread(OwnMember(b, "overrides")))
        case (Some(xs), Some(ys)) =>
          (match Assign(a, "overrides", JArray(xs + ys))
           case Some(d) => Merged(d)
           case None => Thrown)
        case _ => Thrown
  }

  /**
   * The decision table of mergeFiles for the file `name`, given what parsing
   * A's and B's texts gave (None for a syntax error).
   */
  function MergeDocuments(name: string, pa: Option<Json>, pb: Option<Json>): (r: Outcome)
    ensures r == ParseErrorA <==> pa.None?
    ensures r == ParseErrorB <==> pa.Some? && pb.None?
    ensures r.Merged? && name != SoundsPath && OwnMember(pa.value, "overrides").None? ==> r.doc == pa.value
  {
    match pa
    case None => ParseErrorA
    case Some(a) =>
      match pb
      case None => ParseErrorB
      case Some(b) =>
        if name == SoundsPath then
          (match GapFill(a, b, ForInPairs(b))
           case None => Thrown
           case Some(d) => Merged(d))
        else OverridesMerge(a, b)
  }

  /**
   * The lines a call of mergeFiles for `name` adds to the log, from what
   * parsing A's and B's texts gave: A's error, else B's, else nothing.
   */
  function ParseMessages(pa: Option<Json>, pb: Option<Json>, name: string): seq<string>
  {
    if pa.None? then ["Error reading file from RP1: " + name]
    else if pb.None? then ["Error reading file from RP2: " + name]
    else []
  }

  /**
   * The log lines follow the outcome: the call logs exactly when it ends in
   * a parse error, naming the side and the file.
   */
  lemma ParseMessagesMatchOutcome(name: string, pa: Option<Json>, pb: Option<Json>)
    ensures var r := MergeDocuments(name, pa, pb);
      && (ParseMessages(pa, pb, name) == ["Error reading file from RP1: " + name] <==> r == ParseErrorA)
      && (ParseMessages(pa, pb, name) == ["Error reading file from RP2: " + name] <==> r == ParseErrorB)
      && (ParseMessages(pa, pb, name) == [] <==> r == Thrown || r.Merged?)
  {
    var m1, m2 := "Error reading file from RP1: " + name, "Error reading file from RP2: " + name;
    assert m1 != m2 by {
      assert m1[..28] == "Error reading file from RP1:" && m2[..28] == "Error reading file from RP2:";
    }
  }

  // ---------------------------------------------------------------------
  // The sound registry: gap-filling two objects
  // ---------------------------------------------------------------------

  /** The members of `s` whose names `fa` lacks, in the order of `s`. */
  function NewMembers(fa: Members, s: Members): Members
    decreases |s|
  {
    if s == [] then []
    else NewMembers(fa, s[..|s| - 1]) + (if s[|s| - 1].0 in Keys(fa) then [] else [s[|s| - 1]])
  }

  lemma {:induction false} NewMembersKeys(fa: Members, s: Members)
    ensures forall k :: k in Keys(NewMembers(fa, s)) <==> k in Keys(s) && k !in Keys(fa)
  {
    if s != [] {
      var init, last := s[..|s| - 1], s[|s| - 1];
      NewMembersKeys(fa, init);
      assert s == init + [last];
      KeysAppend(init, [last]);
      KeysAppend(NewMembers(fa, init), if last.0 in Keys(fa) then [] else [last]);
    }
  }

  lemma {:induction false} NewMembersLookup(fa: Members, s: Members, k: string)
    requires k !in Keys(fa)
    ensures Lookup(NewMembers(fa, s), k) == Lookup(s, k)
  {
    if s != [] {
      var init, last := s[..|s| - 1], s[|s| - 1];
      var tail := if last.0 in Keys(fa) then [] else [last];
      NewMembersLookup(fa, init, k);
      NewMembersKeys(fa, init);
      assert s == init + [last];
      LookupAppend(init, [last], k);
      LookupAppend(NewMembers(fa, init), tail, k);
    }
  }

  /**
   * Running the loop over a stretch `s` of B's members (unique names, none of
   * them "hasOwnProperty") appends, in order, the members of `s` that A lacks.
   */
  lemma {:induction false} GapFillObjects(fa: Members, fb: Members, s: Members)
    requires UniqueKeys(s) && forall i :: 0 <= i < |s| ==> s[i].0 in Keys(fb)
    requires "hasOwnProperty" !in Keys(fa) && "hasOwnProperty" !in Keys(fb)
    ensures GapFill(JObject(fa), JObject(fb), s) == Some(JObject(fa + NewMembers(fa, s)))
  {
    if s == [] {
      assert fa + NewMembers(fa, s) == fa;
    } else {
      var init, last := s[..|s| - 1], s[|s| - 1];
      assert s == init + [last];
      assert last.0 !in Keys(init) && UniqueKeys(init) by {
        forall i | 0 <= i < |init| ensures init[i].0 != last.0 {
          assert s[i] == init[i];
        }
        forall i, j | 0 <= i < j < |init| ensures init[i].0 != init[j].0 {
          assert s[i] == init[i] && s[j] == init[j];
        }
      }
      assert forall i :: 0 <= i < |init| ==> init[i].0 in Keys(fb) by {
        forall i | 0 <= i < |init| ensures init[i].0 in Keys(fb) {
          assert s[i] == init[i];
        }
      }
      assert "hasOwnProperty" !in Keys(init);
      GapFillObjects(fa, fb, init);
      var nm := NewMembers(fa, init);
      var cur := fa + nm;
      NewMembersKeys(fa, init);
      KeysAppend(fa, nm);
      assert "hasOwnProperty" !in Keys(cur);
      assert last.0 in Keys(cur) <==> last.0 in Keys(fa);
      assert GapFill(JObject(fa), JObject(fb), s) == GapStep(JObject(cur), JObject(fb), last.0, last.1);
      assert HasOwn(JObject(fb), last.0) == Some(true);
      assert HasOwn(JObject(cur), last.0) == Some(last.0 in Keys(fa));
      if last.0 !in Keys(fa) {
        assert last.0 !in Keys(cur);
        assert Assign(JObject(cur), last.0, last.1) == Some(JObject(cur + [last]));
        assert GapStep(JObject(cur), JObject(fb), last.0, last.1) == Some(JObject(cur + [last]));
        assert NewMembers(fa, s) == nm + [last];
        assert cur + [last] == fa + NewMembers(fa, s);
      } else {
        assert GapStep(JObject(cur), JObject(fb), last.0, last.1) == Some(JObject(cur));
        assert NewMembers(fa, s) == nm;
      }
    }
  }

  /**
   * The sound registry, for two objects as JSON.parse returns them (neither
   * owning a member named "hasOwnProperty"): the written object is A's
   * members followed by B's members whose names A lacks, in B's order; its
   * names are those of A and of B; a name of A keeps A's value; a name only
   * B has gets B's value.
   */
  lemma SoundsRegistryMerge(fa: Members, fb: Members)
    requires UniqueKeys(fa) && UniqueKeys(fb)
    requires "hasOwnProperty" !in Keys(fa) && "hasOwnProperty" !in Keys(fb)
    ensures var r := MergeDocuments(SoundsPath, Some(JObject(fa)), Some(JObject(fb)));
      && r == Merged(JObject(fa + NewMembers(fa, fb)))
      && UniqueKeys(r.doc.fields)
      && (forall k :: k in Keys(r.doc.fields) <==> k in Keys(fa) || k in Keys(fb))
      && (forall k :: k in Keys(fa) ==> Lookup(r.doc.fields, k) == Lookup(fa, k))
      && (forall k :: k !in Keys(fa) ==> Lookup(r.doc.fields, k) == Lookup(fb, k))
  {
    assert forall i :: 0 <= i < |fb| ==> fb[i].0 in Keys(fb) by {
      forall i | 0 <= i < |fb| ensures fb[i].0 in Keys(fb) {
        assert Keys(fb)[i] == fb[i].0;
      }
    }
    GapFillObjects(fa, fb, fb);
    var nm := NewMembers(fa, fb);
    var fr := fa + nm;
    NewMembersKeys(fa, fb);
    KeysAppend(fa, nm);
    forall k ensures Lookup(fr, k) == if k in Keys(fa) then Lookup(fa, k) else Lookup(fb, k) {
      LookupAppend(fa, nm, k);
      if k !in Keys(fa) {
        NewMembersLookup(fa, fb, k);
      }
    }
    UniqueNewMembers(fa, fb);
    UniqueDisjointAppend(fa, nm);
  }

  lemma UniqueDisjointAppend(fs: Members, gs: Members)
    requires UniqueKeys(fs) && UniqueKeys(gs)
    requires forall k :: k in Keys(gs) ==> k !in Keys(fs)
    ensures UniqueKeys(fs + gs)
  {
    var hs := fs + gs;
    forall i, j | 0 <= i < j < |hs| ensures hs[i].0 != hs[j].0 {
      if i < |fs| && j >= |fs| {
        assert hs[j] == gs[j - |fs|] && Keys(gs)[j - |fs|] == hs[j].0;
        assert hs[j].0 in Keys(gs);
        assert hs[i] == fs[i] && Keys(fs)[i] == hs[i].0;
        assert hs[i].0 in Keys(fs);
      } else if i >= |fs| {
        assert hs[i] == gs[i - |fs|] && hs[j] == gs[j - |fs|];
      } else {
        assert hs[i] == fs[i] && hs[j] == fs[j];
      }
    }
  }

  lemma {:induction false} UniqueNewMembers(fa: Members, s: Members)
    requires UniqueKeys(s)
    ensures UniqueKeys(NewMembers(fa, s))
  {
    if s != [] {
      var init, last := s[..|s| - 1], s[|s| - 1];
      assert s == init + [last];
      assert UniqueKeys(init) by {
        forall i, j | 0 <= i < j < |init| ensures init[i].0 != init[j].0 {
          assert s[i] == init[i] && s[j] == init[j];
        }
      }
      UniqueNewMembers(fa, init);
      NewMembersKeys(fa, init);
      var nm := NewMembers(fa, init);
      assert last.0 !in Keys(init) by {
        forall i | 0 <= i < |init| ensures init[i].0 != last.0 {
          assert s[i] == init[i];
        }
      }
      if last.0 !in Keys(fa) {
        forall i | 0 <= i < |nm| ensures nm[i].0 != last.0 {
          assert Keys(nm)[i] == nm[i].0;
        }
      }
    }
  }

  // ---------------------------------------------------------------------
  // Item models: joining `overrides`
  // ---------------------------------------------------------------------

  /**
   * Any path but the sound registry, two objects that both own an
   * `overrides` array and neither of which owns "hasOwnProperty": the written
   * object has A's member names in A's order, its `overrides` is A's array
   * followed by B's, and every other member is A's.
   */
  lemma OverridesJoined(name: string, fa: Members, fb: Members, xs: seq<Json>, ys: seq<Json>)
    requires name != SoundsPath
    requires "hasOwnProperty" !in Keys(fa) && "hasOwnProperty" !in Keys(fb)
    requires Lookup(fa, "overrides") == Some(JArray(xs)) && Lookup(fb, "overrides") == Some(JArray(ys))
    ensures var r := MergeDocuments(name, Some(JObject(fa)), Some(JObject(fb)));
      && r.Merged? && r.doc.JObject?
      && Keys(r.doc.fields) == Keys(fa)
      && Lookup(r.doc.fields, "overrides") == Some(JArray(xs + ys))
      && (forall k :: k != "overrides" ==> Lookup(r.doc.fields, k) == Lookup(fa, k))
  {
    var r := MergeDocuments(name, Some(JObject(fa)), Some(JObject(fb)));
    assert r == Merged(JObject(SetMember(fa, "overrides", JArray(xs + ys))));
  }

  /** The joined array has the length of both, A's elements first and B's after, in their order. */
  lemma OverridesOrder(name: string, fa: Members, fb: Members, xs: seq<Json>, ys: seq<Json>)
    requires name != SoundsPath
    requires "hasOwnProperty" !in Keys(fa) && "hasOwnProperty" !in Keys(fb)
    requires Lookup(fa, "overrides") == Some(JArray(xs)) && Lookup(fb, "overrides") == Some(JArray(ys))
    ensures var r := MergeDocuments(name, Some(JObject(fa)), Some(JObject(fb)));
      && r.Merged? && r.doc.JObject?
      && var zs := Lookup(r.doc.fields, "overrides").value.items;
      && |zs| == |xs| + |ys|
      && zs[..|xs|] == xs
      && zs[|xs|..] == ys
  {
    OverridesJoined(name, fa, fb, xs, ys);
  }

  /**
   * Any path but the sound registry, two objects with no "hasOwnProperty"
   * member that do not both own `overrides`: A's document is written unchanged.
   */
  lemma OtherDocumentKeepsA(name: string, fa: Members, fb: Members)
    requires name != SoundsPath
    requires "hasOwnProperty" !in Keys(fa) && "hasOwnProperty" !in Keys(fb)
    requires !("overrides" in Keys(fa) && "overrides" in Keys(fb))
    ensures MergeDocuments(name, Some(JObject(fa)), Some(JObject(fb))) == Merged(JObject(fa))
  {
  }

  /**
   * One side owns an `overrides` that is neither an array nor a string: the
   * spread throws, and nothing is written.
   */
  lemma OverridesNotIterable(name: string, fa: Members, fb: Members)
    requires name != SoundsPath
    requires "hasOwnProperty" !in Keys(fa) && "hasOwnProperty" !in Keys(fb)
    requires "overrides" in Keys(fa) && "overrides" in Keys(fb)
    requires Spread(Lookup(fa, "overrides")).None? || Spread(Lookup(fb, "overrides")).None?
    ensures MergeDocuments(name, Some(JObject(fa)), Some(JObject(fb))) == Thrown
  {
  }
}
