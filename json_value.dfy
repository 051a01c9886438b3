/**
 * JSON documents as JSON.parse builds them, and the pieces of JavaScript's
 * object semantics that the merge code exercises on them: `hasOwnProperty`,
 * `for ... in`, reading an own member, strict-mode member assignment and
 * array spread.  An object keeps its members in insertion order.
 */
module JsonValue {
  import opened Wrappers

  datatype Json =
    | JNull
    | JBool(b: bool)
    | JNumber(n: real)
    | JString(s: string)
    | JArray(items: seq<Json>)
    | JObject(fields: seq<(string, Json)>)

  /** The members of an object, as (name, value) pairs in insertion order. */
  type Members = seq<(string, Json)>

  /** The member names of an object, in order. */
  function Keys(fs: Members): seq<string>
  {
    seq(|fs|, i requires 0 <= i < |fs| => fs[i].0)
  }

  /** No member name occurs twice, as in every object JSON.parse returns. */
  predicate UniqueKeys(fs: Members)
  {
    forall i, j :: 0 <= i < j < |fs| ==> fs[i].0 != fs[j].0
  }

  /** The value of the member named `k`, if there is one. */
  function Lookup(fs: Members, k: string): (r: Option<Json>)
    ensures r.Some? <==> k in Keys(fs)
  {
    if fs == [] then None
    else
      assert Keys(fs) == [fs[0].0] + Keys(fs[1..]);
      if fs[0].0 == k then Some(fs[0].1) else Lookup(fs[1..], k)
  }

  /** Replaces the value of the member named `k`, keeping its position. */
  function SetMember(fs: Members, k: string, v: Json): (r: Members)
    ensures Keys(r) == Keys(fs)
  {
    if fs == [] then []
    else if fs[0].0 == k then [(k, v)] + fs[1..]
    else
      var rest := SetMember(fs[1..], k, v);
      assert Keys([fs[0]] + rest) == [fs[0].0] + Keys(rest);
      assert Keys(fs) == [fs[0].0] + Keys(fs[1..]);
      [fs[0]] + rest
  }

  lemma KeysAppend(fs: Members, gs: Members)
    ensures Keys(fs + gs) == Keys(fs) + Keys(gs)
  {
  }

  lemma {:induction false} LookupAppend(fs: Members, gs: Members, k: string)
    ensures Lookup(fs + gs, k) == if k in Keys(fs) then Lookup(fs, k) else Lookup(gs, k)
  {
    if fs == [] {
      assert fs + gs == gs;
    } else {
      assert (fs + gs)[0] == fs[0] && (fs + gs)[1..] == fs[1..] + gs;
      assert Keys(fs) == [fs[0].0] + Keys(fs[1..]);
      if fs[0].0 != k {
        LookupAppend(fs[1..], gs, k);
        assert Lookup(fs + gs, k) == Lookup(fs[1..] + gs, k);
      }
    }
  }

  /** After SetMember, `k` holds `v` (when it was a member) and every other member is as before. */
  lemma {:induction false} SetMemberLookup(fs: Members, k: string, v: Json, k': string)
    ensures Lookup(SetMember(fs, k, v), k') ==
            if k' == k && k in Keys(fs) then Some(v) else Lookup(fs, k')
  {
    if fs != [] {
      assert Keys(fs) == [fs[0].0] + Keys(fs[1..]);
      if fs[0].0 != k {
        SetMemberLookup(fs[1..], k, v, k');
        assert ([fs[0]] + SetMember(fs[1..], k, v))[1..] == SetMember(fs[1..], k, v);
      }
    }
  }

  // ---------------------------------------------------------------------
  // Array indices as property names
  // ---------------------------------------------------------------------

  /** The largest array index, 2^32 - 2. */
  const MaxArrayIndex: nat := 0xFFFF_FFFE

  function Digit(d: nat): char
    requires d < 10
  {
    (48 + d) as char
  }

  predicate AllDigits(k: string)
  {
    forall i :: 0 <= i < |k| ==> '0' <= k[i] <= '9'
  }

  function DigitsToNat(k: string): nat
    requires AllDigits(k)
  {
    if k == [] then 0 else 10 * DigitsToNat(k[..|k| - 1]) + ((k[|k| - 1] as int) - 48)
  }

  /** The decimal spelling of `n`, as JavaScript turns an index into a property name. */
  function NatToString(n: nat): (s: string)
    ensures |s| > 0
  {
    if n < 10 then [Digit(n)] else NatToString(n / 10) + [Digit(n % 10)]
  }

  /** The array index a property name stands for: a canonical decimal numeral below 2^32 - 1. */
  function ArrayIndex(k: string): Option<nat>
  {
    if |k| > 0 && AllDigits(k) && (k[0] != '0' || |k| == 1) && DigitsToNat(k) <= MaxArrayIndex
    then Some(DigitsToNat(k))
    else None
  }

  predicate IsIndexBelow(k: string, n: nat)
  {
    ArrayIndex(k).Some? && ArrayIndex(k).value < n
  }

  lemma {:induction false} NatToStringDigits(n: nat)
    ensures AllDigits(NatToString(n)) && DigitsToNat(NatToString(n)) == n
    ensures NatToString(n)[0] == '0' ==> n == 0
    ensures n < 10 <==> |NatToString(n)| == 1
  {
    if n >= 10 {
      NatToStringDigits(n / 10);
      var t := NatToString(n / 10);
      assert NatToString(n) == t + [Digit(n % 10)];
      assert (t + [Digit(n % 10)])[..|t|] == t;
    }
  }

  /** The name `for ... in` gives the n-th element of an array is read back as index n. */
  lemma IndexNameRoundTrip(n: nat)
    requires n <= MaxArrayIndex
    ensures ArrayIndex(NatToString(n)) == Some(n)
  {
    NatToStringDigits(n);
  }

  // ---------------------------------------------------------------------
  // JavaScript operations on parsed documents
  // ---------------------------------------------------------------------

  /**
   * `d.hasOwnProperty(k)`.  None when the call throws a TypeError: on null, or
   * when an own member named "hasOwnProperty" hides the method (a parsed JSON
   * value is never callable).  An array or a string owns its indices and
   * "length"; a number or a boolean owns nothing.
   */
  function HasOwn(d: Json, k: string): (r: Option<bool>)
    ensures r.None? <==> d.JNull? || (d.JObject? && "hasOwnProperty" in Keys(d.fields))
    ensures d.JObject? && r.Some? ==> (r.value <==> k in Keys(d.fields))
    ensures (d.JArray? || d.JString?) && k == "length" ==> r == Some(true)
    ensures d.JBool? || d.JNumber? ==> r == Some(false)
  {
    match d
    case JNull => None
    case JObject(fs) => if "hasOwnProperty" in Keys(fs) then None else Some(k in Keys(fs))
    case JArray(xs) => Some(k == "length" || IsIndexBelow(k, |xs|))
    case JString(s) => Some(k == "length" || IsIndexBelow(k, |s|))
    case JBool(_) => Some(false)
    case JNumber(_) => Some(false)
  }

  /**
   * The (name, value) pairs `for (key in d)` visits: the members of an object,
   * the indices of an array or of a string, nothing for null, numbers and
   * booleans.
   */
  function ForInPairs(d: Json): (ps: Members)
    ensures d.JObject? ==> ps == d.fields
    ensures d.JArray? ==> |ps| == |d.items|
    ensures d.JString? ==> |ps| == |d.s|
    ensures d.JNull? || d.JBool? || d.JNumber? ==> ps == []
  {
    match d
    case JObject(fs) => fs
    case JArray(xs) => seq(|xs|, i requires 0 <= i < |xs| => (NatToString(i), xs[i]))
    case JString(s) => seq(|s|, i requires 0 <= i < |s| => (NatToString(i), JString([s[i]])))
    case _ => []
  }

  /**
   * Every name `for ... in` gives an array or a string is one the value owns:
   * the loop's `hasOwnProperty` test on B passes for each visited index.
   */
  lemma ForInIndexOwned(d: Json, i: nat)
    requires d.JArray? || d.JString?
    requires i < |ForInPairs(d)| && i <= MaxArrayIndex
    ensures HasOwn(d, ForInPairs(d)[i].0) == Some(true)
  {
    IndexNameRoundTrip(i);
  }

  /**
   * `d[k]` for an own member of an object; None (undefined) otherwise.  It is
   * read only for the name "overrides", which only an object can own.
   */
  function OwnMember(d: Json, k: string): Option<Json>
  {
    if d.JObject? then Lookup(d.fields, k) else None
  }

  /**
   * Strict-mode `d[k] = v`.  None when it throws a TypeError: null and the
   * primitives (strings, numbers, booleans) cannot take a member.  On an
   * object an existing member keeps its place and a new one goes last.  On an
   * array an index past the end lengthens it; the gap holds holes, which
   * JSON.stringify writes as null, so they are written here as JNull.  A
   * name that is not an index becomes a property JSON.stringify does not show.
   */
  function Assign(d: Json, k: string, v: Json): (r: Option<Json>)
    requires !(d.JArray? && k == "length")
    ensures r.Some? <==> d.JObject? || d.JArray?
    ensures d.JObject? ==>
              && r.value.JObject?
              && Lookup(r.value.fields, k) == Some(v)
              && (forall k' :: k' != k ==> Lookup(r.value.fields, k') == Lookup(d.fields, k'))
    ensures d.JObject? && k in Keys(d.fields) ==> Keys(r.value.fields) == Keys(d.fields)
  {
    match d
    case JObject(fs) =>
      if k in Keys(fs) then
        assert forall k' ::
            Lookup(SetMember(fs, k, v), k') == (if k' == k then Some(v) else Lookup(fs, k')) by {
          forall k' { SetMemberLookup(fs, k, v, k'); }
        }
        Some(JObject(SetMember(fs, k, v)))
      else
        assert forall k' ::
            Lookup(fs + [(k, v)], k') == (if k' == k then Some(v) else Lookup(fs, k')) by {
          forall k' { LookupAppend(fs, [(k, v)], k'); }
        }
        Some(JObject(fs + [(k, v)]))
    case JArray(xs) =>
      (match ArrayIndex(k)
       case None => Some(d)
       case Some(i) =>
         if i < |xs| then Some(JArray(xs[i := v]))
         else Some(JArray(xs + seq(i - |xs|, _ => JNull) + [v])))
    case _ => None
  }

  /** `[...m]`: the elements of an array, the one-character strings of a string; None (a TypeError) for anything else. */
  function Spread(m: Option<Json>): (r: Option<seq<Json>>)
    ensures m.Some? && m.value.JArray? ==> r == Some(m.value.items)
    ensures m.Some? && m.value.JString? ==> r.Some? && |r.value| == |m.value.s|
    ensures r.Some? <==> m.Some? && (m.value.JArray? || m.value.JString?)
  {
    match m
    case Some(JArray(xs)) => Some(xs)
    case Some(JString(s)) => Some(seq(|s|, i requires 0 <= i < |s| => JString([s[i]])))
    case _ => None
  }
}
