/**
 * `minimal_profile` (src/linkedin/api.py, and the same comprehension in
 * src/chapter_2/linkedin.py): the profile dictionary with empty values and three bulky
 * keys dropped. A Python dictionary is kept in insertion order, so a profile is modelled as
 * its list of `(key, value)` entries; values are decoded JSON.
 */
module LinkedinProfile {

  /** A decoded JSON value, as `json.load` produces it. */
  datatype Json =
    | JNull
    | JBool(b: bool)
    | JNumber(n: real)
    | JString(s: string)
    | JArray(items: seq<Json>)
    | JObject(members: seq<(string, Json)>)

  /** A profile dictionary: its entries in insertion order. */
  type Profile = seq<(string, Json)>

  /** The keys the comprehension always drops. */
  const ExcludedKeys: set<string> := {"certifications", "testScores", "volunteeringExperiences"}

  /** `value in ([], "", None)`: an empty list, an empty string or `None` (but not `{}`). */
  predicate IsEmptyValue(v: Json)
  {
    v == JArray([]) || v == JString("") || v == JNull
  }

  /** The comprehension's condition on one entry. */
  predicate Kept(entry: (string, Json))
  {
    !IsEmptyValue(entry.1) && entry.0 !in ExcludedKeys
  }

  /** Python dictionary keys are unique. */
  predicate UniqueKeys(d: Profile)
  {
    forall i, j :: 0 <= i < j < |d| ==> d[i].0 != d[j].0
  }

  /**
   * `minimal_profile(data)`: exactly the entries of `data` whose value is not empty and
   * whose key is not excluded, each with its value unchanged.
   */
  function MinimalProfile(data: Profile): (r: Profile)
    ensures forall i :: 0 <= i < |r| ==> r[i] in data
    ensures forall i :: 0 <= i < |r| ==> !IsEmptyValue(r[i].1)
    ensures forall i :: 0 <= i < |r| ==> r[i].0 !in ExcludedKeys
    ensures forall i :: 0 <= i < |data| && Kept(data[i]) ==> data[i] in r
  {
    if data == [] then []
    else
      var rest := MinimalProfile(data[1..]);
      if Kept(data[0]) then [data[0]] + rest else rest
  }

  /** Filtering a minimal profile again changes nothing. */
  lemma {:induction false} MinimalProfileIdempotent(data: Profile)
    ensures MinimalProfile(MinimalProfile(data)) == MinimalProfile(data)
  {
    if data != [] {
      MinimalProfileIdempotent(data[1..]);
      var rest := MinimalProfile(data[1..]);
      if Kept(data[0]) {
        assert ([data[0]] + rest)[1..] == rest;
      }
    }
  }

  /** `a` is `b` with some entries left out, the rest in the same order. */
  predicate IsSubsequence(a: Profile, b: Profile)
  {
    a == [] || (b != [] && ((a[0] == b[0] && IsSubsequence(a[1..], b[1..])) || IsSubsequence(a, b[1..])))
  }

  /** The kept entries come in the input's key order. */
  lemma {:induction false} MinimalProfileKeepsOrder(data: Profile)
    ensures IsSubsequence(MinimalProfile(data), data)
  {
    if data != [] {
      MinimalProfileKeepsOrder(data[1..]);
      var rest := MinimalProfile(data[1..]);
      if Kept(data[0]) {
        assert ([data[0]] + rest)[1..] == rest;
      }
    }
  }

  /** The result is a dictionary again: its keys stay unique. */
  lemma {:induction false} MinimalProfileKeysUnique(data: Profile)
    requires UniqueKeys(data)
    ensures UniqueKeys(MinimalProfile(data))
  {
    if data != [] {
      assert UniqueKeys(data[1..]) by {
        forall i, j | 0 <= i < j < |data[1..]| ensures data[1..][i].0 != data[1..][j].0 {
          assert data[1..][i] == data[i + 1] && data[1..][j] == data[j + 1];
        }
      }
      MinimalProfileKeysUnique(data[1..]);
      var rest := MinimalProfile(data[1..]);
      if Kept(data[0]) {
        var r := [data[0]] + rest;
        forall i, j | 0 <= i < j < |r| ensures r[i].0 != r[j].0 {
          if i == 0 {
            assert r[j] == rest[j - 1] && rest[j - 1] in data[1..];
            var k :| 0 <= k < |data[1..]| && data[1..][k] == rest[j - 1];
            assert data[k + 1] == rest[j - 1];
          } else {
            assert r[i] == rest[i - 1] && r[j] == rest[j - 1];
          }
        }
      }
    }
  }
}
