/**
 The two name indexers. Each turns a list into a map keyed by alert name; a
 later entry with an already-seen name overwrites the earlier one.
 */
module Indexer {
  import opened Types

  /** The key `ConfigByAlertName` uses for a desired alert. */
  function ConfigName(a: Alert): (name: string)
  {
    a.alertName
  }

  /** The key `ResultsByAlertName` uses for a current result: the name of its
      embedded alert. */
  function ResultName(r: ApiResult): (name: string)
  {
    r.AlertName()
  }

  /** The map both indexers build, with the list's elements assigned in order. */
  function IndexBy<T>(s: seq<T>, name: T -> string): (index: map<string, T>)
  {
    if s == [] then map[]
    else IndexBy(s[..|s| - 1], name)[name(s[|s| - 1]) := s[|s| - 1]]
  }

  /** The names occurring in a list. */
  function NamesOf<T>(s: seq<T>, name: T -> string): (names: set<string>)
  {
    set i | 0 <= i < |s| :: name(s[i])
  }

  /** Position i holds the last element of s with its name. */
  predicate IsLastWithName<T>(s: seq<T>, name: T -> string, i: int)
  {
    0 <= i < |s| && forall j :: i < j < |s| ==> name(s[j]) != name(s[i])
  }

  /** Adding an element at the end adds its name to the names of the list. */
  lemma NamesOfSnoc<T>(s: seq<T>, name: T -> string)
    requires s != []
    ensures NamesOf(s, name) == NamesOf(s[..|s| - 1], name) + {name(s[|s| - 1])}
  {
    var init := s[..|s| - 1];
    forall k | k in NamesOf(s, name)
      ensures k in NamesOf(init, name) + {name(s[|s| - 1])}
    {
      var i :| 0 <= i < |s| && name(s[i]) == k;
      if i < |s| - 1 {
        assert init[i] == s[i];
      }
    }
    forall k | k in NamesOf(init, name)
      ensures k in NamesOf(s, name)
    {
      var i :| 0 <= i < |init| && name(init[i]) == k;
      assert s[i] == init[i];
    }
  }

  /** A list has distinct names exactly when all but its last element do and
      the last element's name is new. */
  lemma DistinctNamesSnoc<T>(s: seq<T>, name: T -> string)
    requires s != []
    ensures DistinctNames(s, name) <==>
      DistinctNames(s[..|s| - 1], name) && name(s[|s| - 1]) !in NamesOf(s[..|s| - 1], name)
  {
    var init, last := s[..|s| - 1], s[|s| - 1];
    if DistinctNames(s, name) {
      forall i, j | 0 <= i < j < |init|
        ensures name(init[i]) != name(init[j])
      {
        assert s[i] == init[i] && s[j] == init[j];
      }
    }
    if DistinctNames(init, name) && name(last) !in NamesOf(init, name) {
      forall i, j | 0 <= i < j < |s|
        ensures name(s[i]) != name(s[j])
      {
        assert s[i] == init[i];
        if j < |s| - 1 {
          assert s[j] == init[j];
        } else {
          assert name(init[i]) in NamesOf(init, name);
        }
      }
    }
  }

  /** The keys of the index are exactly the names of the list. */
  lemma {:induction false} IndexByKeys<T>(s: seq<T>, name: T -> string)
    ensures IndexBy(s, name).Keys == NamesOf(s, name)
  {
    if s != [] {
      IndexByKeys(s[..|s| - 1], name);
      NamesOfSnoc(s, name);
    }
  }

  /** Every entry of the index is stored under its own name. */
  lemma {:induction false} IndexByKeyed<T>(s: seq<T>, name: T -> string)
    ensures forall k :: k in IndexBy(s, name) ==> name(IndexBy(s, name)[k]) == k
  {
    if s != [] {
      IndexByKeyed(s[..|s| - 1], name);
    }
  }

  /** The index has one key per distinct name of the list; every name maps to
      the last element carrying it, and so every entry is stored under its own
      name. An empty list gives an empty map. */
  lemma {:induction false} IndexByContents<T>(s: seq<T>, name: T -> string)
    ensures IndexBy(s, name).Keys == NamesOf(s, name)
    ensures forall i :: IsLastWithName(s, name, i) ==> IndexBy(s, name)[name(s[i])] == s[i]
    ensures forall k :: k in IndexBy(s, name) ==> name(IndexBy(s, name)[k]) == k
    ensures s == [] ==> IndexBy(s, name) == map[]
  {
    IndexByKeys(s, name);
    IndexByKeyed(s, name);
    if s != [] {
      var init, last := s[..|s| - 1], s[|s| - 1];
      IndexByContents(init, name);
      forall i | IsLastWithName(s, name, i)
        ensures IndexBy(s, name)[name(s[i])] == s[i]
      {
        if i < |s| - 1 {
          assert s[i] == init[i];
          assert IsLastWithName(init, name, i) by {
            forall j | i < j < |init|
              ensures name(init[j]) != name(init[i])
            {
              assert s[j] == init[j];
            }
          }
        }
      }
    }
  }

  /** Only the last element with a given name survives, so the index is never
      larger than the list, and it is exactly as large when names are distinct. */
  lemma {:induction false} IndexBySize<T>(s: seq<T>, name: T -> string)
    ensures |IndexBy(s, name)| <= |s|
    ensures DistinctNames(s, name) ==> |IndexBy(s, name)| == |s|
    ensures !DistinctNames(s, name) ==> |IndexBy(s, name)| < |s|
  {
    if s != [] {
      var init, last := s[..|s| - 1], s[|s| - 1];
      IndexBySize(init, name);
      IndexByKeys(init, name);
      DistinctNamesSnoc(s, name);
      var m := IndexBy(init, name);
      assert IndexBy(s, name) == m[name(last) := last];
      if name(last) !in m {
        assert |m[name(last) := last]| == |m| + 1;
      }
    }
  }

  /** No two elements of the list share a name. */
  predicate DistinctNames<T>(s: seq<T>, name: T -> string)
  {
    forall i, j :: 0 <= i < j < |s| ==> name(s[i]) != name(s[j])
  }

  /** Indexes the desired alerts by name, later entries overwriting earlier ones. */
  method ConfigByAlertName(alerts: seq<Alert>) returns (alertsByName: map<string, Alert>)
    ensures alertsByName == IndexBy(alerts, ConfigName)
    ensures alertsByName.Keys == NamesOf(alerts, ConfigName)
    ensures forall i :: IsLastWithName(alerts, ConfigName, i) ==> alertsByName[alerts[i].alertName] == alerts[i]
  {
    alertsByName := map[];
    for i := 0 to |alerts|
      invariant alertsByName == IndexBy(alerts[..i], ConfigName)
    {
      assert alerts[..i + 1][..i] == alerts[..i];
      alertsByName := alertsByName[alerts[i].alertName := alerts[i]];
    }
    assert alerts[..|alerts|] == alerts;
    IndexByContents(alerts, ConfigName);
  }

  /** Indexes the current results by the name of their embedded alert, later
      entries overwriting earlier ones. */
  method ResultsByAlertName(results: seq<ApiResult>) returns (resultsByName: map<string, ApiResult>)
    ensures resultsByName == IndexBy(results, ResultName)
    ensures resultsByName.Keys == NamesOf(results, ResultName)
    ensures forall i :: IsLastWithName(results, ResultName, i) ==> resultsByName[results[i].alert.alertName] == results[i]
  {
    resultsByName := map[];
    for i := 0 to |results|
      invariant resultsByName == IndexBy(results[..i], ResultName)
    {
      assert results[..i + 1][..i] == results[..i];
      resultsByName := resultsByName[results[i].AlertName() := results[i]];
    }
    assert results[..|results|] == results;
    IndexByContents(results, ResultName);
  }
}
