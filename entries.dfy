/** Maps built from the entries of a decoded JSON object whose keys are numbers
    written as text: each key is read (with `parseInt`) and later entries
    overwrite earlier ones (`map.set(parseInt(key), value)` in a loop). */
module Entries {
  import opened Common

  /** `m` after setting, in order, the value of every entry whose key `readKey`
      reads as an integer. A key that reads as NaN (`None`) is not stored. */
  function SetParsed<V>(m: map<int, V>, entries: seq<(string, V)>, readKey: string -> Option<int>): map<int, V> {
    if entries == [] then m
    else
      var before := SetParsed(m, entries[..|entries| - 1], readKey);
      var last := entries[|entries| - 1];
      match readKey(last.0)
      case Some(key) => before[key := last.1]
      case None => before
  }

  /** Setting one more entry: the loop step of the stores' loading loops. */
  lemma SetParsedStep<V>(m: map<int, V>, entries: seq<(string, V)>, readKey: string -> Option<int>, i: nat)
    requires i < |entries|
    ensures var before := SetParsed(m, entries[..i], readKey);
      SetParsed(m, entries[..i + 1], readKey) ==
        match readKey(entries[i].0)
        case Some(key) => before[key := entries[i].1]
        case None => before
  {
    assert entries[..i + 1][..i] == entries[..i];
  }

  /** The position of the last entry whose key reads as `key`, or -1. */
  function LastWithKey<V>(entries: seq<(string, V)>, key: int, readKey: string -> Option<int>): (r: int)
    ensures -1 <= r < |entries|
    ensures r >= 0 ==> readKey(entries[r].0) == Some(key)
    ensures forall j :: r < j < |entries| ==> readKey(entries[j].0) != Some(key)
  {
    if entries == [] then -1
    else if readKey(entries[|entries| - 1].0) == Some(key) then |entries| - 1
    else LastWithKey(entries[..|entries| - 1], key, readKey)
  }

  /** A key read from some entry holds the value of the last entry with that key;
      any other key keeps what it held before. */
  lemma {:induction false} SetParsedAt<V>(m: map<int, V>, entries: seq<(string, V)>, readKey: string -> Option<int>, key: int)
    ensures var i := LastWithKey(entries, key, readKey);
      var r := SetParsed(m, entries, readKey);
      && (i >= 0 ==> key in r && r[key] == entries[i].1)
      && (i < 0 ==> (key in r <==> key in m) && (key in m ==> r[key] == m[key]))
  {
    if entries != [] {
      SetParsedAt(m, entries[..|entries| - 1], readKey, key);
    }
  }
}
