/** Filling a dictionary in a loop: entries in order, later ones overriding earlier ones. */
module Dicts {
  import opened Wrappers

  function FromEntries<K, V>(entries: seq<Option<(K, V)>>): map<K, V> {
    if entries == [] then map[]
    else
      var before := FromEntries(entries[..|entries| - 1]);
      match entries[|entries| - 1]
      case None => before
      case Some(entry) => before[entry.0 := entry.1]
  }

  method Fill<K, V>(entries: seq<Option<(K, V)>>) returns (dict: map<K, V>)
    ensures dict == FromEntries(entries)
  {
    dict := map[];
    var i := 0;
    while i < |entries|
      invariant 0 <= i <= |entries|
      invariant dict == FromEntries(entries[..i])
    {
      if entries[i].Some? {
        dict := dict[entries[i].value.0 := entries[i].value.1];
      }
      assert entries[..i + 1][..i] == entries[..i];
      i := i + 1;
    }
    assert entries[..i] == entries;
  }

  predicate Names<K(==), V>(entry: Option<(K, V)>, key: K) {
    entry.Some? && entry.value.0 == key
  }

  /** A key is present iff some entry names it. */
  lemma {:induction false} KeysComeFromEntries<K, V>(entries: seq<Option<(K, V)>>, key: K)
    ensures key in FromEntries(entries) <==> exists i :: 0 <= i < |entries| && Names(entries[i], key)
  {
    if entries != [] {
      var n := |entries| - 1;
      KeysComeFromEntries(entries[..n], key);
      assert forall i :: 0 <= i < n ==> entries[..n][i] == entries[i];
      assert key in FromEntries(entries) <==> key in FromEntries(entries[..n]) || Names(entries[n], key);
    }
  }

  /** The last entry that names a key gives its value. */
  lemma {:induction false} LastEntryWins<K, V>(entries: seq<Option<(K, V)>>, i: nat)
    requires i < |entries| && entries[i].Some?
    requires forall j :: i < j < |entries| ==> !Names(entries[j], entries[i].value.0)
    ensures entries[i].value.0 in FromEntries(entries)
    ensures FromEntries(entries)[entries[i].value.0] == entries[i].value.1
  {
    var n := |entries| - 1;
    if i < n {
      var before := entries[..n];
      assert forall j :: 0 <= j < n ==> before[j] == entries[j];
      LastEntryWins(before, i);
      assert !Names(entries[n], entries[i].value.0);
    }
  }

  /** When the entries that say something name distinct keys, the dictionary holds exactly them. */
  lemma DistinctEntries<K(!new), V>(entries: seq<Option<(K, V)>>, params: map<K, V>, keys: seq<K>)
    requires |keys| == |entries|
    requires forall i, j :: 0 <= i < j < |keys| ==> keys[i] != keys[j]
    requires forall k :: k in keys <==> k in params
    requires forall i :: 0 <= i < |keys| ==> keys[i] in params && entries[i] == Some((keys[i], params[keys[i]]))
    ensures FromEntries(entries) == params
  {
    var dict := FromEntries(entries);
    forall k ensures k in dict <==> k in params {
      KeysComeFromEntries(entries, k);
      if k in params {
        var i :| 0 <= i < |keys| && keys[i] == k;
        assert Names(entries[i], k);
      }
    }
    forall k | k in params ensures k in dict && dict[k] == params[k] {
      var i :| 0 <= i < |keys| && keys[i] == k;
      LastEntryWins(entries, i);
    }
  }

  /** An entry that says nothing leaves no trace. */
  lemma OneOfTwo<K, V>(entries: seq<Option<(K, V)>>, entry: (K, V))
    requires |entries| == 2 && entries[0].None? && entries[1] == Some(entry)
    ensures FromEntries(entries) == map[entry.0 := entry.1]
  {
    assert entries[..1][..0] == [];
    assert FromEntries(entries[..1]) == map[];
  }
}
