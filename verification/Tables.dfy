/** A Go map filled by assignments in order, where the last one for a key wins. */
module Tables {
  type Entries = seq<(string, string)>

  function Fill(entries: Entries): map<string, string> {
    if entries == [] then map[]
    else
      var last := entries[|entries| - 1];
      Fill(entries[..|entries| - 1])[last.0 := last.1]
  }

  lemma FillSnoc(entries: Entries, key: string, value: string)
    ensures Fill(entries + [(key, value)]) == Fill(entries)[key := value]
  {
    assert (entries + [(key, value)])[..|entries|] == entries;
  }

  ghost predicate DistinctKeys(entries: Entries) {
    forall i, j :: 0 <= i < j < |entries| ==> entries[i].0 != entries[j].0
  }

  lemma {:induction false} FillKeys(entries: Entries, k: string)
    ensures k in Fill(entries) <==> exists i :: 0 <= i < |entries| && entries[i].0 == k
  {
    if entries != [] {
      var n := |entries| - 1;
      FillKeys(entries[..n], k);
      if i :| 0 <= i < n && entries[i].0 == k {
        assert entries[..n][i].0 == k;
      }
    }
  }

  lemma {:induction false} FillSize(entries: Entries)
    ensures |Fill(entries)| <= |entries|
    ensures |Fill(entries)| == |entries| <==> DistinctKeys(entries)
  {
    if entries != [] {
      var n := |entries| - 1;
      var rest, key := entries[..n], entries[n].0;
      var before, m := Fill(rest), Fill(entries);
      FillSize(rest);
      FillKeys(rest, key);
      assert m.Keys == before.Keys + {key};
      assert |m| == |m.Keys| && |before| == |before.Keys|;
      assert DistinctKeys(entries) <==> DistinctKeys(rest) && key !in before by {
        assert forall i :: 0 <= i < n ==> rest[i] == entries[i];
      }
      if key in before {
        assert m.Keys == before.Keys;
      }
    }
  }

  lemma {:induction false} FillValue(entries: Entries, i: nat)
    requires i < |entries| && DistinctKeys(entries)
    ensures entries[i].0 in Fill(entries) && Fill(entries)[entries[i].0] == entries[i].1
  {
    var n := |entries| - 1;
    if i < n {
      FillValue(entries[..n], i);
    }
  }

  // The map has one entry per assignment exactly when no key was assigned twice; then every
  // assignment shows.
  lemma FillHolds(entries: Entries)
    ensures forall k :: k in Fill(entries) <==> exists i :: 0 <= i < |entries| && entries[i].0 == k
    ensures |Fill(entries)| == |entries| <==> DistinctKeys(entries)
    ensures DistinctKeys(entries) ==>
              forall i :: 0 <= i < |entries| ==>
                            entries[i].0 in Fill(entries) && Fill(entries)[entries[i].0] == entries[i].1
  {
    FillSize(entries);
    forall k: string ensures k in Fill(entries) <==> exists i :: 0 <= i < |entries| && entries[i].0 == k {
      FillKeys(entries, k);
    }
    forall i: nat | i < |entries| && DistinctKeys(entries)
      ensures entries[i].0 in Fill(entries) && Fill(entries)[entries[i].0] == entries[i].1
    {
      FillValue(entries, i);
    }
  }
}
