/** The parameters of an operation: those its path shares, and its own. */
module Parameters {
  import opened Wrappers
  import opened Documents

  datatype Parameter = Parameter(required: bool, schema: Option<NodeId>)
  type ParameterKey = (string, string)   // location and name

  /** One listed parameter, resolved; its location or name may be missing. */
  datatype Listed = Listed(location: Option<string>, name: Option<string>, parameter: Parameter)

  predicate HasKey(entry: Listed, key: ParameterKey) {
    entry.location == Some(key.0) && entry.name == Some(key.1)
  }

  /** The last entry with the key: an operation's own parameter hides the one its path shares. */
  predicate IsLast(entries: seq<Listed>, key: ParameterKey, parameter: Parameter) {
    exists i | 0 <= i < |entries| ::
      && HasKey(entries[i], key) && entries[i].parameter == parameter
      && forall j | i < j < |entries| :: !HasKey(entries[j], key)
  }

  predicate Mentioned(entries: seq<Listed>, key: ParameterKey) {
    exists i | 0 <= i < |entries| :: HasKey(entries[i], key)
  }

  /** Later entries replace earlier ones; entries without a location or name are skipped. */
  function Merged(entries: seq<Listed>): map<ParameterKey, Parameter> {
    if entries == [] then map[]
    else
      var rest, last := Merged(entries[..|entries| - 1]), entries[|entries| - 1];
      if last.location.Some? && last.name.Some?
      then rest[(last.location.value, last.name.value) := last.parameter]
      else rest
  }

  method ParameterMap(shared: seq<Listed>, own: seq<Listed>) returns (r: map<ParameterKey, Parameter>)
    ensures r == Merged(shared + own)
    ensures forall key :: key in r <==> Mentioned(shared, key) || Mentioned(own, key)
    ensures forall key | key in r ::
              if Mentioned(own, key) then IsLast(own, key, r[key]) else IsLast(shared, key, r[key])
  {
    var entries := shared + own;
    r := map[];
    for i := 0 to |entries|
      invariant r == Merged(entries[..i])
    {
      var entry := entries[i];
      assert entries[..i + 1][..i] == entries[..i];
      if entry.location.Some? && entry.name.Some? {
        r := r[(entry.location.value, entry.name.value) := entry.parameter];
      }
    }
    assert entries[..|entries|] == entries;
    OwnHidesShared(shared, own);
  }

  lemma {:induction false} MergedKeepsLast(entries: seq<Listed>, key: ParameterKey)
    ensures key in Merged(entries) <==> Mentioned(entries, key)
    ensures key in Merged(entries) ==> IsLast(entries, key, Merged(entries)[key])
  {
    if entries != [] {
      var n := |entries| - 1;
      MergedKeepsLast(entries[..n], key);
      ExtendListed(entries[..n], entries[n], key);
      assert entries == entries[..n] + [entries[n]];
    }
  }

  /** An operation's own parameter counts, and else the one its path shares. */
  lemma OwnHidesShared(shared: seq<Listed>, own: seq<Listed>)
    ensures forall key :: key in Merged(shared + own) <==> Mentioned(shared, key) || Mentioned(own, key)
    ensures forall key | key in Merged(shared + own) ::
              if Mentioned(own, key) then IsLast(own, key, Merged(shared + own)[key])
              else IsLast(shared, key, Merged(shared + own)[key])
  {
    forall key
      ensures key in Merged(shared + own) <==> Mentioned(shared, key) || Mentioned(own, key)
      ensures key in Merged(shared + own) ==>
                if Mentioned(own, key) then IsLast(own, key, Merged(shared + own)[key])
                else IsLast(shared, key, Merged(shared + own)[key])
    {
      MergedKeepsLast(shared + own, key);
      MentionedInTwo(shared, own, key);
      if key in Merged(shared + own) {
        LastOfTwo(shared, own, key, Merged(shared + own)[key]);
      }
    }
  }

  lemma ExtendListed(entries: seq<Listed>, entry: Listed, key: ParameterKey)
    ensures Mentioned(entries + [entry], key) <==> Mentioned(entries, key) || HasKey(entry, key)
    ensures HasKey(entry, key) ==> IsLast(entries + [entry], key, entry.parameter)
    ensures forall p | IsLast(entries, key, p) && !HasKey(entry, key) :: IsLast(entries + [entry], key, p)
  {
    var longer := entries + [entry];
    assert longer[|entries|] == entry;
    assert forall i | 0 <= i < |entries| :: longer[i] == entries[i];
  }

  lemma MentionedInTwo(shared: seq<Listed>, own: seq<Listed>, key: ParameterKey)
    ensures Mentioned(shared + own, key) <==> Mentioned(shared, key) || Mentioned(own, key)
  {
    var entries := shared + own;
    assert forall i | 0 <= i < |shared| :: entries[i] == shared[i];
    assert forall i | 0 <= i < |own| :: entries[|shared| + i] == own[i];
  }

  lemma LastOfTwo(shared: seq<Listed>, own: seq<Listed>, key: ParameterKey, p: Parameter)
    requires IsLast(shared + own, key, p)
    ensures if Mentioned(own, key) then IsLast(own, key, p) else IsLast(shared, key, p)
  {
    var entries := shared + own;
    var i :| 0 <= i < |entries| && HasKey(entries[i], key) && entries[i].parameter == p
             && forall j | i < j < |entries| :: !HasKey(entries[j], key);
    if Mentioned(own, key) {
      var m :| 0 <= m < |own| && HasKey(own[m], key);
      assert entries[|shared| + m] == own[m];
      assert own[i - |shared|] == entries[i];
      forall j | i - |shared| < j < |own| ensures !HasKey(own[j], key) {
        assert entries[|shared| + j] == own[j];
      }
      assert IsLast(own, key, p);
    } else {
      assert shared[i] == entries[i];
      forall j | i < j < |shared| ensures !HasKey(shared[j], key) {
        assert entries[j] == shared[j];
      }
      assert IsLast(shared, key, p);
    }
  }
}
