/**
 The specification of how a list of change records is merged into one of
 the two cache maps. The two merges of the cache manager differ only in
 the map key a change is filed under: the (key, label) identity for the
 watched subset, the case-folded key alone for the full snapshot. Both are
 instances of one left-to-right fold parameterised by that choice.
 */
module ChangeFold {
  import opened Settings

  /** The map key a change addresses in the watched subset. */
  function WatchedId(c: KeyValueChange): KeyLabelIdentifier
  {
    KeyLabelIdentifier(c.Key, c.Label)
  }

  /** The map key a change addresses in the full snapshot: its key, label ignored. */
  function AllId(c: KeyValueChange): string
  {
    CaseFold(c.Key)
  }

  /** A change the merge acts on; every other change type is skipped. */
  predicate Effective(c: KeyValueChange)
  {
    c.ChangeType == Deleted || c.ChangeType == Modified
  }

  function Get<K>(m: map<K, ConfigurationSetting>, x: K): Option<ConfigurationSetting>
  {
    if x in m then Some(m[x]) else None
  }

  /** Merging one change: Deleted removes its entry, Modified upserts it, anything else is skipped. */
  function Merge<K(!new)>(m: map<K, ConfigurationSetting>, c: KeyValueChange, id: KeyValueChange -> K): (r: map<K, ConfigurationSetting>)
    ensures c.ChangeType == Deleted ==> Get(r, id(c)) == None
    ensures c.ChangeType == Deleted && id(c) !in m ==> r == m
    ensures c.ChangeType == Modified ==> Get(r, id(c)) == Some(c.Current)
    ensures !Effective(c) ==> r == m
    ensures forall x :: x != id(c) ==> Get(r, x) == Get(m, x)
    ensures r.Keys <= m.Keys + {id(c)}
  {
    match c.ChangeType
    case Deleted => m - {id(c)}
    case Modified => m[id(c) := c.Current]
    case NoChange => m
  }

  /** The map after merging every change of `cs`, first to last. */
  function ApplyChanges<K(!new)>(m: map<K, ConfigurationSetting>, cs: seq<KeyValueChange>, id: KeyValueChange -> K): (r: map<K, ConfigurationSetting>)
    ensures forall x :: (forall i :: 0 <= i < |cs| ==> id(cs[i]) != x) ==> Get(r, x) == Get(m, x)
    decreases |cs|
  {
    if cs == [] then m else Merge(ApplyChanges(m, cs[..|cs| - 1], id), cs[|cs| - 1], id)
  }

  /** The position of the last change of `cs` that acts on map key `x`, if any. */
  function LastChange<K(==)>(cs: seq<KeyValueChange>, id: KeyValueChange -> K, x: K): (r: Option<nat>)
    ensures r.Some? ==> r.value < |cs| && id(cs[r.value]) == x && Effective(cs[r.value])
    ensures r.Some? ==> forall j :: r.value < j < |cs| ==> !(id(cs[j]) == x && Effective(cs[j]))
    ensures r.None? ==> forall j :: 0 <= j < |cs| ==> !(id(cs[j]) == x && Effective(cs[j]))
    decreases |cs|
  {
    if cs == [] then None
    else if id(cs[|cs| - 1]) == x && Effective(cs[|cs| - 1]) then Some(|cs| - 1)
    else LastChange(cs[..|cs| - 1], id, x)
  }

  /**
   Reference definition of one entry after a merge: the last change that acts
   on it decides (absent after a Deleted, its Current after a Modified), and an
   entry no change acts on keeps its prior value.
   */
  function Outcome<K>(m: map<K, ConfigurationSetting>, cs: seq<KeyValueChange>, id: KeyValueChange -> K, x: K): Option<ConfigurationSetting>
  {
    match LastChange(cs, id, x)
    case None => Get(m, x)
    case Some(i) => if cs[i].ChangeType == Deleted then None else Some(cs[i].Current)
  }

  /** The fold agrees, entry by entry, with the last-change-wins reference. */
  lemma {:induction false} LastChangeWins<K(!new)>(m: map<K, ConfigurationSetting>, cs: seq<KeyValueChange>, id: KeyValueChange -> K, x: K)
    ensures Get(ApplyChanges(m, cs, id), x) == Outcome(m, cs, id, x)
    decreases |cs|
  {
    if cs != [] {
      var n := |cs| - 1;
      LastChangeWins(m, cs[..n], id, x);
      if !(id(cs[n]) == x && Effective(cs[n])) {
        assert LastChange(cs, id, x) == LastChange(cs[..n], id, x);
        match LastChange(cs[..n], id, x)
        case None =>
        case Some(i) => assert cs[..n][i] == cs[i];
      }
    }
  }

  /** Only prior map keys and the map keys of Modified changes can be present afterwards. */
  lemma {:induction false} KeysAfterChanges<K(!new)>(m: map<K, ConfigurationSetting>, cs: seq<KeyValueChange>, id: KeyValueChange -> K)
    ensures ApplyChanges(m, cs, id).Keys <= m.Keys + (set c | c in cs && c.ChangeType == Modified :: id(c))
    decreases |cs|
  {
    if cs != [] {
      var n := |cs| - 1;
      KeysAfterChanges(m, cs[..n], id);
      assert forall c :: c in cs[..n] ==> c in cs;
      assert cs[n] in cs;
    }
  }

  /** Maps that agree on every lookup are equal. */
  lemma MapsEqualByGet<K>(a: map<K, ConfigurationSetting>, b: map<K, ConfigurationSetting>)
    requires forall x :: Get(a, x) == Get(b, x)
    ensures a == b
  {
    forall x ensures x in a <==> x in b {
      assert Get(a, x).Some? == Get(b, x).Some?;
    }
    forall x | x in a ensures a[x] == b[x] {
      assert Get(a, x) == Get(b, x);
    }
  }

  /** Merging the same change list twice gives the same map as merging it once; an empty list changes nothing. */
  lemma ApplyChangesIdempotent<K(!new)>(m: map<K, ConfigurationSetting>, cs: seq<KeyValueChange>, id: KeyValueChange -> K)
    ensures ApplyChanges(ApplyChanges(m, cs, id), cs, id) == ApplyChanges(m, cs, id)
    ensures ApplyChanges(m, [], id) == m
  {
    var once := ApplyChanges(m, cs, id);
    forall x ensures Get(ApplyChanges(once, cs, id), x) == Get(once, x) {
      LastChangeWins(once, cs, id, x);
      LastChangeWins(m, cs, id, x);
    }
    MapsEqualByGet(ApplyChanges(once, cs, id), once);
  }

  /**
   The full-snapshot merge never looks at a change's label: two change lists
   that differ only in labels leave the snapshot in the same state.
   */
  lemma {:induction false} AllSettingsIgnoreLabels(m: map<string, ConfigurationSetting>, cs: seq<KeyValueChange>, ds: seq<KeyValueChange>)
    requires |cs| == |ds|
    requires forall i :: 0 <= i < |cs| ==>
      cs[i].Key == ds[i].Key && cs[i].ChangeType == ds[i].ChangeType && cs[i].Current == ds[i].Current
    ensures ApplyChanges(m, cs, AllId) == ApplyChanges(m, ds, AllId)
    decreases |cs|
  {
    if cs != [] {
      var n := |cs| - 1;
      AllSettingsIgnoreLabels(m, cs[..n], ds[..n]);
    }
  }

  /** Every watched identity whose key folds the same is the same identity. */
  ghost predicate OneLabelPerKey(ids: set<KeyLabelIdentifier>)
  {
    forall x, y :: x in ids && y in ids && CaseFold(x.Key) == CaseFold(y.Key) ==> x == y
  }

  /** Every watched entry is present in the full snapshot under its key, with the same setting. */
  ghost predicate Mirrors(watched: map<KeyLabelIdentifier, ConfigurationSetting>, all: map<string, ConfigurationSetting>)
  {
    forall x :: x in watched ==> CaseFold(x.Key) in all && all[CaseFold(x.Key)] == watched[x]
  }

  /** One change applied to both maps keeps every watched entry mirrored in the snapshot. */
  lemma MergeKeepsMirror(watched: map<KeyLabelIdentifier, ConfigurationSetting>, all: map<string, ConfigurationSetting>, c: KeyValueChange)
    requires OneLabelPerKey(watched.Keys + {WatchedId(c)})
    requires Mirrors(watched, all)
    ensures Mirrors(Merge(watched, c, WatchedId), Merge(all, c, AllId))
  {
  }

  /**
   In the uncontested case, where no key carries two labels among the watched
   entries and the changes, the watched subset and the full snapshot merged
   independently from the same change list never diverge.
   */
  lemma {:induction false} WatchedAgreesWithAll(watched: map<KeyLabelIdentifier, ConfigurationSetting>, all: map<string, ConfigurationSetting>, cs: seq<KeyValueChange>)
    requires OneLabelPerKey(watched.Keys + (set c | c in cs :: WatchedId(c)))
    requires Mirrors(watched, all)
    ensures Mirrors(ApplyChanges(watched, cs, WatchedId), ApplyChanges(all, cs, AllId))
    decreases |cs|
  {
    if cs != [] {
      var n := |cs| - 1;
      var ids := watched.Keys + (set c | c in cs :: WatchedId(c));
      assert forall c :: c in cs[..n] ==> c in cs;
      assert watched.Keys + (set c | c in cs[..n] :: WatchedId(c)) <= ids;
      WatchedAgreesWithAll(watched, all, cs[..n]);
      var w := ApplyChanges(watched, cs[..n], WatchedId);
      KeysAfterChanges(watched, cs[..n], WatchedId);
      assert cs[n] in cs;
      assert w.Keys + {WatchedId(cs[n])} <= ids;
      MergeKeepsMirror(w, ApplyChanges(all, cs[..n], AllId), cs[n]);
    }
  }
}
