/**
 The settings cache of the configuration provider: the full snapshot of
 every loaded setting, keyed by key and compared case-insensitively, and
 the watched subset, keyed by (key, label) identity. Refresh passes replace
 both maps, upsert single settings into both, or merge change lists into
 each of them independently.
 */
module ConfigurationCache {
  import opened Settings
  import opened ChangeFold

  /** No two distinct keys of `keys` compare equal ignoring case. */
  ghost predicate NoCollisionAmong(keys: set<string>)
  {
    forall k1, k2 :: k1 in keys && k2 in keys && CaseFold(k1) == CaseFold(k2) ==> k1 == k2
  }

  /** No two distinct keys of `d` compare equal ignoring case. */
  ghost predicate NoCaseCollision(d: map<string, ConfigurationSetting>)
  {
    NoCollisionAmong(d.Keys)
  }

  /** `copy` is the case-insensitive copy of the entries of `d` under the keys `done`. */
  ghost predicate CopiedFrom(d: map<string, ConfigurationSetting>, done: set<string>, copy: map<string, ConfigurationSetting>)
  {
    && done <= d.Keys
    && copy.Keys == (set k | k in done :: CaseFold(k))
    && (forall k :: k in done ==> copy[CaseFold(k)] == d[k])
    && NoCollisionAmong(done)
  }

  /** Copying a key whose folded form is not yet present extends the copy. */
  lemma CopyStep(d: map<string, ConfigurationSetting>, done: set<string>, copy: map<string, ConfigurationSetting>, k: string)
    requires CopiedFrom(d, done, copy)
    requires k in d && k !in done && CaseFold(k) !in copy
    ensures CopiedFrom(d, done + {k}, copy[CaseFold(k) := d[k]])
  {
    forall j | j in done ensures CaseFold(j) != CaseFold(k) {
      assert CaseFold(j) in copy.Keys;
    }
    CopyStepKeys(done, copy, k, d[k]);
    CopyStepValues(d, done, copy, k);
    CopyStepNoCollision(done, k);
  }

  /** The folded keys of the extended copy. */
  lemma CopyStepKeys(done: set<string>, copy: map<string, ConfigurationSetting>, k: string, v: ConfigurationSetting)
    requires copy.Keys == (set j | j in done :: CaseFold(j))
    ensures copy[CaseFold(k) := v].Keys == (set j | j in done + {k} :: CaseFold(j))
  {
    var copy' := copy[CaseFold(k) := v];
    forall x ensures x in copy'.Keys <==> x in (set j | j in done + {k} :: CaseFold(j)) {
      if x in copy.Keys {
        var j :| j in done && CaseFold(j) == x;
        assert j in done + {k};
      }
    }
  }

  /** Every copied key still finds its own setting after the extension. */
  lemma CopyStepValues(d: map<string, ConfigurationSetting>, done: set<string>, copy: map<string, ConfigurationSetting>, k: string)
    requires done <= d.Keys && k in d
    requires forall j :: j in done ==> CaseFold(j) in copy && copy[CaseFold(j)] == d[j]
    requires forall j :: j in done ==> CaseFold(j) != CaseFold(k)
    ensures forall j :: j in done + {k} ==> copy[CaseFold(k) := d[k]][CaseFold(j)] == d[j]
  {
  }

  /** A key that folds apart from all copied keys adds no collision. */
  lemma CopyStepNoCollision(done: set<string>, k: string)
    requires NoCollisionAmong(done)
    requires forall j :: j in done ==> CaseFold(j) != CaseFold(k)
    ensures NoCollisionAmong(done + {k})
  {
  }

  /** A key whose folded form is already present collides with a copied key. */
  lemma CopyClash(d: map<string, ConfigurationSetting>, done: set<string>, copy: map<string, ConfigurationSetting>, k: string)
    requires CopiedFrom(d, done, copy)
    requires k in d && k !in done && CaseFold(k) in copy
    ensures !NoCaseCollision(d)
  {
    var other :| other in done && CaseFold(other) == CaseFold(k);
    assert other in d && other != k;
  }

  /**
   The snapshot stores each setting under the case-folded key; `Loaded` is
   false while the source's two dictionary properties are still null.
   */
  class ConfigurationCacheManager {
    var Loaded: bool
    var AllSettings: map<string, ConfigurationSetting>
    var WatchedSettings: map<KeyLabelIdentifier, ConfigurationSetting>

    /** The snapshot entry a lookup of `key` finds, whatever the case of its letters. */
    function Lookup(key: string): Option<ConfigurationSetting>
      reads this
    {
      Get(AllSettings, CaseFold(key))
    }

    constructor ()
      ensures !Loaded && AllSettings == map[] && WatchedSettings == map[]
    {
      Loaded := false;
      AllSettings := map[];
      WatchedSettings := map[];
    }

    /**
     Replaces both maps. Copying `allData` into a case-insensitive dictionary
     fails, leaving the cache as it was, when two of its keys differ only in case.
     */
    method UpdateSettingsCache(allData: map<string, ConfigurationSetting>, watchedData: map<KeyLabelIdentifier, ConfigurationSetting>)
      returns (ok: bool)
      modifies this
      ensures ok <==> NoCaseCollision(allData)
      ensures ok ==> Loaded && WatchedSettings == watchedData
      ensures ok ==> AllSettings.Keys == set k | k in allData :: CaseFold(k)
      ensures ok ==> forall k :: k in allData ==> Lookup(k) == Some(allData[k])
      ensures !ok ==> Loaded == old(Loaded) && AllSettings == old(AllSettings) && WatchedSettings == old(WatchedSettings)
    {
      var copy: map<string, ConfigurationSetting> := map[];
      var rest := allData.Keys;
      while rest != {}
        invariant rest <= allData.Keys
        invariant CopiedFrom(allData, allData.Keys - rest, copy)
        invariant Loaded == old(Loaded) && AllSettings == old(AllSettings) && WatchedSettings == old(WatchedSettings)
        decreases rest
      {
        var k :| k in rest;
        if CaseFold(k) in copy {
          CopyClash(allData, allData.Keys - rest, copy, k);
          return false;
        }
        CopyStep(allData, allData.Keys - rest, copy, k);
        assert allData.Keys - (rest - {k}) == (allData.Keys - rest) + {k};
        copy := copy[CaseFold(k) := allData[k]];
        rest := rest - {k};
      }
      assert allData.Keys - rest == allData.Keys;
      AllSettings := copy;
      WatchedSettings := watchedData;
      Loaded := true;
      ok := true;
    }

    /** Upserts one setting into both maps. */
    method AddConfigurationSettingToCache(configSetting: ConfigurationSetting)
      requires Loaded
      modifies this
      ensures Loaded
      ensures AllSettings == old(AllSettings)[CaseFold(configSetting.Key) := configSetting]
      ensures WatchedSettings == old(WatchedSettings)[KeyLabelIdentifier(configSetting.Key, configSetting.Label) := configSetting]
      ensures Lookup(configSetting.Key) == Some(configSetting)
      ensures forall k :: CaseFold(k) != CaseFold(configSetting.Key) ==> Lookup(k) == old(Lookup(k))
    {
      AllSettings := AllSettings[CaseFold(configSetting.Key) := configSetting];
      WatchedSettings := WatchedSettings[KeyLabelIdentifier(configSetting.Key, configSetting.Label) := configSetting];
    }

    /** Merges a change list into the watched subset, keyed by (key, label). */
    method ProcessChangesUpdateWatchedSettings(changes: seq<KeyValueChange>)
      requires Loaded || forall i :: 0 <= i < |changes| ==> !Effective(changes[i])
      modifies this
      ensures WatchedSettings == ApplyChanges(old(WatchedSettings), changes, WatchedId)
      ensures AllSettings == old(AllSettings) && Loaded == old(Loaded)
    {
      for i := 0 to |changes|
        invariant WatchedSettings == ApplyChanges(old(WatchedSettings), changes[..i], WatchedId)
        invariant AllSettings == old(AllSettings) && Loaded == old(Loaded)
      {
        var change := changes[i];
        var changedKeyLabel := KeyLabelIdentifier(change.Key, change.Label);
        if change.ChangeType == Deleted {
          WatchedSettings := WatchedSettings - {changedKeyLabel};
        } else if change.ChangeType == Modified {
          WatchedSettings := WatchedSettings[changedKeyLabel := change.Current];
        }
        assert changes[..i + 1][..i] == changes[..i];
      }
      assert changes[..|changes|] == changes;
    }

    /** Merges a change list into the full snapshot, keyed by key alone. */
    method ProcessChangesUpdateAllSettings(changes: seq<KeyValueChange>)
      requires Loaded || forall i :: 0 <= i < |changes| ==> !Effective(changes[i])
      modifies this
      ensures AllSettings == ApplyChanges(old(AllSettings), changes, AllId)
      ensures WatchedSettings == old(WatchedSettings) && Loaded == old(Loaded)
    {
      for i := 0 to |changes|
        invariant AllSettings == ApplyChanges(old(AllSettings), changes[..i], AllId)
        invariant WatchedSettings == old(WatchedSettings) && Loaded == old(Loaded)
      {
        var change := changes[i];
        var changedKey := CaseFold(change.Key);
        if change.ChangeType == Deleted {
          AllSettings := AllSettings - {changedKey};
        } else if change.ChangeType == Modified {
          AllSettings := AllSettings[changedKey := change.Current];
        }
        assert changes[..i + 1][..i] == changes[..i];
      }
      assert changes[..|changes|] == changes;
    }
  }
}
