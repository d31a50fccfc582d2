# Configuration settings cache

A model of the settings cache that the Azure App Configuration provider for
.NET keeps between refresh passes (`ConfigurationCacheManager`). The cache
holds two maps:

- `AllSettings`, the full snapshot of loaded settings, keyed by the setting's
  key and compared case-insensitively;
- `WatchedSettings`, the watched subset, keyed by the (key, label) identity of
  each watched setting.

A refresh replaces both maps wholesale (`UpdateSettingsCache`), upserts one
setting into both (`AddConfigurationSettingToCache`), or folds a list of
change records into each map separately. In that fold a `Deleted` change
removes its entry, a `Modified` change upserts `Current`, and any other
change type is skipped (`ProcessChangesUpdateWatchedSettings`,
`ProcessChangesUpdateAllSettings`). The full-snapshot fold files a change
under its key alone and never looks at the label.

Layout:

- `settings.dfy` (module `Settings`) has the values: settings, the
  (key, label) identity, change records and the case-folding of keys.
- `change_fold.dfy` (module `ChangeFold`) has the fold. `ApplyChanges` is one
  left-to-right fold, parameterised by the map key a change is filed under.
  `WatchedId` gives the (key, label) identity and `AllId` the case-folded key.
  `Outcome` is an independent last-change-wins reference for a single entry.
  The module also proves last-change-wins, the key bound, idempotence,
  label-blindness of the full-snapshot fold, and agreement of the two maps
  in the uncontested case.
- `cache_manager.dfy` (module `ConfigurationCache`) has the class
  `ConfigurationCacheManager`. Its two `map` fields are reassigned by the
  methods, and each loop is proved equal to the fold over the prefix it has
  processed.

Modelling decisions:

- The case-insensitive comparer of the snapshot is modelled by storing each
  setting under `CaseFold(key)`, which upper-cases ASCII letters. `Lookup(key)`
  is the lookup the dictionary performs.
- The copy constructor of a case-insensitive concurrent dictionary rejects a
  source with two keys that compare equal. `UpdateSettingsCache` therefore
  returns `ok == false` exactly when two keys of `allData` differ only in
  case. In that case the cache is left as it was, which is what the thrown
  exception does.
- The source's constructor is empty, so both dictionary properties are
  null until the first `UpdateSettingsCache`. `Loaded` records this. Touching
  a map before then would be a null dereference, so the methods that
  dereference a map require `Loaded`. The change folds require it only when
  some change is `Deleted` or `Modified`, because only those touch the map.
- `KeyLabelIdentifier` is a plain (key, label) pair with structural equality,
  and a missing label is `None`. Its definition is not part of this model.
- The definitions of `KeyValueChange` and its change type are not part of
  this model. The model's change type has `Deleted`, `Modified` and
  `NoChange`, where `NoChange` stands for every other value. The code acts
  only on `Deleted` and `Modified`; every other change type is skipped.
- The two maps are merged independently. They agree only under the
  one-label-per-key hypothesis of `WatchedAgreesWithAll`. A `Modified` change
  for a second label of a watched key overwrites the snapshot entry but leaves
  the watched entry for the first label alone.

## Model

| member | source | states |
|---|---|---|
| Settings.CaseFold | src/Microsoft.Extensions.Configuration.AzureAppConfiguration/ConfigurationCacheManager.cs:22-23 | the canonical key under which the snapshot compares keys has the key's length and is the key upper-cased character by character |
| Settings.CaseFoldIdempotent | src/Microsoft.Extensions.Configuration.AzureAppConfiguration/ConfigurationCacheManager.cs:23 | folding an already folded key gives the same key, so a folded key finds itself |
| Settings.CaseFoldIgnoresCase | src/Microsoft.Extensions.Configuration.AzureAppConfiguration/ConfigurationCacheManager.cs:23 | two keys that differ only in the case of ASCII letters address the same snapshot entry |
| Settings.CaseFoldSeparates | src/Microsoft.Extensions.Configuration.AzureAppConfiguration/ConfigurationCacheManager.cs:23 | conversely, two keys that address the same snapshot entry have the same length and differ at most in the case of ASCII letters |
| ChangeFold.Merge | src/Microsoft.Extensions.Configuration.AzureAppConfiguration/ConfigurationCacheManager.cs:43-50 | one change: Deleted leaves its entry absent, and deleting an absent entry changes nothing; Modified leaves `Current` at its entry; any other type leaves the map as it was; no other entry changes; no key other than the change's appears |
| ChangeFold.ApplyChanges | src/Microsoft.Extensions.Configuration.AzureAppConfiguration/ConfigurationCacheManager.cs:37-51 | the fold of a change list over one map: an entry that no change addresses keeps its prior value or absence; with the (key, label) identity it is the watched-subset loop at 37-51, with the folded key it is the full-snapshot loop at 56-69; what it computes is stated by `LastChangeWins`, `KeysAfterChanges` and `ApplyChangesIdempotent` |
| ChangeFold.LastChange | src/Microsoft.Extensions.Configuration.AzureAppConfiguration/ConfigurationCacheManager.cs:37-51 | finds the position of a Deleted or Modified change for the given map key with no later such change, or reports that there is none |
| ChangeFold.LastChangeWins | src/Microsoft.Extensions.Configuration.AzureAppConfiguration/ConfigurationCacheManager.cs:37-51 | after folding a change list, each entry is decided by the last Deleted/Modified change for it (absent, or that change's `Current`); an entry no such change mentions keeps its prior value or absence |
| ChangeFold.KeysAfterChanges | src/Microsoft.Extensions.Configuration.AzureAppConfiguration/ConfigurationCacheManager.cs:37-51 | the keys after the fold lie within the prior keys plus the keys of the Modified changes |
| ChangeFold.ApplyChangesIdempotent | src/Microsoft.Extensions.Configuration.AzureAppConfiguration/ConfigurationCacheManager.cs:35-70 | folding the same change list a second time changes nothing, for either map, and an empty list leaves the map unchanged |
| ChangeFold.AllSettingsIgnoreLabels | src/Microsoft.Extensions.Configuration.AzureAppConfiguration/ConfigurationCacheManager.cs:56-68 | the full-snapshot fold ignores labels: change lists that differ only in labels give the same snapshot, so a Deleted or Modified change for (k, l) acts on key k whatever label the stored setting has |
| ChangeFold.WatchedAgreesWithAll | src/Microsoft.Extensions.Configuration.AzureAppConfiguration/ConfigurationCacheManager.cs:35-70 | if no key carries two labels among the watched entries and the changes, and every watched entry initially equals its snapshot entry, the same holds after both maps fold the same change list |
| ConfigurationCache.ConfigurationCacheManager.constructor | src/Microsoft.Extensions.Configuration.AzureAppConfiguration/ConfigurationCacheManager.cs:18 | a new cache has not been loaded and holds no settings |
| ConfigurationCache.ConfigurationCacheManager.UpdateSettingsCache | src/Microsoft.Extensions.Configuration.AzureAppConfiguration/ConfigurationCacheManager.cs:20-27 | succeeds exactly when no two keys of `allData` differ only in case; then the snapshot holds exactly the entries of `allData` under folded keys, a lookup of each key finds its setting, and the watched subset is exactly `watchedData`; on failure nothing changes |
| ConfigurationCache.ConfigurationCacheManager.AddConfigurationSettingToCache | src/Microsoft.Extensions.Configuration.AzureAppConfiguration/ConfigurationCacheManager.cs:29-33 | the setting is stored under its folded key and under its (key, label) identity; a lookup of its key finds it, and every other entry of both maps is unchanged |
| ConfigurationCache.ConfigurationCacheManager.ProcessChangesUpdateWatchedSettings | src/Microsoft.Extensions.Configuration.AzureAppConfiguration/ConfigurationCacheManager.cs:35-52 | the watched subset becomes the fold of the change list keyed by (key, label), so the lemmas on `ApplyChanges` apply to it; the snapshot is unchanged |
| ConfigurationCache.ConfigurationCacheManager.ProcessChangesUpdateAllSettings | src/Microsoft.Extensions.Configuration.AzureAppConfiguration/ConfigurationCacheManager.cs:54-70 | the snapshot becomes the fold of the change list keyed by the folded key alone; the watched subset is unchanged |

## Left out

- Concurrency: the two maps are concurrent dictionaries read and written by
  application threads and refresh callers at once. The model is sequential,
  and each method is one atomic step.
- Reference aliasing in `UpdateSettingsCache`: when the argument already is a
  concurrent dictionary the source adopts it as-is, with whatever comparer it
  has, rather than copying it. The model always copies through the
  case-insensitive path.
- Case folding: `CaseFold` maps only ASCII letters. The ordinal
  case-insensitive comparer also folds non-ASCII letters.
- Null values: null keys, null labels distinct from `None`, null `Current`
  records and null arguments, each of which makes the source throw or store
  null, are not modelled. Strings and settings are always present.
- The `out` values of `TryRemove` are discarded by the source and are not modelled.
- The commented-out `ProcessChanges` (lines 73-99) is not live code and is not modelled.
- The mapping pipeline, change detection, conditional fetches, cache-expiration
  clocks, the refresher and the configuration source are not part of this model.
