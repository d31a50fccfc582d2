/**
 Values the configuration cache stores and consumes: settings fetched from
 the remote store, the (key, label) identity of a watched setting, and the
 change records a refresh pass produces.
 */
module Settings {

  datatype Option<T> = None | Some(value: T)

  /** One key-value entry of the remote store with its metadata. */
  datatype ConfigurationSetting = ConfigurationSetting(
    Key: string,
    Label: Option<string>,
    Value: string,
    ETag: string,
    ContentType: Option<string>)

  /** Identity of a watched setting: the raw key and the label, compared structurally. */
  datatype KeyLabelIdentifier = KeyLabelIdentifier(Key: string, Label: Option<string>)

  /**
   How a watched setting changed remotely. `Modified` and `Deleted` are the
   two values the cache acts on; `NoChange` stands for every other value.
   */
  datatype KeyValueChangeType = NoChange | Modified | Deleted

  /** One change record of a refresh pass; `Current` is the newly fetched setting. */
  datatype KeyValueChange = KeyValueChange(
    Key: string,
    Label: Option<string>,
    ChangeType: KeyValueChangeType,
    Current: ConfigurationSetting)

  function UpperAscii(ch: char): char
  {
    if 'a' <= ch <= 'z' then (ch as int - 32) as char else ch
  }

  /**
   The canonical form under which the full snapshot compares keys (an
   ordinal, case-insensitive comparison): every ASCII lower-case letter is
   replaced by its upper-case counterpart.
   */
  function CaseFold(k: string): (r: string)
    ensures |r| == |k|
    ensures forall i :: 0 <= i < |k| ==> r[i] == UpperAscii(k[i])
  {
    if k == [] then [] else [UpperAscii(k[0])] + CaseFold(k[1..])
  }

  /** Folding an already folded key changes nothing. */
  lemma CaseFoldIdempotent(k: string)
    ensures CaseFold(CaseFold(k)) == CaseFold(k)
  {
  }

  /** Two keys that differ only in the case of ASCII letters fold to the same key. */
  lemma CaseFoldIgnoresCase(a: string, b: string)
    requires |a| == |b|
    requires forall i :: 0 <= i < |a| ==> UpperAscii(a[i]) == UpperAscii(b[i])
    ensures CaseFold(a) == CaseFold(b)
  {
  }

  /** Two keys that fold to the same key differ at most in the case of ASCII letters. */
  lemma CaseFoldSeparates(a: string, b: string)
    requires CaseFold(a) == CaseFold(b)
    ensures |a| == |b|
    ensures forall i :: 0 <= i < |a| ==> UpperAscii(a[i]) == UpperAscii(b[i])
  {
  }
}
