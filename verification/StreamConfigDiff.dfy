/**
 Comparison of a stream's current settings with the desired ones
 (src/server/infrastructure/stream-config-diff.ts).

 A settings object is a map from property names to JSON values; a property that is missing
 reads as `undefined`, here `None`.
 */
module StreamConfigDiff {
  import opened Options

  type Field = (string, string)

  predicate DistinctKeys(fields: seq<Field>) {
    forall i, j :: 0 <= i < j < |fields| ==> fields[i].0 != fields[j].0
  }

  /** The fields of a nested object in their order, which counts when two are compared as texts. */
  type Fields = fields: seq<Field> | DistinctKeys(fields)

  datatype Value =
    | Null
    | Bool(b: bool)
    | Number(n: int)
    | Text(s: string)
    | List(items: seq<string>)
    | Record(fields: Fields)

  type Settings = map<string, Value>

  datatype Mutability = Mutable | EnableOnly | Immutable | TransportControlled

  datatype Change = Change(property: string, current: Option<Value>, desired: Value, mutability: Mutability)

  datatype Diff = Diff(
    hasChanges: bool,
    hasMutableChanges: bool,
    hasImmutableChanges: bool,
    hasTransportControlledConflicts: bool,
    changes: seq<Change>)

  const TRANSPORT_CONTROLLED_PROPERTIES: set<string> := {"retention"}
  const IMMUTABLE_PROPERTIES: set<string> := {"storage"}
  const ENABLE_ONLY_PROPERTIES: set<string> :=
    {"allow_msg_schedules", "allow_msg_ttl", "deny_delete", "deny_purge"}

  function Lookup(config: Settings, key: string): Option<Value> {
    if key in config then Some(config[key]) else None
  }

  /** `undefined` and `null` are one value to the comparison. */
  predicate IsEqual(a: Option<Value>, b: Option<Value>) {
    a == b || (a in {None, Some(Null)} && b in {None, Some(Null)})
  }

  function ClassifyMutability(key: string, current: Option<Value>, desired: Value): Mutability {
    if key in TRANSPORT_CONTROLLED_PROPERTIES then TransportControlled
    else if key in IMMUTABLE_PROPERTIES then Immutable
    else if key in ENABLE_ONLY_PROPERTIES then
      if current == Some(Bool(true)) && desired == Bool(false) then Immutable else EnableOnly
    else Mutable
  }

  /** `key` is desired to have another value than the current one. */
  predicate Differs(current: Settings, desired: Settings, key: string) {
    key in desired && !IsEqual(Lookup(current, key), Some(desired[key]))
  }

  predicate DiffersAs(current: Settings, desired: Settings, key: string, m: Mutability) {
    Differs(current, desired, key) && ClassifyMutability(key, Lookup(current, key), desired[key]) == m
  }

  /** Some desired property differs in a way of kind `m`. */
  predicate HasChange(current: Settings, desired: Settings, m: Mutability) {
    exists key :: key in desired && DiffersAs(current, desired, key, m)
  }

  // ----- In plain terms -----

  /** Desired, and not what is there; a missing property and null are one. */
  predicate PlainlyDiffers(current: Settings, desired: Settings, key: string) {
    key in desired && if key in current then current[key] != desired[key] else desired[key] != Null
  }

  predicate IsFlag(key: string) {
    key in {"allow_msg_schedules", "allow_msg_ttl", "deny_delete", "deny_purge"}
  }

  /** A flag that can only be enabled is on. */
  predicate FlagIsOn(settings: Settings, key: string) {
    IsFlag(key) && key in settings && settings[key] == Bool(true)
  }

  /** Only a new stream can have this: another storage, or a flag off that is on. */
  predicate NeedsNewStream(current: Settings, desired: Settings, key: string) {
    PlainlyDiffers(current, desired, key)
    && (key == "storage" || (FlagIsOn(current, key) && desired[key] == Bool(false)))
  }

  predicate AsksNewStream(current: Settings, desired: Settings) {
    exists key :: key in desired && NeedsNewStream(current, desired, key)
  }

  /** What an update can bring about, or at least ask for. */
  predicate Updatable(current: Settings, desired: Settings, key: string) {
    PlainlyDiffers(current, desired, key) && key != "retention" && !NeedsNewStream(current, desired, key)
  }

  predicate AsksUpdate(current: Settings, desired: Settings) {
    exists key :: key in desired && Updatable(current, desired, key)
  }

  /** What the server refuses to change of an existing stream. */
  predicate IsLocked(current: Settings, desired: Settings, key: string) {
    PlainlyDiffers(current, desired, key)
    && (key == "retention" || key == "storage" || FlagIsOn(current, key))
  }

  predicate Locked(current: Settings, desired: Settings) {
    exists key :: key in desired && IsLocked(current, desired, key)
  }

  /** A change and its kind, in plain terms. */
  predicate PlainlyRecords(c: Change, current: Settings, desired: Settings) {
    && PlainlyDiffers(current, desired, c.property)
    && c.desired == desired[c.property]
    && (if c.property in current then c.current == Some(current[c.property]) else c.current == None)
    && (c.mutability == TransportControlled <==> c.property == "retention")
    && (c.mutability == Immutable <==> NeedsNewStream(current, desired, c.property))
    && (c.mutability == EnableOnly <==> IsFlag(c.property) && !NeedsNewStream(current, desired, c.property))
  }

  lemma DifferenceIsPlain(current: Settings, desired: Settings, key: string)
    ensures Differs(current, desired, key) <==> PlainlyDiffers(current, desired, key)
    ensures DiffersAs(current, desired, key, Immutable) <==> NeedsNewStream(current, desired, key)
    ensures DiffersAs(current, desired, key, TransportControlled) <==>
            PlainlyDiffers(current, desired, key) && key == "retention"
    ensures DiffersAs(current, desired, key, EnableOnly) <==>
            PlainlyDiffers(current, desired, key) && IsFlag(key) && !NeedsNewStream(current, desired, key)
    ensures DiffersAs(current, desired, key, Mutable) <==>
            PlainlyDiffers(current, desired, key) && !IsFlag(key) && key != "retention" && key != "storage"
  {
  }

  lemma KindsArePlain(current: Settings, desired: Settings)
    ensures HasChange(current, desired, Immutable) <==> AsksNewStream(current, desired)
    ensures HasChange(current, desired, TransportControlled) <==> PlainlyDiffers(current, desired, "retention")
    ensures HasChange(current, desired, Mutable) || HasChange(current, desired, EnableOnly) <==>
            AsksUpdate(current, desired)
  {
    if AsksUpdate(current, desired) {
      var key :| key in desired && Updatable(current, desired, key);
      DifferenceIsPlain(current, desired, key);
      assert DiffersAs(current, desired, key, if IsFlag(key) then EnableOnly else Mutable);
    }
    forall key
      ensures DiffersAs(current, desired, key, Mutable) || DiffersAs(current, desired, key, EnableOnly)
              <==> Updatable(current, desired, key)
    {
      DifferenceIsPlain(current, desired, key);
    }
    forall key
      ensures DiffersAs(current, desired, key, Immutable) <==> NeedsNewStream(current, desired, key)
      ensures DiffersAs(current, desired, key, TransportControlled) <==>
              PlainlyDiffers(current, desired, key) && key == "retention"
    {
      DifferenceIsPlain(current, desired, key);
    }
    if AsksNewStream(current, desired) {
      var key :| key in desired && NeedsNewStream(current, desired, key);
      assert DiffersAs(current, desired, key, Immutable);
    }
    if PlainlyDiffers(current, desired, "retention") {
      assert DiffersAs(current, desired, "retention", TransportControlled);
    }
  }

  /** `c` records exactly how `c.property` differs. */
  predicate Records(c: Change, current: Settings, desired: Settings) {
    && Differs(current, desired, c.property)
    && c == Change(c.property, Lookup(current, c.property), desired[c.property],
                   ClassifyMutability(c.property, Lookup(current, c.property), desired[c.property]))
  }

  predicate Any(changes: seq<Change>, m: Mutability) {
    exists i :: 0 <= i < |changes| && changes[i].mutability == m
  }

  /** Each differing property once, in the order of `keys`. */
  method CollectChanges(current: Settings, desired: Settings, keys: seq<string>) returns (changes: seq<Change>)
    requires forall i, j :: 0 <= i < j < |keys| ==> keys[i] != keys[j]
    requires forall k :: k in keys <==> k in desired
    ensures forall c :: c in changes ==> Records(c, current, desired)
    ensures forall key :: Differs(current, desired, key) ==> exists c :: c in changes && c.property == key
    ensures forall i, j :: 0 <= i < j < |changes| ==> changes[i].property != changes[j].property
  {
    changes := [];
    for i := 0 to |keys|
      invariant forall c :: c in changes ==> Records(c, current, desired) && c.property in keys[..i]
      invariant forall j :: 0 <= j < i && Differs(current, desired, keys[j]) ==>
                  exists c :: c in changes && c.property == keys[j]
      invariant forall a, b :: 0 <= a < b < |changes| ==> changes[a].property != changes[b].property
    {
      var key := keys[i];
      var currentVal, desiredVal := Lookup(current, key), desired[key];
      if IsEqual(currentVal, Some(desiredVal)) {
        continue;
      }
      var c := Change(key, currentVal, desiredVal, ClassifyMutability(key, currentVal, desiredVal));
      assert forall d :: d in changes + [c] <==> d in changes || d == c;
      changes := changes + [c];
      assert c in changes;
    }
  }

  lemma RecordsArePlain(changes: seq<Change>, current: Settings, desired: Settings)
    requires forall c :: c in changes ==> Records(c, current, desired)
    requires forall key :: Differs(current, desired, key) ==> exists c :: c in changes && c.property == key
    ensures forall c :: c in changes ==> PlainlyRecords(c, current, desired)
    ensures forall key :: PlainlyDiffers(current, desired, key) ==> exists c :: c in changes && c.property == key
    ensures |changes| > 0 <==> exists key :: key in desired && PlainlyDiffers(current, desired, key)
  {
    forall c | c in changes
      ensures PlainlyRecords(c, current, desired)
    {
      DifferenceIsPlain(current, desired, c.property);
    }
    forall key
      ensures Differs(current, desired, key) <==> PlainlyDiffers(current, desired, key)
    {
      DifferenceIsPlain(current, desired, key);
    }
    if |changes| > 0 {
      assert changes[0] in changes && PlainlyDiffers(current, desired, changes[0].property);
    }
  }

  /**
   `keys` is the property order of the desired object. The result lists each differing property
   once, in that order, and its flags say which kinds of change there are.
   */
  method CompareStreamConfig(current: Settings, desired: Settings, keys: seq<string>) returns (r: Diff)
    requires forall i, j :: 0 <= i < j < |keys| ==> keys[i] != keys[j]
    requires forall k :: k in keys <==> k in desired
    ensures forall c :: c in r.changes ==> PlainlyRecords(c, current, desired) && Records(c, current, desired)
    ensures forall key :: PlainlyDiffers(current, desired, key) ==> exists c :: c in r.changes && c.property == key
    ensures forall key :: Differs(current, desired, key) ==> exists c :: c in r.changes && c.property == key
    ensures forall i, j :: 0 <= i < j < |r.changes| ==> r.changes[i].property != r.changes[j].property
    ensures r.hasChanges <==> exists key :: key in desired && PlainlyDiffers(current, desired, key)
    ensures r.hasImmutableChanges <==> AsksNewStream(current, desired)
    ensures r.hasTransportControlledConflicts <==> PlainlyDiffers(current, desired, "retention")
    ensures r.hasImmutableChanges <==> HasChange(current, desired, Immutable)
    ensures r.hasTransportControlledConflicts <==> HasChange(current, desired, TransportControlled)
    ensures r.hasMutableChanges <==> AsksUpdate(current, desired)
    ensures r.hasMutableChanges <==>
            HasChange(current, desired, Mutable) || HasChange(current, desired, EnableOnly)
  {
    var changes := CollectChanges(current, desired, keys);
    AnyMatchesHasChange(changes, current, desired, Mutable);
    AnyMatchesHasChange(changes, current, desired, EnableOnly);
    AnyMatchesHasChange(changes, current, desired, Immutable);
    AnyMatchesHasChange(changes, current, desired, TransportControlled);
    KindsArePlain(current, desired);
    RecordsArePlain(changes, current, desired);
    r := Diff(|changes| > 0, Any(changes, Mutable) || Any(changes, EnableOnly),
              Any(changes, Immutable), Any(changes, TransportControlled), changes);
  }

  lemma AnyMatchesHasChange(changes: seq<Change>, current: Settings, desired: Settings, m: Mutability)
    requires forall c :: c in changes ==> Records(c, current, desired)
    requires forall key :: Differs(current, desired, key) ==> exists c :: c in changes && c.property == key
    ensures Any(changes, m) <==> HasChange(current, desired, m)
  {
    if HasChange(current, desired, m) {
      var key :| key in desired && DiffersAs(current, desired, key, m);
      var c :| c in changes && c.property == key;
      var i :| 0 <= i < |changes| && changes[i] == c;
    }
    if Any(changes, m) {
      var i :| 0 <= i < |changes| && changes[i].mutability == m;
      assert changes[i] in changes;
      assert DiffersAs(current, desired, changes[i].property, m);
    }
  }

  /** Overlaying settings onto themselves is never refused. */
  lemma NeverLockedAgainstItself(settings: Settings, desired: Settings)
    requires forall k :: k in desired ==> k in settings && settings[k] == desired[k]
    ensures !Locked(settings, desired)
  {
  }
}
