/**
 Provisioning of one stream at boot (src/server/infrastructure/stream.provider.ts): what is sent
 to the server for a stream that exists, and the boot around it.
 */
module StreamProvider {
  import opened Options
  import opened Metadata
  import opened StreamConfigDiff
  import opened StreamServer
  import opened MigrationSafety
  import opened StreamMigration
  import opened SubjectUtils

  const STREAM_OWNER_METADATA_KEY := "nestjs-jetstream-owner"

  /** `shared`: the broadcast stream, which every service of the cluster provisions. */
  datatype Provisioning = Provisioning(serviceName: string, allowDestructiveMigration: bool, shared: bool)

  // ----- Merging the subjects of a shared stream -----

  /** First occurrences, in order: `[...new Set(s)]`. */
  function Dedupe(s: seq<string>): (r: seq<string>)
    ensures forall x :: x in r <==> x in s
  {
    if s == [] then []
    else
      var front := Dedupe(s[..|s|-1]);
      if s[|s|-1] in front then front else front + [s[|s|-1]]
  }

  predicate CoveredBySome(f: string, all: seq<string>) {
    exists other :: other in all && Covers(other, f)
  }

  /** The entries of `s` that no entry of `all` covers, in order. */
  function Uncovered(s: seq<string>, all: seq<string>): (r: seq<string>)
    ensures forall x :: x in r <==> x in s && !CoveredBySome(x, all)
  {
    if s == [] then []
    else if CoveredBySome(s[0], all) then Uncovered(s[1..], all)
    else [s[0]] + Uncovered(s[1..], all)
  }

  function Prune(s: seq<string>): seq<string> {
    Uncovered(s, s)
  }

  function MergeSubjects(own: seq<string>, current: seq<string>): seq<string> {
    Prune(Dedupe(own + current))
  }

  ghost predicate AllWellFormed(s: seq<string>) {
    forall f :: f in s ==> WellFormed(f)
  }

  ghost predicate MatchedBySome(filters: seq<string>, subject: string) {
    exists f :: f in filters && Matches(f, subject)
  }

  /** Above every entry stands one that no entry covers. */
  lemma {:induction false} MaximalAbove(all: seq<string>, f: string) returns (top: string)
    requires AllWellFormed(all) && f in all
    ensures top in all && !CoveredBySome(top, all) && CoversOrEquals(top, f)
    decreases |set g | g in all && Covers(g, f)|
  {
    if !CoveredBySome(f, all) {
      return f;
    }
    var g :| g in all && Covers(g, f);
    var aboveF, aboveG := set h | h in all && Covers(h, f), set h | h in all && Covers(h, g);
    forall h | h in aboveG
      ensures h in aboveF
    {
      CoversIsTransitive(h, g, f);
    }
    assert g in aboveF && g !in aboveG;
    assert aboveG < aboveF;
    SmallerSet(aboveG, aboveF);
    top := MaximalAbove(all, g);
    if top != g {
      CoversIsTransitive(top, g, f);
    }
  }

  lemma SmallerSet(a: set<string>, b: set<string>)
    requires a < b
    ensures |a| < |b|
  {
    assert |b| == |a| + |b - a| by {
      assert b == a + (b - a);
    }
    assert b - a != {};
  }

  /** Pruning keeps the language: the same concrete subjects are matched as before. */
  lemma PruneKeepsLanguage(all: seq<string>, subject: string)
    requires AllWellFormed(all)
    ensures MatchedBySome(Prune(all), subject) <==> MatchedBySome(all, subject)
  {
    if MatchedBySome(all, subject) {
      var f :| f in all && Matches(f, subject);
      var top := MaximalAbove(all, f);
      CoversOrEqualsIffIncludes(top, f);
      assert top in Prune(all) && Matches(top, subject);
    }
  }

  /** What a merge keeps: an antichain. */
  lemma PruneIsAntichain(all: seq<string>)
    ensures forall a, b :: a in Prune(all) && b in Prune(all) ==> !Covers(a, b)
  {
  }

  /** Merging with a list that was pruned, or with all that was ever in it, keeps the same set. */
  lemma MergeOfPruned(own: seq<string>, kept: seq<string>, seen: seq<string>)
    requires AllWellFormed(own) && AllWellFormed(seen)
    requires forall x :: x in kept ==> x in seen
    requires forall x :: x in Prune(seen) ==> x in kept
    ensures forall x :: x in MergeSubjects(own, kept) <==> x in Prune(own + seen)
  {
    var all, merged := own + seen, Dedupe(own + kept);
    forall x | x in Prune(all)
      ensures x in MergeSubjects(own, kept)
    {
      KeptByMerge(own, kept, seen, x);
      assert forall y :: y in merged ==> y in all;
    }
    forall x | x in MergeSubjects(own, kept)
      ensures x in Prune(all)
    {
      if CoveredBySome(x, all) {
        var y :| y in all && Covers(y, x);
        var top := MaximalAbove(all, y);
        if top != y {
          CoversIsTransitive(top, y, x);
        }
        KeptByMerge(own, kept, seen, top);
        assert false;
      }
    }
  }

  lemma KeptByMerge(own: seq<string>, kept: seq<string>, seen: seq<string>, x: string)
    requires forall x :: x in Prune(seen) ==> x in kept
    requires x in Prune(own + seen)
    ensures x in Dedupe(own + kept)
  {
    if x !in own {
      assert !CoveredBySome(x, seen) by {
        assert forall y :: y in seen ==> y in own + seen;
      }
    }
  }

  // Merging again what was merged before changes nothing, not even the order.

  predicate Distinct(s: seq<string>) {
    forall i, j :: 0 <= i < j < |s| ==> s[i] != s[j]
  }

  /** First occurrences in `s` of what is not in `own`, in order. */
  function Additional(own: seq<string>, s: seq<string>): (r: seq<string>)
    ensures forall x :: x in r <==> x in s && x !in own
    ensures Distinct(r)
  {
    if s == [] then []
    else
      var front, x := Additional(own, s[..|s|-1]), s[|s|-1];
      if x in own || x in front then front else front + [x]
  }

  lemma {:induction false} DedupeConcat(own: seq<string>, s: seq<string>)
    ensures Dedupe(own + s) == Dedupe(own) + Additional(own, s)
    decreases |s|
  {
    if s == [] {
      assert own + s == own;
    } else {
      assert (own + s)[..|own + s|-1] == own + s[..|s|-1];
      DedupeConcat(own, s[..|s|-1]);
    }
  }

  lemma AdditionalSnoc(own: seq<string>, s: seq<string>, x: string)
    requires x !in own && x !in s
    ensures Additional(own, s + [x]) == Additional(own, s) + [x]
  {
    assert (s + [x])[..|s + [x]|-1] == s;
  }

  lemma {:induction false} AdditionalOfKept(own: seq<string>, a: seq<string>, r: seq<string>)
    requires forall x :: x in a ==> x in own
    requires forall x :: x in r ==> x !in own
    requires Distinct(r)
    ensures Additional(own, a + r) == r
    decreases |r|
  {
    if r == [] {
      assert a + r == a;
      NothingAdditional(own, a);
    } else {
      var front, x := r[..|r|-1], r[|r|-1];
      assert a + r == a + front + [x];
      AdditionalOfKept(own, a, front);
      AdditionalSnoc(own, a + front, x);
    }
  }

  lemma NothingAdditional(own: seq<string>, a: seq<string>)
    requires forall x :: x in a ==> x in own
    ensures Additional(own, a) == []
  {
  }

  lemma {:induction false} UncoveredConcat(a: seq<string>, b: seq<string>, all: seq<string>)
    ensures Uncovered(a + b, all) == Uncovered(a, all) + Uncovered(b, all)
    decreases |a|
  {
    if a == [] {
      assert a + b == b;
    } else {
      assert (a + b)[1..] == a[1..] + b;
      UncoveredConcat(a[1..], b, all);
    }
  }

  lemma {:induction false} UncoveredAlike(s: seq<string>, all: seq<string>, all': seq<string>)
    requires forall x :: x in s ==> (CoveredBySome(x, all) <==> CoveredBySome(x, all'))
    ensures Uncovered(s, all) == Uncovered(s, all')
    ensures Uncovered(Uncovered(s, all), all') == Uncovered(s, all)
    decreases |s|
  {
    if s != [] {
      UncoveredAlike(s[1..], all, all');
      if !CoveredBySome(s[0], all) {
        assert ([s[0]] + Uncovered(s[1..], all))[1..] == Uncovered(s[1..], all);
      }
    }
  }

  lemma {:induction false} UncoveredDistinct(s: seq<string>, all: seq<string>)
    requires Distinct(s)
    ensures Distinct(Uncovered(s, all))
    decreases |s|
  {
    if s != [] {
      UncoveredDistinct(s[1..], all);
      assert s[0] !in Uncovered(s[1..], all);
    }
  }

  lemma MergeIsIdempotent(own: seq<string>, current: seq<string>)
    requires AllWellFormed(own) && AllWellFormed(current)
    ensures MergeSubjects(own, MergeSubjects(own, current)) == MergeSubjects(own, current)
  {
    var mine, added := Dedupe(own), Additional(own, current);
    var all := Dedupe(own + current);
    DedupeConcat(own, current);
    UncoveredConcat(mine, added, all);
    var a, r := Uncovered(mine, all), Uncovered(added, all);
    assert MergeSubjects(own, current) == a + r;

    UncoveredDistinct(added, all);
    AdditionalOfKept(own, a, r);
    DedupeConcat(own, a + r);
    var all' := mine + r;
    forall x | x in all
      ensures CoveredBySome(x, all) <==> CoveredBySome(x, all')
    {
      if CoveredBySome(x, all) {
        var y :| y in all && Covers(y, x);
        var top := MaximalAbove(all, y);
        if top != y {
          CoversIsTransitive(top, y, x);
        }
        assert top in a + r;
      }
    }
    UncoveredConcat(mine, r, all');
    UncoveredAlike(mine, all, all');
    UncoveredAlike(added, all, all');
  }

  // ----- Deciding what to send -----

  datatype Decision =
    | Unchanged
    | Refused               // throws
    | Send(config: Config)
    | MigrateTo(config: Config)

  function MetadataOf(settings: Settings): Fields {
    if "metadata" in settings && settings["metadata"].Record? then settings["metadata"].fields else []
  }

  /** Keys the transport did not write survive; its own win. */
  function WithMergedMetadata(current: Settings, desired: Settings): Settings {
    var merged := MergeFields(MetadataOf(current), MetadataOf(desired));
    if merged == [] then desired else desired["metadata" := Record(merged)]
  }

  /** The stream was provisioned by another connection of the same service. */
  predicate OwnershipConflict(serviceName: string, current: Settings, desired: Settings) {
    var cur := FieldOf(MetadataOf(current), STREAM_OWNER_METADATA_KEY);
    var des := FieldOf(MetadataOf(desired), STREAM_OWNER_METADATA_KEY);
    cur.Some? && des.Some? && cur != des && serviceName + ":" <= cur.value
  }

  predicate Locks(m: Mutability) {
    m == Immutable || m == TransportControlled
  }

  /** The desired settings with every locked change replaced by the current value. */
  function MutableOnly(desired: Settings, current: Settings): Settings {
    map k | k in desired && (KeepsDesired(current, desired, k) || k in current) ::
      if KeepsDesired(current, desired, k) then desired[k] else current[k]
  }

  predicate KeepsDesired(current: Settings, desired: Settings, k: string)
    requires k in desired
  {
    !Differs(current, desired, k) || !Locks(ClassifyMutability(k, Lookup(current, k), desired[k]))
  }

  /** `filtered` is `settings` with the locked ones of these changes put back. */
  ghost predicate PutBack(filtered: Settings, settings: Settings, current: Settings, changes: seq<Change>) {
    && (forall k :: k in filtered ==> k in settings)
    && forall k :: k in settings ==>
         Lookup(filtered, k) == if LockedBy(changes, k) then Lookup(current, k) else Some(settings[k])
  }

  predicate LockedBy(changes: seq<Change>, k: string) {
    exists c :: c in changes && c.property == k && Locks(c.mutability)
  }

  lemma LockedBySnoc(changes: seq<Change>, c: Change, k: string)
    ensures LockedBy(changes + [c], k) <==> LockedBy(changes, k) || (c.property == k && Locks(c.mutability))
  {
    assert forall d :: d in changes + [c] <==> d in changes || d == c;
  }

  /** An absent value is left out of the update, so that it is not sent as a default. */
  function WithCurrent(filtered: Settings, current: Settings, c: Change): Settings {
    if !Locks(c.mutability) then filtered
    else if c.property in current then filtered[c.property := current[c.property]]
    else filtered - {c.property}
  }

  lemma PutBackStep(filtered: Settings, settings: Settings, current: Settings, changes: seq<Change>, c: Change)
    requires PutBack(filtered, settings, current, changes) && c.property in settings
    ensures PutBack(WithCurrent(filtered, current, c), settings, current, changes + [c])
  {
    forall k | k in settings
      ensures Lookup(WithCurrent(filtered, current, c), k) ==
              if LockedBy(changes + [c], k) then Lookup(current, k) else Some(settings[k])
    {
      LockedBySnoc(changes, c, k);
    }
  }

  lemma PutBackIsMutableOnly(filtered: Settings, settings: Settings, current: Settings, changes: seq<Change>)
    requires PutBack(filtered, settings, current, changes)
    requires forall c :: c in changes ==> Records(c, current, settings)
    requires forall k :: Differs(current, settings, k) ==> exists c :: c in changes && c.property == k
    ensures filtered == MutableOnly(settings, current)
  {
    forall k | k in settings
      ensures Lookup(filtered, k) == Lookup(MutableOnly(settings, current), k)
    {
      assert LockedBy(changes, k) <==> !KeepsDesired(current, settings, k);
    }
  }

  /** A change that no update of the transport makes. */
  predicate PlainlyLocked(current: Settings, desired: Settings, k: string) {
    NeedsNewStream(current, desired, k) || (k == "retention" && PlainlyDiffers(current, desired, k))
  }

  method BuildMutableOnlyConfig(config: Config, current: Settings, changes: seq<Change>) returns (r: Config)
    requires forall c :: c in changes ==> Records(c, current, config.settings)
    requires forall k :: Differs(current, config.settings, k) ==> exists c :: c in changes && c.property == k
    ensures r == Config(config.subjects, MutableOnly(config.settings, current))
    ensures forall k :: Lookup(r.settings, k) ==
              if k !in config.settings then None
              else if PlainlyLocked(current, config.settings, k) then Lookup(current, k)
              else Some(config.settings[k])
  {
    var filtered := config.settings;
    for i := 0 to |changes|
      invariant PutBack(filtered, config.settings, current, changes[..i])
    {
      var c := changes[i];
      assert c in changes && changes[..i+1] == changes[..i] + [c];
      PutBackStep(filtered, config.settings, current, changes[..i], c);
      if Locks(c.mutability) {
        filtered := if c.property in current then filtered[c.property := current[c.property]]
                    else filtered - {c.property};
      }
    }
    assert changes[..|changes|] == changes;
    PutBackIsMutableOnly(filtered, config.settings, current, changes);
    forall k
      ensures k in config.settings ==>
                (PlainlyLocked(current, config.settings, k) <==> !KeepsDesired(current, config.settings, k))
    {
      DifferenceIsPlain(current, config.settings, k);
    }
    r := Config(config.subjects, filtered);
  }

  function Wanted(p: Provisioning, current: Config, desired: Config): Config {
    Config(if p.shared then MergeSubjects(desired.subjects, current.subjects) else desired.subjects,
           WithMergedMetadata(current.settings, desired.settings))
  }

  predicate HasMutableChange(current: Config, wanted: Config) {
    || current.subjects != wanted.subjects
    || HasChange(current.settings, wanted.settings, Mutable)
    || HasChange(current.settings, wanted.settings, EnableOnly)
  }

  function Decide(p: Provisioning, current: Config, desired: Config): Decision {
    var wanted := Wanted(p, current, desired);
    if OwnershipConflict(p.serviceName, current.settings, desired.settings) then Refused
    else if HasChange(current.settings, wanted.settings, TransportControlled) then Refused
    else if !HasChange(current.settings, wanted.settings, Immutable) then
      if HasMutableChange(current, wanted) then Send(wanted) else Unchanged
    else if !p.allowDestructiveMigration then
      if HasMutableChange(current, wanted)
      then Send(Config(wanted.subjects, MutableOnly(wanted.settings, current.settings)))
      else Unchanged
    else if p.shared then Refused
    else MigrateTo(wanted)
  }

  /** The source's order of tests; `keys` lists the properties of the wanted settings. */
  method HandleExistingStream(p: Provisioning, current: Config, desired: Config, keys: seq<string>)
    returns (d: Decision)
    requires forall i, j :: 0 <= i < j < |keys| ==> keys[i] != keys[j]
    requires forall k :: k in keys <==> k in Wanted(p, current, desired).settings
    ensures d == Decide(p, current, desired)
  {
    var config := desired;
    if p.shared {
      config := config.(subjects := MergeSubjects(desired.subjects, current.subjects));
    }
    if OwnershipConflict(p.serviceName, current.settings, config.settings) {
      return Refused;
    }
    config := config.(settings := WithMergedMetadata(current.settings, config.settings));
    var diff := CompareStreamConfig(current.settings, config.settings, keys);
    var subjectsDiffer := current.subjects != config.subjects;
    if !diff.hasChanges && !subjectsDiffer {
      return Unchanged;
    }
    if diff.hasTransportControlledConflicts {
      return Refused;
    }
    if !diff.hasImmutableChanges {
      return Send(config);
    }
    if !p.allowDestructiveMigration {
      if diff.hasMutableChanges || subjectsDiffer {
        var mutableConfig := BuildMutableOnlyConfig(config, current.settings, diff.changes);
        return Send(mutableConfig);
      }
      return Unchanged;
    }
    if p.shared {
      return Refused;
    }
    d := MigrateTo(config);
  }

  // ----- What an update does, and that one is enough -----

  /** The stream's configuration after the server overlaid an update. */
  function Overlaid(current: Config, update: Config): Config {
    Patched(NewStream(current, None, false), Whole(update)).config
  }

  /** The server refuses the update that the boot sends. */
  predicate RefusedByServer(p: Provisioning, current: Config, desired: Config) {
    var d := Decide(p, current, desired);
    d.Send? && Locked(current.settings, d.config.settings)
  }

  function AfterBoot(p: Provisioning, current: Config, desired: Config): Config {
    var d := Decide(p, current, desired);
    if d.Send? && !Locked(current.settings, d.config.settings) then Overlaid(current, d.config) else current
  }

  predicate Sends(p: Provisioning, current: Config, desired: Config) {
    Decide(p, current, desired).Send? && !RefusedByServer(p, current, desired)
  }

  /** An update sent without a migration keeps what is locked and changes what can be changed. */
  lemma UpdateRespectsLocks(p: Provisioning, current: Config, desired: Config, k: string)
    requires Sends(p, current, desired)
    ensures var wanted, after := Wanted(p, current, desired).settings, AfterBoot(p, current, desired).settings;
            && (k in {"retention", "storage"} ==> IsEqual(Lookup(after, k), Lookup(current.settings, k)))
            && (DiffersAs(current.settings, wanted, k, Mutable) || DiffersAs(current.settings, wanted, k, EnableOnly)
                ==> Lookup(after, k) == Some(wanted[k]))
            && (k !in wanted ==> Lookup(after, k) == Lookup(current.settings, k))
  {
    var wanted := Wanted(p, current, desired).settings;
    if k in wanted && Differs(current.settings, wanted, k) {
      assert DiffersAs(current.settings, wanted, k, ClassifyMutability(k, Lookup(current.settings, k), wanted[k]));
    }
  }

  /** Asks to set a flag that is on to neither `true` nor `false`. */
  predicate AsksOff(current: Settings, desired: Settings, k: string) {
    FlagIsOn(current, k) && k in desired && !desired[k].Bool?
  }

  /** The update asks to turn a flag off if and only if the options set it to null or undefined (or
      to anything that is no boolean); `false` never gets that far. Nothing else that is sent is
      locked. */
  lemma TurnOffIsSentIff(p: Provisioning, current: Config, desired: Config, k: string)
    requires Decide(p, current, desired).Send?
    ensures IsLocked(current.settings, Decide(p, current, desired).config.settings, k)
            <==> AsksOff(current.settings, desired.settings, k)
  {
    var wanted := Wanted(p, current, desired).settings;
    DifferenceIsPlain(current.settings, wanted, k);
    if DiffersAs(current.settings, wanted, k, Immutable) {
      assert HasChange(current.settings, wanted, Immutable);
    }
  }

  /** That is also the only reason for the server to refuse an update the boot sends. */
  lemma RefusedByServerIff(p: Provisioning, current: Config, desired: Config)
    requires Decide(p, current, desired).Send?
    ensures RefusedByServer(p, current, desired) <==>
            exists k :: k in desired.settings && AsksOff(current.settings, desired.settings, k)
  {
    var sent := Decide(p, current, desired).config.settings;
    if Locked(current.settings, sent) {
      var k :| k in sent && IsLocked(current.settings, sent, k);
      TurnOffIsSentIff(p, current, desired, k);
      assert k in desired.settings;
    }
    if exists k :: k in desired.settings && AsksOff(current.settings, desired.settings, k) {
      var k :| k in desired.settings && AsksOff(current.settings, desired.settings, k);
      TurnOffIsSentIff(p, current, desired, k);
      assert k in sent;
    }
  }

  /** Whatever the options ask for, a flag that can only be enabled is on after a boot if it was. */
  lemma EnabledFlagStaysOn(p: Provisioning, current: Config, desired: Config, k: string)
    requires FlagIsOn(current.settings, k)
    ensures FlagIsOn(AfterBoot(p, current, desired).settings, k)
  {
    if Sends(p, current, desired) {
      var sent := Decide(p, current, desired).config.settings;
      assert k in sent ==> !IsLocked(current.settings, sent, k);
    }
  }

  lemma ForeignMetadataSurvives(p: Provisioning, current: Config, desired: Config, key: string)
    requires FieldOf(MetadataOf(current.settings), key).Some?
    requires FieldOf(MetadataOf(desired.settings), key).None?
    ensures FieldOf(MetadataOf(AfterBoot(p, current, desired).settings), key)
            == FieldOf(MetadataOf(current.settings), key)
  {
    if Sends(p, current, desired) {
      MetadataAfterBoot(p, current, desired);
      MergedField(MetadataOf(current.settings), MetadataOf(desired.settings), key);
    }
  }

  lemma MetadataAfterBoot(p: Provisioning, current: Config, desired: Config)
    requires Sends(p, current, desired)
    ensures MetadataOf(AfterBoot(p, current, desired).settings)
            == MergeFields(MetadataOf(current.settings), MetadataOf(desired.settings))
  {
    var wanted := Wanted(p, current, desired).settings;
    var merged := MergeFields(MetadataOf(current.settings), MetadataOf(desired.settings));
    if merged != [] {
      assert wanted["metadata"] == Record(merged);
      assert ClassifyMutability("metadata", Lookup(current.settings, "metadata"), wanted["metadata"]) == Mutable;
    } else {
      EmptyMerge(MetadataOf(current.settings), MetadataOf(desired.settings));
    }
  }

  lemma EmptyMerge(current: Fields, desired: Fields)
    requires MergeFields(current, desired) == []
    ensures current == [] && desired == []
  {
    if desired != [] {
      MergedField(current, desired, desired[0].0);
    }
  }

  // ----- What the server gives back -----

  /** The server returns what was sent, the fields of the metadata in any order. */
  ghost predicate Echoed(sent: Config, stored: Config) {
    && sent.subjects == stored.subjects && sent.settings.Keys == stored.settings.Keys
    && (forall k :: k in sent.settings && k != "metadata" ==> sent.settings[k] == stored.settings[k])
    && ("metadata" in sent.settings ==> SameValue(sent.settings["metadata"], stored.settings["metadata"]))
  }

  ghost predicate SameValue(a: Value, b: Value) {
    a == b || (a.Record? && b.Record? && forall k :: FieldOf(a.fields, k) == FieldOf(b.fields, k))
  }

  lemma EchoedMetadata(sent: Config, stored: Config, k: string)
    requires Echoed(sent, stored)
    ensures FieldOf(MetadataOf(stored.settings), k) == FieldOf(MetadataOf(sent.settings), k)
    ensures MetadataOf(stored.settings) == [] <==> MetadataOf(sent.settings) == []
  {
    var a, b := MetadataOf(sent.settings), MetadataOf(stored.settings);
    if a != [] {
      assert FieldOf(a, a[0].0).Some?;
    }
    if b != [] {
      assert FieldOf(b, b[0].0).Some?;
    }
  }

  lemma MetadataIsKept(p: Provisioning, current: Config, desired: Config, stored: Config)
    requires Sends(p, current, desired) && Echoed(AfterBoot(p, current, desired), stored)
    ensures var md := MetadataOf(stored.settings);
            && MergeFields(md, MetadataOf(desired.settings)) == md
            && (md == [] <==> MergeFields(MetadataOf(current.settings), MetadataOf(desired.settings)) == [])
    ensures !OwnershipConflict(p.serviceName, stored.settings, desired.settings)
  {
    MetadataAfterBoot(p, current, desired);
    var cur, des := MetadataOf(current.settings), MetadataOf(desired.settings);
    forall k
      ensures FieldOf(MetadataOf(stored.settings), k) == FieldOf(MergeFields(cur, des), k)
    {
      EchoedMetadata(AfterBoot(p, current, desired), stored, k);
    }
    EchoedMetadata(AfterBoot(p, current, desired), stored, "");
    MergeIsStable(MetadataOf(stored.settings), cur, des);
    MergedField(cur, des, STREAM_OWNER_METADATA_KEY);
  }

  lemma SubjectsAreKept(p: Provisioning, current: Config, desired: Config, stored: Config)
    requires Sends(p, current, desired) && Echoed(AfterBoot(p, current, desired), stored)
    requires p.shared ==> AllWellFormed(desired.subjects) && AllWellFormed(current.subjects)
    ensures Wanted(p, stored, desired).subjects == Wanted(p, current, desired).subjects == stored.subjects
  {
    if p.shared {
      MergeIsIdempotent(desired.subjects, current.subjects);
    }
  }

  /** What a boot wants of the stored configuration: its metadata as it is, the rest as before. */
  lemma WantedIsStable(p: Provisioning, current: Config, desired: Config, stored: Config)
    requires Sends(p, current, desired) && Echoed(AfterBoot(p, current, desired), stored)
    ensures var wanted, again := Wanted(p, current, desired).settings, Wanted(p, stored, desired).settings;
            && again.Keys == wanted.Keys
            && (forall k :: k in wanted && k != "metadata" ==> again[k] == wanted[k])
            && ("metadata" in again ==> !Differs(stored.settings, again, "metadata"))
  {
    MetadataIsKept(p, current, desired, stored);
    MetadataIsSettled(p, current, desired, stored);
  }

  lemma MetadataIsSettled(p: Provisioning, current: Config, desired: Config, stored: Config)
    requires Sends(p, current, desired) && Echoed(AfterBoot(p, current, desired), stored)
    requires MergeFields(MetadataOf(stored.settings), MetadataOf(desired.settings)) == MetadataOf(stored.settings)
    ensures var again := Wanted(p, stored, desired).settings;
            "metadata" in again ==> !Differs(stored.settings, again, "metadata")
  {
    var md := MetadataOf(stored.settings);
    var wanted := Wanted(p, current, desired).settings;
    EchoedMetadata(AfterBoot(p, current, desired), stored, "");
    MetadataAfterBoot(p, current, desired);
    if md == [] && "metadata" in desired.settings {
      EmptyMerge(MetadataOf(current.settings), MetadataOf(desired.settings));
      assert wanted == desired.settings;
      var sent := AfterBoot(p, current, desired).settings;
      assert ClassifyMutability("metadata", Lookup(current.settings, "metadata"), wanted["metadata"]) == Mutable;
      assert "metadata" in sent && !Differs(sent, wanted, "metadata");
      if sent["metadata"].Record? {
        assert sent["metadata"].fields == [] && stored.settings["metadata"].fields == [];
      }
    }
  }

  /** After an accepted update only what is locked still differs from what the boot wants. */
  lemma OnlyLockedDiffers(p: Provisioning, current: Config, desired: Config, k: string)
    requires Sends(p, current, desired)
    ensures var wanted, after := Wanted(p, current, desired).settings, AfterBoot(p, current, desired).settings;
            Differs(after, wanted, k) ==>
              HasChange(current.settings, wanted, Immutable) && DiffersAs(after, wanted, k, Immutable)
  {
    var wanted := Wanted(p, current, desired).settings;
    if k in wanted && Differs(current.settings, wanted, k) {
      assert DiffersAs(current.settings, wanted, k, ClassifyMutability(k, Lookup(current.settings, k), wanted[k]));
    }
  }

  lemma StoredDiffersOnlyLocked(p: Provisioning, current: Config, desired: Config, stored: Config, k: string)
    requires Sends(p, current, desired) && Echoed(AfterBoot(p, current, desired), stored)
    ensures var again := Wanted(p, stored, desired).settings;
            Differs(stored.settings, again, k) ==>
              DiffersAs(stored.settings, again, k, Immutable) && !p.allowDestructiveMigration
  {
    WantedIsStable(p, current, desired, stored);
    OnlyLockedDiffers(p, current, desired, k);
  }

  lemma LockedOnlyIsUnchanged(p: Provisioning, stored: Config, desired: Config)
    requires !OwnershipConflict(p.serviceName, stored.settings, desired.settings)
    requires Wanted(p, stored, desired).subjects == stored.subjects
    requires var again := Wanted(p, stored, desired).settings;
             forall k :: Differs(stored.settings, again, k) ==>
               DiffersAs(stored.settings, again, k, Immutable) && !p.allowDestructiveMigration
    ensures Decide(p, stored, desired) == Unchanged
  {
  }

  /** Once an update was accepted, a boot with the same options sends nothing, in whatever order the
      server returns the metadata. */
  lemma StoredNeedsNothing(p: Provisioning, current: Config, desired: Config, stored: Config)
    requires Sends(p, current, desired) && Echoed(AfterBoot(p, current, desired), stored)
    requires p.shared ==> AllWellFormed(desired.subjects) && AllWellFormed(current.subjects)
    ensures Decide(p, stored, desired) == Unchanged
  {
    SubjectsAreKept(p, current, desired, stored);
    MetadataIsKept(p, current, desired, stored);
    forall k
      ensures var again := Wanted(p, stored, desired).settings;
              Differs(stored.settings, again, k) ==>
                DiffersAs(stored.settings, again, k, Immutable) && !p.allowDestructiveMigration
    {
      StoredDiffersOnlyLocked(p, current, desired, stored, k);
    }
    LockedOnlyIsUnchanged(p, stored, desired);
  }

  lemma EchoedItself(config: Config)
    ensures Echoed(config, config)
  {
  }

  /** A second boot with the same options sends an update if and only if the server refused the
      first one; then it sends the same again. */
  lemma SecondBootSendsNothing(p: Provisioning, current: Config, desired: Config)
    requires !Decide(p, current, desired).MigrateTo?
    requires p.shared ==> AllWellFormed(desired.subjects) && AllWellFormed(current.subjects)
    ensures Decide(p, AfterBoot(p, current, desired), desired) ==
            if Sends(p, current, desired) then Unchanged else Decide(p, current, desired)
    ensures Decide(p, AfterBoot(p, current, desired), desired).Send? <==> RefusedByServer(p, current, desired)
  {
    if Sends(p, current, desired) {
      EchoedItself(AfterBoot(p, current, desired));
      StoredNeedsNothing(p, current, desired, AfterBoot(p, current, desired));
    }
  }

  /** A stream that has every wanted setting, whatever else it has, needs nothing more. */
  lemma ConfiguredNeedsNothing(p: Provisioning, current: Config, desired: Config, after: Stream)
    requires Configured(after, Wanted(p, current, desired))
    requires Wanted(p, after.config, desired).subjects == after.config.subjects
    ensures Decide(p, after.config, desired) == Unchanged
  {
    var wanted, now := Wanted(p, current, desired).settings, after.config.settings;
    var cur, des := MetadataOf(current.settings), MetadataOf(desired.settings);
    if MergeFields(cur, des) != [] {
      assert wanted["metadata"] == Record(MergeFields(cur, des));
      assert MetadataOf(now) == MergeFields(cur, des);
      MergeIsStable(MetadataOf(now), cur, des);
      MergedField(cur, des, STREAM_OWNER_METADATA_KEY);
    } else {
      EmptyMerge(cur, des);
    }
    forall k | k in Wanted(p, after.config, desired).settings
      ensures !Differs(now, Wanted(p, after.config, desired).settings, k)
    {
    }
  }

  lemma CreatedNeedsNothing(p: Provisioning, desired: Config)
    requires p.shared ==> MergeSubjects(desired.subjects, desired.subjects) == desired.subjects
    ensures Decide(p, desired, desired) == Unchanged
  {
    var m := MetadataOf(desired.settings);
    forall f | f in m
      ensures FieldOf(m, f.0) == Some(f.1)
    {
      OwnField(m, f);
    }
    MergeOfKept(m, m);
    ConfiguredNeedsNothing(p, desired, desired, NewStream(desired, None, false));
  }

  // ----- In plain terms -----

  predicate MetadataHas(settings: Settings, f: Field) {
    "metadata" in settings && settings["metadata"].Record? && f in settings["metadata"].fields
  }

  /** Another connection of the same service has put its name on the stream. */
  ghost predicate OwnedElsewhere(serviceName: string, current: Settings, desired: Settings) {
    exists theirs: string, ours: string ::
      && MetadataHas(current, ("nestjs-jetstream-owner", theirs))
      && MetadataHas(desired, ("nestjs-jetstream-owner", ours))
      && theirs != ours && serviceName + ":" <= theirs
  }

  lemma FieldInMetadata(settings: Settings, key: string, value: string)
    ensures MetadataHas(settings, (key, value)) <==> FieldOf(MetadataOf(settings), key) == Some(value)
  {
    var md := MetadataOf(settings);
    if MetadataHas(settings, (key, value)) {
      OwnField(md, (key, value));
    }
    if FieldOf(md, key) == Some(value) {
      FieldIsThere(md, key);
      var f :| f in md && f.0 == key;
      OwnField(md, f);
    }
  }

  lemma ConflictIsPlain(serviceName: string, current: Settings, desired: Settings)
    ensures OwnershipConflict(serviceName, current, desired) <==> OwnedElsewhere(serviceName, current, desired)
  {
    forall v
      ensures MetadataHas(current, ("nestjs-jetstream-owner", v))
              <==> FieldOf(MetadataOf(current), "nestjs-jetstream-owner") == Some(v)
      ensures MetadataHas(desired, ("nestjs-jetstream-owner", v))
              <==> FieldOf(MetadataOf(desired), "nestjs-jetstream-owner") == Some(v)
    {
      FieldInMetadata(current, "nestjs-jetstream-owner", v);
      FieldInMetadata(desired, "nestjs-jetstream-owner", v);
    }
    if OwnershipConflict(serviceName, current, desired) {
      var theirs := FieldOf(MetadataOf(current), "nestjs-jetstream-owner").value;
      var ours := FieldOf(MetadataOf(desired), "nestjs-jetstream-owner").value;
      assert MetadataHas(current, ("nestjs-jetstream-owner", theirs));
      assert MetadataHas(desired, ("nestjs-jetstream-owner", ours));
    }
  }

  /** Merging metadata changes no other key. */
  lemma WantedIsDesired(p: Provisioning, current: Config, desired: Config, k: string)
    requires k != "metadata"
    ensures var wanted := Wanted(p, current, desired).settings;
            && (k in wanted <==> k in desired.settings)
            && (k in wanted ==> wanted[k] == desired.settings[k])
            && (PlainlyDiffers(current.settings, wanted, k) <==> PlainlyDiffers(current.settings, desired.settings, k))
            && (NeedsNewStream(current.settings, wanted, k) <==> NeedsNewStream(current.settings, desired.settings, k))
  {
  }

  lemma AsksTheSame(p: Provisioning, current: Config, desired: Config)
    ensures AsksNewStream(current.settings, Wanted(p, current, desired).settings)
            <==> AsksNewStream(current.settings, desired.settings)
    ensures PlainlyDiffers(current.settings, Wanted(p, current, desired).settings, "retention")
            <==> PlainlyDiffers(current.settings, desired.settings, "retention")
  {
    var wanted := Wanted(p, current, desired).settings;
    WantedIsDesired(p, current, desired, "retention");
    if AsksNewStream(current.settings, wanted) {
      var k :| k in wanted && NeedsNewStream(current.settings, wanted, k);
      WantedIsDesired(p, current, desired, k);
    }
    if AsksNewStream(current.settings, desired.settings) {
      var k :| k in desired.settings && NeedsNewStream(current.settings, desired.settings, k);
      WantedIsDesired(p, current, desired, k);
    }
  }

  /** When a boot refuses, and when it recreates the stream. */
  lemma RefusesAndMigratesIff(p: Provisioning, current: Config, desired: Config)
    ensures var conflict := OwnedElsewhere(p.serviceName, current.settings, desired.settings)
                            || PlainlyDiffers(current.settings, desired.settings, "retention");
            var recreate := p.allowDestructiveMigration && AsksNewStream(current.settings, desired.settings);
            && (Decide(p, current, desired).Refused? <==> conflict || (recreate && p.shared))
            && (Decide(p, current, desired).MigrateTo? <==> !conflict && recreate && !p.shared)
  {
    ConflictIsPlain(p.serviceName, current.settings, desired.settings);
    AsksTheSame(p, current, desired);
    KindsArePlain(current.settings, Wanted(p, current, desired).settings);
  }

  /** A boot has no say over these: another storage without a migration, a flag off that is on. */
  predicate CannotChange(current: Settings, desired: Settings, k: string) {
    k == "storage" || (FlagIsOn(current, k) && k in desired && desired[k] == Bool(false))
  }

  /** The setting is as desired; missing and null are one. */
  predicate Agrees(settings: Settings, desired: Settings, k: string) {
    k in desired ==> if k in settings then settings[k] == desired[k] else desired[k] == Null
  }

  /** Whatever a boot that goes through can change is then as desired. */
  lemma BootAppliesDesired(p: Provisioning, current: Config, desired: Config, k: string)
    requires var d := Decide(p, current, desired); !d.Refused? && !d.MigrateTo? && !RefusedByServer(p, current, desired)
    requires k != "metadata" && !CannotChange(current.settings, desired.settings, k)
    ensures Agrees(AfterBoot(p, current, desired).settings, desired.settings, k)
    ensures !p.shared ==> AfterBoot(p, current, desired).subjects == desired.subjects
  {
    var wanted := Wanted(p, current, desired).settings;
    RefusesAndMigratesIff(p, current, desired);
    WantedIsDesired(p, current, desired, k);
    DifferenceIsPlain(current.settings, wanted, k);
    if Decide(p, current, desired) == Unchanged {
      KindsArePlain(current.settings, wanted);
      assert k in wanted ==> !Updatable(current.settings, wanted, k);
    }
  }

  /** The metadata the transport writes is there after a boot that goes through. */
  lemma OwnMetadataApplied(p: Provisioning, current: Config, desired: Config, f: Field)
    requires var d := Decide(p, current, desired); !d.Refused? && !d.MigrateTo? && !RefusedByServer(p, current, desired)
    requires MetadataHas(desired.settings, f)
    ensures MetadataHas(AfterBoot(p, current, desired).settings, f)
  {
    var cur, des := MetadataOf(current.settings), MetadataOf(desired.settings);
    FieldInMetadata(desired.settings, f.0, f.1);
    MergedField(cur, des, f.0);
    if Sends(p, current, desired) {
      MetadataAfterBoot(p, current, desired);
      FieldInMetadata(AfterBoot(p, current, desired).settings, f.0, f.1);
    } else {
      var wanted := Wanted(p, current, desired).settings;
      assert MergeFields(cur, des) != [];
      DifferenceIsPlain(current.settings, wanted, "metadata");
      KindsArePlain(current.settings, wanted);
      assert "metadata" in wanted && !Updatable(current.settings, wanted, "metadata");
      FieldInMetadata(current.settings, f.0, f.1);
    }
  }

  /** Nothing is sent only where everything that could be changed is as desired already. */
  lemma UnchangedMeansAgreement(p: Provisioning, current: Config, desired: Config, k: string)
    requires Decide(p, current, desired) == Unchanged
    requires k != "metadata" && !CannotChange(current.settings, desired.settings, k)
    ensures Agrees(current.settings, desired.settings, k)
    ensures !p.shared ==> current.subjects == desired.subjects
  {
    BootAppliesDesired(p, current, desired, k);
  }

  /** A migration is to exactly what is desired, metadata apart. */
  lemma MigratesToDesired(p: Provisioning, current: Config, desired: Config, k: string)
    requires Decide(p, current, desired).MigrateTo? && k != "metadata"
    ensures var c := Decide(p, current, desired).config;
            && c.subjects == desired.subjects && (k in c.settings <==> k in desired.settings)
            && (k in c.settings ==> c.settings[k] == desired.settings[k])
  {
    RefusesAndMigratesIff(p, current, desired);
    WantedIsDesired(p, current, desired, k);
  }

  // ----- One boot -----

  /** What a service is configured with when it boots. */
  datatype Boot = Boot(provisioning: Provisioning, desired: Config)

  /** `Object.keys`, in some order. */
  method ObjectKeys(settings: Settings) returns (keys: seq<string>)
    ensures forall i, j :: 0 <= i < j < |keys| ==> keys[i] != keys[j]
    ensures forall k :: k in keys <==> k in settings
  {
    keys := [];
    var left := settings.Keys;
    while left != {}
      invariant left <= settings.Keys
      invariant forall k :: k in keys <==> k in settings && k !in left
      invariant forall i, j :: 0 <= i < j < |keys| ==> keys[i] != keys[j]
      decreases left
    {
      var k :| k in left;
      left := left - {k};
      keys := keys + [k];
    }
  }

  /** The stream stands alone, and the boot will not recreate it. */
  predicate Plain(w: World, boot: Boot) {
    && w.backup.None? && w.main.Some?
    && !Decide(boot.provisioning, w.main.value.config, boot.desired).MigrateTo?
  }

  /** The subjects of a shared stream and of the boot are such that pruning is settled. */
  ghost predicate Convergent(w: World, boot: Boot) {
    boot.provisioning.shared ==>
      && w.backup.None?
      && if w.main.Some?
         then AllWellFormed(boot.desired.subjects) && AllWellFormed(w.main.value.config.subjects)
         else MergeSubjects(boot.desired.subjects, boot.desired.subjects) == boot.desired.subjects
  }

  predicate NeedsNothing(w: World, boot: Boot) {
    w.main.Some? && Decide(boot.provisioning, w.main.value.config, boot.desired) == Unchanged
  }

  /** The boot takes an existing stream for one to recreate. */
  predicate Migrates(w: World, boot: Boot) {
    w.main.Some? && Decide(boot.provisioning, w.main.value.config, boot.desired).MigrateTo?
  }

  /** How an undisturbed boot ends: it creates a stream that is not there, and otherwise fails only
      if it has to refuse, the server refuses, or a migration runs out of time. */
  predicate Concluded(w: World, boot: Boot, r: Outcome<()>, w': World) {
    if w.main.None? then r.Returned? && w'.main == Some(NewStream(boot.desired, None, false))
    else
      var current := w.main.value.config;
      match Decide(boot.provisioning, current, boot.desired)
      case Refused => r == Threw(Rejected)
      case MigrateTo(_) => r.Returned? || r == Threw(TimedOut)
      case _ => r == if RefusedByServer(boot.provisioning, current, boot.desired) then Threw(Rejected) else Returned(())
  }

  /** The backup is as it was but for what the environment copies, and the stream gets nothing of it
      that it did not get before. */
  predicate LeftAlone(w: World, w': World) {
    && w.backup.Some? && w'.backup.Some?
    && w.backup.value.config == w'.backup.value.config && w.backup.value.startedAt == w'.backup.value.startedAt
    && w.backup.value.feed.Some? == w'.backup.value.feed.Some?
    && w.backup.value.msgs <= w'.backup.value.msgs
    && (w.main.Some? ==>
          && w'.main.Some? && w.main.value.feed.Some? == w'.main.value.feed.Some?
          && w.main.value.msgs <= w'.main.value.msgs)
  }

  /**
   A boot that returns leaves a stream that the same boot would find unchanged. Without a migration
   every outcome, the death of the process included, leaves the configuration as it was or as
   `AfterBoot` says, and a boot that returns leaves the latter.
   */
  method EnsureStream(jsm: JetStreamManager, migration: StreamMigration, boot: Boot) returns (r: Outcome<()>)
    requires Inv(jsm.w) && jsm.alive
    modifies jsm
    ensures r.Died? <==> !jsm.alive
    ensures Inv(jsm.w) && Later(old(jsm.w), jsm.w)
    ensures r.Returned? ==> jsm.w.main.Some?
    ensures r.Returned? && Convergent(old(jsm.w), boot) ==> NeedsNothing(jsm.w, boot)
    ensures Plain(old(jsm.w), boot) ==> BootedFrom(old(jsm.w), boot, r.Returned?, jsm.w)
    // A stale backup does not outlive a boot that returns without a migration of its own.
    ensures r.Returned? && (Stale(old(jsm.w)) || old(jsm.w).backup.None?) && !Migrates(old(jsm.w), boot) ==>
              jsm.w.backup.None?
    // The backup of a live migration is left alone (one that would recreate the stream waits for it).
    ensures FreshBackup(old(jsm.w), jsm.w.now) && !Migrates(old(jsm.w), boot) ==> LeftAlone(old(jsm.w), jsm.w)
    ensures jsm.reliable && old(jsm.w).backup.None? ==> Concluded(old(jsm.w), boot, r, jsm.w)
  {
    // What an earlier process left comes first.
    var recovered;
    ghost var at;
    recovered, at := migration.RecoverInterrupted(jsm, boot.desired);
    match recovered {
      case Died => return Died;
      case Threw(t) => return Threw(t);
      case Returned(_) =>
    }
    r := Provision(jsm, migration, boot);
  }

  /** Create the stream, or bring what is there up to date. */
  method Provision(jsm: JetStreamManager, migration: StreamMigration, boot: Boot) returns (r: Outcome<()>)
    requires Inv(jsm.w) && jsm.alive
    modifies jsm
    ensures r.Died? <==> !jsm.alive
    ensures Inv(jsm.w) && Later(old(jsm.w), jsm.w)
    ensures r.Returned? ==> jsm.w.main.Some?
    ensures r.Returned? && Convergent(old(jsm.w), boot) ==> NeedsNothing(jsm.w, boot)
    ensures Plain(old(jsm.w), boot) ==> BootedFrom(old(jsm.w), boot, r.Returned?, jsm.w)
    ensures old(jsm.w).backup.Some? && !Migrates(old(jsm.w), boot) ==> LeftAlone(old(jsm.w), jsm.w)
    ensures old(jsm.w).backup.None? && !Migrates(old(jsm.w), boot) ==> jsm.w.backup.None?
    ensures jsm.reliable && old(jsm.w).backup.None? ==> Concluded(old(jsm.w), boot, r, jsm.w)
  {
    var info := migration.Inspect(jsm, Main);
    match info {
      case Dead => return Died;
      case Failed => return Threw(Rejected);
      case NotFound =>
        if !boot.provisioning.shared || Convergent(old(jsm.w), boot) {
          CreatedNeedsNothing(boot.provisioning, boot.desired);
        }
        r := CreateStream(jsm, migration, boot.desired);
        return;
      case Done(_) =>
    }
    r := ReconcileStream(jsm, migration, boot, info.value.config);
  }

  /** From `w` the boot left the configuration alone, or applied the update; a return means that
      nothing refused it. */
  predicate BootedFrom(w: World, boot: Boot, returned: bool, w': World)
    requires w.main.Some?
  {
    var p, before := boot.provisioning, w.main.value.config;
    && w'.backup.None? && w'.main.Some?
    && w'.main.value.config in {before, AfterBoot(p, before, boot.desired)}
    && (returned ==>
          && !Decide(p, before, boot.desired).Refused? && !RefusedByServer(p, before, boot.desired)
          && w'.main.value.config == AfterBoot(p, before, boot.desired))
  }

  method CreateStream(jsm: JetStreamManager, migration: StreamMigration, config: Config) returns (r: Outcome<()>)
    requires Inv(jsm.w) && jsm.alive
    modifies jsm
    ensures r.Died? <==> !jsm.alive
    ensures Inv(jsm.w) && Later(old(jsm.w), jsm.w)
    ensures r.Returned? ==> jsm.w.main == Some(NewStream(config, None, false))
    ensures old(jsm.w).backup.Some? ==> LeftAlone(old(jsm.w), jsm.w)
    ensures old(jsm.calls) <= jsm.calls && Creates(jsm.calls, r.Returned?)
    ensures r !in {Threw(TimedOut), Threw(StreamNotFound)} && (old(jsm.w).backup.None? ==> jsm.w.backup.None?)
    ensures jsm.reliable && old(jsm.w).main.None? ==> r.Returned?
  {
    migration.Await(jsm);
    if jsm.w.main.None? {
      AddMainKeeps(jsm.w, config, None);
    }
    var added := jsm.Add(Main, config, None, false);
    r := Unit(added);
  }

  /** Decide what an existing stream needs, and send it. */
  method ReconcileStream(jsm: JetStreamManager, migration: StreamMigration, boot: Boot, current: Config)
    returns (r: Outcome<()>)
    requires Inv(jsm.w) && jsm.alive && jsm.w.main.Some? && jsm.w.main.value.config == current
    modifies jsm
    ensures r.Died? <==> !jsm.alive
    ensures Inv(jsm.w) && Later(old(jsm.w), jsm.w)
    ensures r.Returned? ==> jsm.w.main.Some?
    ensures r.Returned? && Convergent(old(jsm.w), boot) ==> NeedsNothing(jsm.w, boot)
    ensures Plain(old(jsm.w), boot) ==> BootedFrom(old(jsm.w), boot, r.Returned?, jsm.w)
    ensures old(jsm.w).backup.Some? && !Migrates(old(jsm.w), boot) ==> LeftAlone(old(jsm.w), jsm.w)
    ensures old(jsm.w).backup.None? && !Migrates(old(jsm.w), boot) ==> jsm.w.backup.None?
    ensures jsm.reliable && old(jsm.w).backup.None? ==> Concluded(old(jsm.w), boot, r, jsm.w)
  {
    var keys := ObjectKeys(Wanted(boot.provisioning, current, boot.desired).settings);
    var decision := HandleExistingStream(boot.provisioning, current, boot.desired, keys);
    match decision {
      case Unchanged => r := Returned(());
      case Refused => r := Threw(Rejected);
      case Send(config) => r := SendUpdate(jsm, migration, boot, current, config);
      case MigrateTo(config) =>
        ghost var migrated;
        r, migrated := MigrateOrCreate(jsm, migration, boot, current, config);
    }
  }

  method SendUpdate(jsm: JetStreamManager, migration: StreamMigration, boot: Boot, current: Config, config: Config)
    returns (r: Outcome<()>)
    requires Inv(jsm.w) && jsm.alive && jsm.w.main.Some? && jsm.w.main.value.config == current
    requires Decide(boot.provisioning, current, boot.desired) == Send(config)
    modifies jsm
    ensures r.Died? <==> !jsm.alive
    ensures Inv(jsm.w) && Later(old(jsm.w), jsm.w) && jsm.w.main.Some?
    ensures r.Returned? && Convergent(old(jsm.w), boot) ==> NeedsNothing(jsm.w, boot)
    ensures Plain(old(jsm.w), boot) ==> BootedFrom(old(jsm.w), boot, r.Returned?, jsm.w)
    ensures old(jsm.w).backup.Some? ==> LeftAlone(old(jsm.w), jsm.w)
    ensures jsm.reliable ==> Concluded(old(jsm.w), boot, r, jsm.w)
    ensures r !in {Threw(TimedOut), Threw(StreamNotFound)} && (old(jsm.w).backup.None? ==> jsm.w.backup.None?)
  {
    migration.Await(jsm);
    ReconfigureKeeps(jsm.w, Whole(config));
    var updated := jsm.Update(Main, Whole(config));
    r := Unit(updated);
    if r.Returned? && Convergent(old(jsm.w), boot) {
      SecondBootSendsNothing(boot.provisioning, current, boot.desired);
    }
  }

  /** A not-found error that escapes the migration leads to the creation of the stream; `migrated`:
      how the migration ended. */
  method MigrateOrCreate(jsm: JetStreamManager, migration: StreamMigration, boot: Boot, current: Config, config: Config)
    returns (r: Outcome<()>, ghost migrated: Outcome<()>)
    requires Inv(jsm.w) && jsm.alive
    requires Decide(boot.provisioning, current, boot.desired) == MigrateTo(config)
    modifies jsm
    ensures r.Died? <==> !jsm.alive
    ensures Inv(jsm.w) && Later(old(jsm.w), jsm.w) && old(jsm.calls) <= jsm.calls
    ensures r.Returned? ==> jsm.w.main.Some? && NeedsNothing(jsm.w, boot)
    ensures migrated.Died? || (migrated.Threw? && !migrated.error.StreamNotFound?) ==> r == migrated
    ensures migrated == Threw(StreamNotFound) ==> Creates(jsm.calls, r.Returned?)
    ensures migrated.Returned? ==> jsm.calls != [] && jsm.calls[|jsm.calls|-1] == Call(Asks(Main), r.Returned?)
    ensures r == Threw(TimedOut) && old(jsm.w).backup.None? ==>
              jsm.w.now >= old(jsm.w).now + migration.sourcingTimeoutMs
    ensures jsm.reliable && old(jsm.w).backup.None? && old(jsm.w).main.Some? ==>
              r.Returned? || r == Threw(TimedOut)
  {
    ghost var found, begun;
    r, found, begun := migration.Migrate(jsm, config);
    migrated := r;
    r := AfterMigration(jsm, migration, config, r);
    if r.Returned? {
      ConfiguredNeedsNothing(boot.provisioning, current, boot.desired, jsm.w.main.value);
    }
  }

  /** The boot goes on from how the migration ended. */
  method AfterMigration(jsm: JetStreamManager, migration: StreamMigration, config: Config, migrated: Outcome<()>)
    returns (r: Outcome<()>)
    requires Inv(jsm.w) && (migrated.Died? <==> !jsm.alive) && (migrated.Returned? ==> jsm.w.main.Some?)
    modifies jsm
    ensures r.Died? <==> !jsm.alive
    ensures Inv(jsm.w) && Later(old(jsm.w), jsm.w) && old(jsm.calls) <= jsm.calls
    ensures migrated.Died? || (migrated.Threw? && !migrated.error.StreamNotFound?) ==> r == migrated
    ensures r == Threw(TimedOut) ==> migrated == r
    ensures migrated == Threw(StreamNotFound) ==>
              && Creates(jsm.calls, r.Returned?)
              && (r.Returned? ==> jsm.w.main == Some(NewStream(config, None, false)))
    ensures migrated.Returned? ==>
              && jsm.calls == old(jsm.calls) + [Call(Asks(Main), r.Returned?)]
              && jsm.w.main.Some? && jsm.w.main.value.config == old(jsm.w).main.value.config
              && (jsm.reliable ==> r.Returned?)
    ensures old(jsm.w).backup.None? ==> jsm.w.backup.None?
  {
    r := migrated;
    if r == Threw(StreamNotFound) {
      r := CreateStream(jsm, migration, config);
    } else if r.Returned? {
      r := Reread(jsm, migration);
    }
  }

  /** The boot ends with what the server says of the stream. */
  method Reread(jsm: JetStreamManager, migration: StreamMigration) returns (r: Outcome<()>)
    requires Inv(jsm.w) && jsm.alive && jsm.w.main.Some?
    modifies jsm
    ensures r.Died? <==> !jsm.alive
    ensures Inv(jsm.w) && Later(old(jsm.w), jsm.w) && old(jsm.calls) <= jsm.calls
    ensures jsm.w.main.Some? && jsm.w.main.value.config == old(jsm.w).main.value.config
    ensures r !in {Threw(TimedOut), Threw(StreamNotFound)} && (old(jsm.w).backup.None? ==> jsm.w.backup.None?)
    ensures jsm.calls == old(jsm.calls) + [Call(Asks(Main), r.Returned?)]
    ensures jsm.reliable ==> r.Returned?
  {
    var info := migration.Inspect(jsm, Main);
    r := if info.Done? then Returned(()) else if info.Dead? then Died else Threw(Rejected);
  }

  /** The last call adds the stream. */
  predicate Creates(calls: seq<Call>, done: bool) {
    calls != [] && calls[|calls|-1] == Call(Adds(Main), done)
  }
}
