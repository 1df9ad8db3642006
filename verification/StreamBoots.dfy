/**
 Any number of boots of any services (src/server/infrastructure/stream.provider.ts): what the shared
 stream keeps of their subjects, and what no crash loses.
 */
module StreamBoots {
  import opened Options
  import opened StreamConfigDiff
  import opened StreamServer
  import opened MigrationSafety
  import opened StreamMigration
  import opened StreamProvider

  // ----- One boot on a shared stream -----

  /** Neither the boot nor the server refuses. */
  predicate Accepted(b: Boot, current: Config) {
    && !Decide(b.provisioning, current, b.desired).Refused?
    && !RefusedByServer(b.provisioning, current, b.desired)
  }

  /** A boot that goes through merges its subjects; one that is refused changes nothing. */
  lemma BootMerges(b: Boot, current: Config)
    requires b.provisioning.shared
    ensures var after := AfterBoot(b.provisioning, current, b.desired);
            if Accepted(b, current) then after.subjects == MergeSubjects(b.desired.subjects, current.subjects)
            else after == current
  {
  }

  lemma DedupeMatches(s: seq<string>, subject: string)
    ensures MatchedBySome(Dedupe(s), subject) <==> MatchedBySome(s, subject)
  {
  }

  /** Afterwards the stream takes what it took before and, of a boot that went through, what that
      asked for, and nothing else. */
  lemma BootKeepsCoverage(b: Boot, current: Config, subject: string)
    requires b.provisioning.shared && AllWellFormed(b.desired.subjects) && AllWellFormed(current.subjects)
    ensures MatchedBySome(AfterBoot(b.provisioning, current, b.desired).subjects, subject) <==>
            || MatchedBySome(current.subjects, subject)
            || (Accepted(b, current) && MatchedBySome(b.desired.subjects, subject))
  {
    BootMerges(b, current);
    if Accepted(b, current) {
      var all := b.desired.subjects + current.subjects;
      PruneKeepsLanguage(Dedupe(all), subject);
      DedupeMatches(all, subject);
      assert MatchedBySome(all, subject) <==>
             MatchedBySome(current.subjects, subject) || MatchedBySome(b.desired.subjects, subject) by {
        assert forall f :: f in all <==> f in b.desired.subjects || f in current.subjects;
      }
    }
  }

  // ----- Any number of boots -----

  predicate AllShared(boots: seq<Boot>) {
    forall b :: b in boots ==> b.provisioning.shared
  }

  ghost predicate AllBootsWellFormed(boots: seq<Boot>) {
    forall b :: b in boots ==> AllWellFormed(b.desired.subjects)
  }

  /** The configuration after boots of these services, one after another. */
  function AfterBoots(current: Config, boots: seq<Boot>): Config {
    if boots == [] then current
    else
      var last := boots[|boots|-1];
      AfterBoot(last.provisioning, AfterBoots(current, boots[..|boots|-1]), last.desired)
  }

  /** Every subject the stream had or a boot that went through asked for. */
  function Seen(current: Config, boots: seq<Boot>): seq<string> {
    if boots == [] then current.subjects
    else
      var front, last := boots[..|boots|-1], boots[|boots|-1];
      if Accepted(last, AfterBoots(current, front)) then last.desired.subjects + Seen(current, front)
      else Seen(current, front)
  }

  predicate SomeAccepted(current: Config, boots: seq<Boot>) {
    boots != [] &&
    (|| Accepted(boots[|boots|-1], AfterBoots(current, boots[..|boots|-1]))
     || SomeAccepted(current, boots[..|boots|-1]))
  }

  /** What is kept is the maximal ones of all subjects seen; as long as every boot is refused, it is
      what the stream had. */
  lemma {:induction false} BootsKeepTheMaximal(current: Config, boots: seq<Boot>)
    requires AllShared(boots) && AllBootsWellFormed(boots) && AllWellFormed(current.subjects)
    ensures AllWellFormed(Seen(current, boots)) && AllWellFormed(AfterBoots(current, boots).subjects)
    ensures if SomeAccepted(current, boots)
            then forall x :: x in AfterBoots(current, boots).subjects <==> x in Prune(Seen(current, boots))
            else AfterBoots(current, boots).subjects == Seen(current, boots) == current.subjects
    decreases |boots|
  {
    if boots != [] {
      var front, last := boots[..|boots|-1], boots[|boots|-1];
      assert last in boots;
      BootsKeepTheMaximal(current, front);
      var before := AfterBoots(current, front);
      BootMerges(last, before);
      if Accepted(last, before) {
        MergeOfPruned(last.desired.subjects, before.subjects, Seen(current, front));
      }
    }
  }

  /** No boot takes away what the stream took before it. */
  lemma {:induction false} BootsKeepCoverage(current: Config, boots: seq<Boot>, subject: string)
    requires AllShared(boots) && AllBootsWellFormed(boots) && AllWellFormed(current.subjects)
    requires MatchedBySome(current.subjects, subject)
    ensures MatchedBySome(AfterBoots(current, boots).subjects, subject)
    decreases |boots|
  {
    if boots != [] {
      var front, last := boots[..|boots|-1], boots[|boots|-1];
      assert last in boots;
      BootsKeepTheMaximal(current, front);
      BootsKeepCoverage(current, front, subject);
      BootKeepsCoverage(last, AfterBoots(current, front), subject);
    }
  }

  /** One filter of one's own, as the shared stream's options give, needs no pruning. */
  lemma SingleFilterIsPruned(f: string)
    ensures MergeSubjects([f], [f]) == [f]
  {
    var one, two := [f], [f] + [f];
    assert one[..|one|-1] == [] && Dedupe([]) == [] && [] + [f] == one;
    assert Dedupe(one) == one;
    assert two[..|two|-1] == one && Dedupe(two) == one;
    assert one[1..] == [] && !CoveredBySome(f, one) && [f] + Uncovered([], one) == one;
  }

  // ----- With crashes -----

  /** What a run of boots on a shared stream leaves: nothing it took is taken away. */
  ghost predicate CoverageKept(w: World, w': World) {
    && w.main.Some? && w'.main.Some? && w'.backup.None?
    && AllWellFormed(w'.main.value.config.subjects)
    && forall subject ::
         MatchedBySome(w.main.value.config.subjects, subject) ==> MatchedBySome(w'.main.value.config.subjects, subject)
  }

  /**
   Any number of boots, each with its own options and each ending in a return, a throw or the death
   of the process: in every world they leave, nothing acknowledged is lost. Where the stream stands
   without a backup, what was in the backup when the original was last deleted is in it exactly
   once, until the next backup is made; that is all the original held unless it still sourced the
   backup's name. And boots of services that share the stream take no subject away.
   */
  method Operate(jsm: JetStreamManager, migration: StreamMigration, boots: seq<Boot>)
    requires Inv(jsm.w)
    modifies jsm
    ensures Inv(jsm.w) && NothingLost(jsm.w)
    ensures old(jsm.w).acked <= jsm.w.acked
    ensures jsm.w.backup.None? && jsm.w.main.Some? ==> Once(jsm.w.saved, jsm.w.main.value.msgs)
    ensures !jsm.w.tangled ==> jsm.w.saved == jsm.w.original
    ensures SharedStart(old(jsm.w), boots) ==> CoverageKept(old(jsm.w), jsm.w)
  {
    for i := 0 to |boots|
      invariant Inv(jsm.w) && Later(old(jsm.w), jsm.w)
      invariant SharedStart(old(jsm.w), boots) ==> CoverageKept(old(jsm.w), jsm.w)
    {
      ghost var before := jsm.w;
      Restart(jsm, migration, boots[i]);
      if SharedStart(old(jsm.w), boots) {
        assert boots[i] in boots;
        CoverageTransitive(old(jsm.w), before, jsm.w);
      }
    }
    InvMeansNothingLost(jsm.w);
  }

  /** A new process boots. */
  method Restart(jsm: JetStreamManager, migration: StreamMigration, boot: Boot)
    requires Inv(jsm.w)
    modifies jsm
    ensures Inv(jsm.w) && Later(old(jsm.w), jsm.w)
    ensures SharedStart(old(jsm.w), [boot]) ==> CoverageKept(old(jsm.w), jsm.w)
  {
    ghost var before := jsm.w;
    jsm.alive := true;
    var outcome := EnsureStream(jsm, migration, boot);
    if SharedStart(before, [boot]) {
      assert [boot][0] == boot;
      BootCovers(before, boot, jsm.w, outcome.Returned?);
    }
  }

  lemma CoverageTransitive(a: World, b: World, c: World)
    requires CoverageKept(a, b) && CoverageKept(b, c)
    ensures CoverageKept(a, c)
  {
  }

  ghost predicate SharedStart(w: World, boots: seq<Boot>) {
    && w.backup.None? && w.main.Some? && AllWellFormed(w.main.value.config.subjects)
    && AllShared(boots) && AllBootsWellFormed(boots)
  }

  lemma BootCovers(w: World, b: Boot, w': World, returned: bool)
    requires w.backup.None? && w.main.Some? && AllWellFormed(w.main.value.config.subjects)
    requires b.provisioning.shared && AllWellFormed(b.desired.subjects)
    requires BootedFrom(w, b, returned, w')
    ensures CoverageKept(w, w')
  {
    var config := w.main.value.config;
    BootMerges(b, config);
    forall subject | MatchedBySome(config.subjects, subject)
      ensures MatchedBySome(w'.main.value.config.subjects, subject)
    {
      BootKeepsCoverage(b, config, subject);
    }
  }
}
