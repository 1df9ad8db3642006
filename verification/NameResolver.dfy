/**
 Subject names (src/server/infrastructure/name-resolver.ts, src/jetstream.constants.ts): prefixes
 per stream kind, and the `_sch` namespace that keeps schedule holders away from consumers.
 */
module NameResolver {
  import opened Options
  import opened SubjectUtils

  datatype Kind = Event | Command | Broadcast | Ordered

  function Tag(kind: Kind): string {
    match kind
    case Event => "ev"
    case Command => "cmd"
    case Broadcast => "broadcast"
    case Ordered => "ordered"
  }

  const BROADCAST_SUBJECT_PREFIX := "broadcast."
  const SCHEDULE_SEGMENT := "_sch."

  function InternalName(name: string): string {
    name + "__microservice"
  }

  function SubjectPrefix(name: string, kind: Kind): string {
    InternalName(name) + "." + Tag(kind) + "."
  }

  function ConventionPrefix(name: string, kind: Kind): string {
    if kind == Broadcast then BROADCAST_SUBJECT_PREFIX else SubjectPrefix(name, kind)
  }

  function ConventionSchedulePrefix(name: string, kind: Kind): string {
    if kind == Broadcast then BROADCAST_SUBJECT_PREFIX + SCHEDULE_SEGMENT
    else InternalName(name) + "." + SCHEDULE_SEGMENT
  }

  /** `s.indexOf('.')` */
  function FirstDot(s: string): Option<nat> {
    if s == "" then None
    else if s[0] == '.' then Some(0)
    else
      var rest := FirstDot(s[1..]);
      if rest.Some? then Some(rest.value + 1) else None
  }

  /** The mapping used for foreign targets; None where it throws. */
  function ConventionScheduleSubjectBase(targetName: string, eventSubject: string): Option<string> {
    if BROADCAST_SUBJECT_PREFIX <= eventSubject then
      Some(BROADCAST_SUBJECT_PREFIX + SCHEDULE_SEGMENT + eventSubject[|BROADCAST_SUBJECT_PREFIX|..])
    else
      var targetPrefix := InternalName(targetName) + ".";
      if !(targetPrefix <= eventSubject) then None
      else
        var withoutPrefix := eventSubject[|targetPrefix|..];
        var dot := FirstDot(withoutPrefix);
        if dot.None? || dot.value >= |withoutPrefix| then None
        else Some(targetPrefix + SCHEDULE_SEGMENT + withoutPrefix[dot.value + 1..])
  }

  // ----- Prefixes -----

  function Trimmed(raw: string): string {
    if raw != "" && raw[|raw|-1] == '.' then Trimmed(raw[..|raw|-1]) else raw
  }

  /** Non-empty dot-separated tokens, none of them `>`. */
  predicate ValidPrefix(trimmed: string) {
    trimmed != "" && forall t :: t in Split(trimmed) ==> t != "" && t != ">"
  }

  function Normalized(raw: string): Option<string> {
    if ValidPrefix(Trimmed(raw)) then Some(Trimmed(raw) + ".") else None
  }

  /** The trailing dots go, and nothing else. */
  lemma {:induction false} TrimmedIsPrefix(raw: string)
    ensures Trimmed(raw) <= raw && forall i :: |Trimmed(raw)| <= i < |raw| ==> raw[i] == '.'
  {
    if raw != "" && raw[|raw|-1] == '.' {
      TrimmedIsPrefix(raw[..|raw|-1]);
      assert raw == raw[..|raw|-1] + ".";
    }
  }

  method NormalizePrefix(raw: string) returns (r: Option<string>)
    ensures r == Normalized(raw)
  {
    var end := |raw|;
    assert raw[..end] == raw;
    while end > 0 && raw[end - 1] == '.'
      invariant 0 <= end <= |raw|
      invariant Trimmed(raw) == Trimmed(raw[..end])
    {
      assert raw[..end][..end-1] == raw[..end-1];
      end := end - 1;
    }
    var trimmed := raw[..end];
    assert Trimmed(trimmed) == trimmed;
    var tokens := Split(trimmed);
    if trimmed == "" || exists t :: t in tokens && (t == "" || t == ">") {
      return None;
    }
    r := Some(trimmed + ".");
  }

  lemma {:induction false} SplitAtDot(a: string, b: string)
    ensures Split(a + "." + b) == Split(a) + Split(b)
  {
    var s := a + "." + b;
    if a == "" {
      assert s[1..] == b;
    } else {
      assert s[1..] == a[1..] + "." + b;
      SplitAtDot(a[1..], b);
    }
  }

  /** The prefixes accepted are exactly those whose `prefix.>` is a well-formed subject. */
  lemma ValidPrefixIffFilterWellFormed(trimmed: string)
    requires trimmed != ""
    ensures ValidPrefix(trimmed) <==> WellFormed(trimmed + ".>")
  {
    SplitAtDot(trimmed, ">");
    var tokens := Split(trimmed);
    NoDotSplit(">");
    assert Split(trimmed + "." + ">") == tokens + [">"] && trimmed + "." + ">" == trimmed + ".>";
    var filter := tokens + [">"];
    assert forall i :: 0 <= i < |tokens| ==> filter[i] == tokens[i] && tokens[i] in tokens;
    if WellFormedTokens(filter) {
      forall t | t in tokens
        ensures t != "" && t != ">"
      {
        var i :| 0 <= i < |tokens| && tokens[i] == t;
        assert filter[i] == t;
      }
    }
  }

  /** Normalizing again changes nothing, however many dots are appended. */
  lemma {:induction false} NormalizedIsStable(raw: string)
    requires Normalized(raw).Some?
    ensures Normalized(Normalized(raw).value) == Normalized(raw)
  {
    var t := Trimmed(raw);
    TrimmedHasNoTrailingDot(raw);
    assert (t + ".")[..|t|] == t;
  }

  lemma {:induction false} TrimmedHasNoTrailingDot(raw: string)
    ensures Trimmed(raw) == "" || Trimmed(raw)[|Trimmed(raw)|-1] != '.'
    ensures Trimmed(Trimmed(raw)) == Trimmed(raw)
  {
    if raw != "" && raw[|raw|-1] == '.' {
      TrimmedHasNoTrailingDot(raw[..|raw|-1]);
    }
  }

  // ----- The resolver -----

  datatype KindNames = KindNames(prefix: string, schedulePrefix: string, custom: bool)

  /** What a kind's options make of its names; None for a prefix that is refused. */
  function NamesFor(name: string, customPrefix: Option<string>, kind: Kind): Option<KindNames> {
    match customPrefix
    case None => Some(KindNames(ConventionPrefix(name, kind), ConventionSchedulePrefix(name, kind), false))
    case Some(raw) =>
      match Normalized(raw)
      case None => None
      case Some(prefix) => Some(KindNames(prefix, prefix + SCHEDULE_SEGMENT, true))
  }

  /** What a publisher writes in front of a pattern. */
  function Written(name: string, kind: Kind): string {
    match kind
    case Event => name + "__microservice.ev."
    case Command => name + "__microservice.cmd."
    case Broadcast => "broadcast."
    case Ordered => name + "__microservice.ordered."
  }

  lemma Suffixes()
    ensures "__microservice.ev." == "__microservice" + "." + "ev" + "."
    ensures "__microservice.cmd." == "__microservice" + "." + "cmd" + "."
    ensures "__microservice.ordered." == "__microservice" + "." + "ordered" + "."
  {
  }

  lemma Joined(name: string, service: string, tag: string)
    ensures name + (service + "." + tag + ".") == name + service + "." + tag + "."
  {
  }

  /** The prefixes, as the documentation spells them. */
  lemma WrittenIsConvention(name: string, kind: Kind)
    ensures Written(name, kind) == ConventionPrefix(name, kind)
  {
    Suffixes();
    Joined(name, "__microservice", Tag(kind));
  }

  /** The names of a kind in plain text: by convention, or as its options say without trailing dots. */
  ghost predicate NamedAs(name: string, customPrefix: Option<string>, kind: Kind, names: KindNames) {
    match customPrefix
    case None =>
      && !names.custom && names.prefix == Written(name, kind)
      && names.schedulePrefix == if kind == Broadcast then "broadcast._sch." else name + "__microservice._sch."
    case Some(raw) =>
      && names.custom && names.schedulePrefix == names.prefix + "_sch."
      && names.prefix != "" && names.prefix[..|names.prefix|-1] <= raw
      && names.prefix[|names.prefix|-1] == '.'
      && (forall i :: |names.prefix| - 1 <= i < |raw| ==> raw[i] == '.')
      && WellFormed(names.prefix + ">")
  }

  lemma NamesAreWritten(name: string, customPrefix: Option<string>, kind: Kind)
    requires NamesFor(name, customPrefix, kind).Some?
    ensures NamedAs(name, customPrefix, kind, NamesFor(name, customPrefix, kind).value)
  {
    match customPrefix
    case None =>
      WrittenIsConvention(name, kind);
      if kind != Broadcast {
        assert "__microservice._sch." == "__microservice" + "." + SCHEDULE_SEGMENT;
      }
    case Some(raw) =>
      var trimmed := Trimmed(raw);
      TrimmedIsPrefix(raw);
      ValidPrefixIffFilterWellFormed(trimmed);
      assert trimmed + "." + ">" == trimmed + ".>" && (trimmed + ".")[..|trimmed|] == trimmed;
  }

  const ALL_KINDS := [Event, Command, Broadcast, Ordered]

  const SCHEDULE_ORDER := [Broadcast, Event, Ordered]

  class NameResolver {
    const kinds: map<Kind, KindNames>

    constructor (kinds: map<Kind, KindNames>)
      ensures this.kinds == kinds
    {
      this.kinds := kinds;
    }

    /** The map of all kinds; None if a custom prefix is refused. */
    static method BuildKindMap(name: string, customPrefixes: map<Kind, string>)
      returns (r: Option<map<Kind, KindNames>>)
      ensures r.Some? <==> forall k :: k in customPrefixes ==> Normalized(customPrefixes[k]).Some?
      ensures r.Some? ==> forall k ::
                  k in r.value && Some(r.value[k]) ==
                  NamesFor(name, if k in customPrefixes then Some(customPrefixes[k]) else None, k)
      ensures r.Some? ==> forall k ::
                  k in r.value
                  && NamedAs(name, if k in customPrefixes then Some(customPrefixes[k]) else None, k, r.value[k])
    {
      var kinds: map<Kind, KindNames> := map[];
      for i := 0 to 4
        invariant forall k :: k in kinds <==> k in ALL_KINDS[..i]
        invariant forall k :: k in kinds ==>
                    Some(kinds[k]) ==
                    NamesFor(name, if k in customPrefixes then Some(customPrefixes[k]) else None, k)
      {
        var kind := ALL_KINDS[i];
        var prefix, custom := ConventionPrefix(name, kind), kind in customPrefixes;
        if custom {
          var normalized := NormalizePrefix(customPrefixes[kind]);
          if normalized.None? {
            return None;
          }
          prefix := normalized.value;
        }
        kinds := kinds[kind := KindNames(
          prefix, if custom then prefix + SCHEDULE_SEGMENT else ConventionSchedulePrefix(name, kind), custom)];
      }
      forall k: Kind
        ensures k in kinds
      {
        assert ALL_KINDS[..4] == ALL_KINDS;
        assert k == ALL_KINDS[0] || k == ALL_KINDS[1] || k == ALL_KINDS[2] || k == ALL_KINDS[3];
      }
      forall k: Kind
        ensures NamedAs(name, if k in customPrefixes then Some(customPrefixes[k]) else None, k, kinds[k])
      {
        NamesAreWritten(name, if k in customPrefixes then Some(customPrefixes[k]) else None, k);
      }
      r := Some(kinds);
    }

    /** The first kind in the order whose prefix the subject starts with, from place `i` on. */
    function Mapped(i: nat, eventSubject: string): Option<string>
      requires forall k: Kind :: k in kinds
      decreases |SCHEDULE_ORDER| - i
    {
      if i >= |SCHEDULE_ORDER| then None
      else
        var names := kinds[SCHEDULE_ORDER[i]];
        if names.prefix <= eventSubject then Some(names.schedulePrefix + eventSubject[|names.prefix|..])
        else Mapped(i + 1, eventSubject)
    }

    /** The holder subject, without its unique suffix, of an event subject; None where it throws. */
    method ScheduleSubjectBase(eventSubject: string) returns (r: Option<string>)
      requires forall k: Kind :: k in kinds
      ensures r == Mapped(0, eventSubject)
      ensures r.None? <==> forall k: Kind :: k == Command || !(kinds[k].prefix <= eventSubject)
      ensures r.Some? ==> exists k: Kind ::
                && k != Command && kinds[k].prefix <= eventSubject
                && r.value == kinds[k].schedulePrefix + eventSubject[|kinds[k].prefix|..]
                && (k != Broadcast ==> !(kinds[Broadcast].prefix <= eventSubject))
                && (k == Ordered ==> !(kinds[Event].prefix <= eventSubject))
    {
      assert SCHEDULE_ORDER == [Broadcast, Event, Ordered];
      for i := 0 to |SCHEDULE_ORDER|
        invariant Mapped(0, eventSubject) == Mapped(i, eventSubject)
        invariant forall j :: 0 <= j < i ==> !(kinds[SCHEDULE_ORDER[j]].prefix <= eventSubject)
      {
        var names := kinds[SCHEDULE_ORDER[i]];
        if names.prefix <= eventSubject {
          assert kinds[SCHEDULE_ORDER[i]] == names;
          return Some(names.schedulePrefix + eventSubject[|names.prefix|..]);
        }
      }
      r := None;
    }

    /** By convention: every kind has its conventional names. */
    ghost predicate Conventional(name: string) {
      forall k: Kind :: k in kinds && Some(kinds[k]) == NamesFor(name, None, k)
    }

    /**
     On every conventional event, ordered and broadcast subject the two mappings give the same
     holder, in the service's own namespace unless the subject reads as a broadcast.
     */
    lemma MappingsAgree(name: string, kind: Kind, pattern: string)
      requires Conventional(name) && kind != Command
      ensures var subject := kinds[kind].prefix + pattern;
              && ConventionScheduleSubjectBase(name, subject) == Mapped(0, subject)
              && (kind == Broadcast || !(BROADCAST_SUBJECT_PREFIX <= subject) ==>
                    Mapped(0, subject) == Some(ConventionSchedulePrefix(name, kind) + pattern))
    {
      var subject := kinds[kind].prefix + pattern;
      assert SCHEDULE_ORDER[0] == Broadcast && SCHEDULE_ORDER[1] == Event && SCHEDULE_ORDER[2] == Ordered;
      if BROADCAST_SUBJECT_PREFIX <= subject {
        if kind == Broadcast {
          assert subject[|BROADCAST_SUBJECT_PREFIX|..] == pattern;
        }
      } else {
        ConventionBase(name, kind, pattern);
        assert subject[|kinds[kind].prefix|..] == pattern;
        if kind == Ordered {
          EventIsNoOrderedPrefix(name, pattern);
        }
      }
    }
  }

  lemma PrefixText(service: string, tag: string, pattern: string)
    ensures service + "." + tag + "." + pattern == (service + ".") + (tag + "." + pattern)
    ensures ((service + ".") + (tag + "." + pattern))[|service + "."|..] == tag + "." + pattern
    ensures (tag + "." + pattern)[|tag| + 1..] == pattern
  {
  }

  lemma ConventionBase(name: string, kind: Kind, pattern: string)
    requires kind != Broadcast && !(BROADCAST_SUBJECT_PREFIX <= SubjectPrefix(name, kind) + pattern)
    ensures ConventionScheduleSubjectBase(name, SubjectPrefix(name, kind) + pattern)
            == Some(InternalName(name) + "." + SCHEDULE_SEGMENT + pattern)
  {
    var subject := SubjectPrefix(name, kind) + pattern;
    var own := InternalName(name) + ".";
    var rest := Tag(kind) + "." + pattern;
    PrefixText(InternalName(name), Tag(kind), pattern);
    assert own <= subject;
    FirstDotAfter(Tag(kind), pattern);
  }

  lemma EventIsNoOrderedPrefix(name: string, pattern: string)
    ensures !(SubjectPrefix(name, Event) <= SubjectPrefix(name, Ordered) + pattern)
  {
    var n := |InternalName(name) + "."|;
    assert SubjectPrefix(name, Event)[n] == 'e' && (SubjectPrefix(name, Ordered) + pattern)[n] == 'o';
  }

  lemma {:induction false} FirstDotAfter(a: string, b: string)
    requires '.' !in a
    ensures FirstDot(a + "." + b) == Some(|a|)
  {
    var s := a + "." + b;
    if a != "" {
      assert s[1..] == a[1..] + "." + b;
      FirstDotAfter(a[1..], b);
    }
  }

  // ----- Who sees what -----

  function FilterSubject(name: string, kind: Kind): string {
    ConventionPrefix(name, kind) + ">"
  }

  /** The subjects of the event stream, by convention. */
  function EventStreamSubjects(name: string, scheduling: bool): seq<string> {
    if scheduling
    then [FilterSubject(name, Event), ConventionSchedulePrefix(name, Event) + ">"]
    else [FilterSubject(name, Event)]
  }

  /** Where the holder of an event is published; `unique` is the suffix of the one schedule. */
  function Holder(name: string, pattern: string, unique: string): string {
    ConventionSchedulePrefix(name, Event) + pattern + "." + unique
  }

  lemma {:induction false} NoDotSplit(s: string)
    requires '.' !in s
    ensures Split(s) == [s]
  {
    if s != "" {
      assert s[0] in s && s == [s[0]] + s[1..];
      NoDotSplit(s[1..]);
    }
  }

  lemma Regrouped(a: string, b: string, c: string)
    ensures a + "." + b + "." + c == a + "." + (b + "." + c)
  {
  }

  lemma ThreeTokens(first: string, second: string, rest: string)
    requires '.' !in first && '.' !in second
    ensures Split(first + "." + second + "." + rest) == [first, second] + Split(rest)
  {
    var tail := second + "." + rest;
    Regrouped(first, second, rest);
    NoDotSplit(first);
    NoDotSplit(second);
    SplitAtDot(second, rest);
    SplitAtDot(first, tail);
    assert [first] + ([second] + Split(rest)) == [first, second] + Split(rest);
  }

  /** The first token, or the first two, that a filter asks for. */
  function Head(name: string, kind: Kind): Tokens {
    if kind == Broadcast then ["broadcast"] else [InternalName(name), Tag(kind)]
  }

  lemma WrittenSplits(name: string, kind: Kind, rest: string)
    requires '.' !in name
    ensures Split(Written(name, kind) + rest) == Head(name, kind) + Split(rest)
  {
    WrittenIsConvention(name, kind);
    if kind == Broadcast {
      BroadcastSplits(rest);
    } else {
      ThreeTokens(InternalName(name), Tag(kind), rest);
      assert SubjectPrefix(name, kind) + rest == InternalName(name) + "." + Tag(kind) + "." + rest;
    }
  }

  lemma BroadcastSplits(rest: string)
    ensures Split("broadcast." + rest) == ["broadcast"] + Split(rest)
  {
    NoDotSplit("broadcast");
    SplitAtDot("broadcast", rest);
    assert "broadcast." == "broadcast" + ".";
  }

  /** A filter of literals and `>` matches what starts with the literals and goes on. */
  lemma {:induction false} LiteralsDecide(head: Tokens, subject: Tokens)
    requires forall t :: t in head ==> t != "*" && t != ">"
    ensures MatchesTokens(head + [">"], subject) <==> head <= subject && |subject| > |head|
    decreases |head|
  {
    var filter := head + [">"];
    if head == [] {
      assert filter == [">"];
    } else if subject != [] {
      assert head[0] in head && forall t :: t in head[1..] ==> t in head;
      assert filter[1..] == head[1..] + [">"] && filter[0] == head[0] && filter != [">"];
      LiteralsDecide(head[1..], subject[1..]);
      assert head <= subject <==> head[0] == subject[0] && head[1..] <= subject[1..] by {
        assert head == [head[0]] + head[1..] && subject == [subject[0]] + subject[1..];
      }
    }
  }

  lemma {:induction false} JoinAppend(head: Tokens, rest: Tokens)
    requires head != [] && rest != []
    ensures Join(head + rest) == Join(head) + "." + Join(rest)
    decreases |head|
  {
    if |head| > 1 {
      JoinAppend(head[1..], rest);
      assert (head + rest)[1..] == head[1..] + rest;
    } else {
      assert (head + rest)[1..] == rest;
    }
  }

  lemma WrittenIsHead(name: string, kind: Kind)
    requires '.' !in name
    ensures Written(name, kind) == Join(Head(name, kind)) + "."
  {
    WrittenIsConvention(name, kind);
    if kind != Broadcast {
      assert Head(name, kind)[1..] == [Tag(kind)];
    }
  }

  /** A kind's filter matches exactly the valid subjects with the kind's prefix in front. */
  lemma FilterIsPrefix(name: string, kind: Kind, subject: string)
    requires '.' !in name
    ensures Matches(FilterSubject(name, kind), subject) <==>
            Concrete(Split(subject)) && Written(name, kind) <= subject
  {
    var prefix, head, tokens := Written(name, kind), Head(name, kind), Split(subject);
    WrittenSplits(name, kind, ">");
    WrittenIsConvention(name, kind);
    NoDotSplit(">");
    assert FilterSubject(name, kind) == prefix + ">";
    InternalIsNoWildcard(name);
    LiteralsDecide(head, tokens);
    if prefix <= subject {
      assert subject == prefix + subject[|prefix|..];
      WrittenSplits(name, kind, subject[|prefix|..]);
    }
    if head <= tokens && |tokens| > |head| {
      assert tokens == head + tokens[|head|..];
      JoinAppend(head, tokens[|head|..]);
      JoinSplit(subject);
      WrittenIsHead(name, kind);
    }
  }

  lemma InternalIsNoWildcard(name: string)
    ensures InternalName(name) != "*" && InternalName(name) != ">"
  {
    assert |InternalName(name)| > 1;
  }

  /** No subject reaches two kinds, and only broadcasts reach two services. */
  lemma KindsAreApart(name: string, kind: Kind, other: string, otherKind: Kind, subject: string)
    requires '.' !in name && '.' !in other
    requires Matches(FilterSubject(name, kind), subject) && Matches(FilterSubject(other, otherKind), subject)
    ensures kind == otherKind && (kind == Broadcast || name == other)
  {
    FilterIsPrefix(name, kind, subject);
    FilterIsPrefix(other, otherKind, subject);
    HeadOfSubject(name, kind, subject);
    HeadOfSubject(other, otherKind, subject);
    assert InternalName(name)[..|name|] == name && InternalName(other)[..|other|] == other;
    assert |InternalName(name)| > |"broadcast"| && |InternalName(other)| > |"broadcast"|;
  }

  lemma HeadOfSubject(name: string, kind: Kind, subject: string)
    requires '.' !in name && Written(name, kind) <= subject
    ensures Head(name, kind) <= Split(subject)
    ensures kind != Broadcast ==> Split(subject)[0] == InternalName(name) && Split(subject)[1] == Tag(kind)
  {
    var rest := subject[|Written(name, kind)|..];
    assert subject == Written(name, kind) + rest;
    WrittenSplits(name, kind, rest);
  }

  lemma HolderText(service: string, segment: string, pattern: string, unique: string)
    ensures service + "." + (segment + ".") + pattern + "." + unique
            == service + "." + segment + "." + (pattern + "." + unique)
  {
  }

  lemma HolderTokens(name: string, pattern: string, unique: string)
    requires '.' !in name
    ensures Split(Holder(name, pattern, unique)) == [InternalName(name), "_sch"] + Split(pattern + "." + unique)
  {
    var service := InternalName(name);
    assert SCHEDULE_SEGMENT == "_sch" + ".";
    HolderText(service, "_sch", pattern, unique);
    ThreeTokens(service, "_sch", pattern + "." + unique);
  }

  lemma PrefixTokens(name: string, segment: string)
    requires '.' !in name && '.' !in segment
    ensures Split(InternalName(name) + "." + segment + "." + ">") == [InternalName(name), segment, ">"]
  {
    NoDotSplit(">");
    ThreeTokens(InternalName(name), segment, ">");
  }

  /** A filter of a literal, a literal and `>` against a subject of a service's `_sch` namespace. */
  lemma NamespaceDecides(x: string, y: string, second: string, rest: Tokens)
    requires second != "*" && second != ">" && rest != []
    ensures MatchesTokens([x, second, ">"], [y, "_sch"] + rest) <==> (x == "*" || x == y) && second == "_sch"
  {
    var filter, subject := [x, second, ">"], [y, "_sch"] + rest;
    assert filter[1..] == [second, ">"] && subject[1..] == ["_sch"] + rest;
    assert [second, ">"][1..] == [">"] && (["_sch"] + rest)[1..] == rest;
    assert MatchesTokens([second, ">"], ["_sch"] + rest) <==> second == "_sch";
  }

  /** No convention filter of any service and any kind sees an event's schedule holder. */
  lemma HolderReachesNoFilter(name: string, other: string, kind: Kind, pattern: string, unique: string)
    requires '.' !in name && '.' !in other
    ensures !Matches(FilterSubject(other, kind), Holder(name, pattern, unique))
  {
    var holder := Holder(name, pattern, unique);
    FilterIsPrefix(other, kind, holder);
    HolderTokens(name, pattern, unique);
    assert Split(holder)[0] == InternalName(name) && Split(holder)[1] == "_sch";
    assert |InternalName(name)| > |"broadcast"|;
    if Written(other, kind) <= holder {
      HeadOfSubject(other, kind, holder);
    }
  }

  /** The event stream stores a holder if and only if scheduling is on and it is a valid subject. */
  lemma HolderIsStoredIffScheduling(name: string, pattern: string, unique: string, scheduling: bool)
    requires '.' !in name
    ensures (exists s :: s in EventStreamSubjects(name, scheduling) && Matches(s, Holder(name, pattern, unique)))
            <==> scheduling && Concrete(Split(Holder(name, pattern, unique)))
  {
    var holder := Holder(name, pattern, unique);
    var schedule := ConventionSchedulePrefix(name, Event) + ">";
    HolderReachesNoFilter(name, name, Event, pattern, unique);
    ScheduleFilterMatches(name, pattern, unique);
    if scheduling && Concrete(Split(holder)) {
      assert EventStreamSubjects(name, scheduling)[1] == schedule;
      assert schedule in EventStreamSubjects(name, scheduling) && Matches(schedule, holder);
    }
  }

  lemma ScheduleFilterMatches(name: string, pattern: string, unique: string)
    requires '.' !in name
    ensures MatchesTokens(Split(ConventionSchedulePrefix(name, Event) + ">"), Split(Holder(name, pattern, unique)))
  {
    HolderTokens(name, pattern, unique);
    PrefixTokens(name, "_sch");
    NamespaceDecides(InternalName(name), InternalName(name), "_sch", Split(pattern + "." + unique));
    assert ConventionSchedulePrefix(name, Event) + ">" == InternalName(name) + "." + "_sch" + "." + ">";
  }
}
