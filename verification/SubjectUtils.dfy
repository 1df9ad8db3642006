/**
 NATS subjects and their wildcards (src/server/infrastructure/subject-utils.ts; NATS
 documentation, "Subject-Based Messaging", section "Wildcards").
 */
module SubjectUtils {

  // ----- Splitting at dots -----

  type Tokens = seq<string>

  /** `s.split('.')` */
  function Split(s: string): (tokens: Tokens)
    ensures |tokens| > 0
    ensures forall t :: t in tokens ==> '.' !in t
  {
    if s == "" then [""]
    else
      var rest := Split(s[1..]);
      if s[0] == '.' then [""] + rest
      else [[s[0]] + rest[0]] + rest[1..]
  }

  function Join(tokens: Tokens): string
    requires |tokens| > 0
  {
    if |tokens| == 1 then tokens[0] else tokens[0] + "." + Join(tokens[1..])
  }

  lemma {:induction false} JoinSplit(s: string)
    ensures Join(Split(s)) == s
  {
    if s != "" {
      JoinSplit(s[1..]);
      JoinStep(s[0], Split(s[1..]));
      assert s == [s[0]] + s[1..];
    }
  }

  lemma JoinStep(c: char, rest: Tokens)
    requires |rest| > 0
    ensures Join(if c == '.' then [""] + rest else [[c] + rest[0]] + rest[1..]) == [c] + Join(rest)
  {
    if c == '.' {
      assert ([""] + rest)[1..] == rest;
    } else {
      assert ([[c] + rest[0]] + rest[1..])[1..] == rest[1..];
    }
  }

  lemma {:induction false} SplitJoin(tokens: Tokens)
    requires |tokens| > 0 && forall t :: t in tokens ==> '.' !in t
    ensures Split(Join(tokens)) == tokens
    decreases |tokens|, |tokens[0]|
  {
    var s := Join(tokens);
    if tokens[0] == "" {
      if |tokens| > 1 {
        assert s[1..] == Join(tokens[1..]);
        SplitJoin(tokens[1..]);
        assert tokens == [""] + tokens[1..];
      } else {
        assert tokens == [""];
      }
    } else {
      var c := tokens[0][0];
      assert tokens[0] == [c] + tokens[0][1..] && tokens[0] in tokens;
      var shorter := [tokens[0][1..]] + tokens[1..];
      assert c in tokens[0];
      assert shorter[1..] == tokens[1..];
      assert s == [c] + Join(shorter);
      assert s[1..] == Join(shorter);
      forall t | t in shorter
        ensures '.' !in t
      {
        assert t == tokens[0][1..] || t in tokens[1..];
      }
      SplitJoin(shorter);
      assert Split(s) == [[c] + tokens[0][1..]] + tokens[1..];
    }
  }

  // ----- What a subject matches -----

  /** A filter matches a subject token by token: `*` any one token, a last `>` one or more. */
  predicate MatchesTokens(filter: Tokens, subject: Tokens) {
    if filter == [] then subject == []
    else if filter == [">"] then subject != []
    else subject != [] && (filter[0] == "*" || filter[0] == subject[0]) && MatchesTokens(filter[1..], subject[1..])
  }

  /** Tokens a publisher may use: not empty, and no wildcard. */
  predicate Concrete(subject: Tokens) {
    subject != [] && forall t :: t in subject ==> t != "" && t != "*" && t != ">" && '.' !in t
  }

  /** No empty token, and `>` only as the last one. */
  predicate WellFormedTokens(filter: Tokens) {
    && filter != []
    && (forall i :: 0 <= i < |filter| ==> filter[i] != "" && '.' !in filter[i])
    && (forall i :: 0 <= i < |filter| - 1 ==> filter[i] != ">")
  }

  predicate WellFormed(filter: string) {
    WellFormedTokens(Split(filter))
  }

  ghost predicate Matches(filter: string, subject: string) {
    Concrete(Split(subject)) && MatchesTokens(Split(filter), Split(subject))
  }

  /** `broad` matches every subject that `narrow` matches. */
  ghost predicate Includes(broad: string, narrow: string) {
    forall subject :: Matches(narrow, subject) ==> Matches(broad, subject)
  }

  // ----- The decision -----

  /** The answer of the scan from some token on, for any two token lists. */
  predicate CoversTokens(broad: Tokens, narrow: Tokens) {
    if broad == [] then narrow == []
    else if broad[0] == ">" then narrow != []
    else narrow != [] && narrow[0] != ">" && (broad[0] == "*" || broad[0] == narrow[0])
         && CoversTokens(broad[1..], narrow[1..])
  }

  predicate Covers(broad: string, narrow: string) {
    broad != narrow && CoversTokens(Split(broad), Split(narrow))
  }

  method SubjectCovers(broad: string, narrow: string) returns (r: bool)
    ensures r == Covers(broad, narrow)
  {
    if broad == narrow {
      return false;
    }
    var broadTokens, narrowTokens := Split(broad), Split(narrow);
    var i := 0;
    while i < |broadTokens|
      invariant 0 <= i <= |broadTokens| && i <= |narrowTokens|
      invariant CoversTokens(broadTokens, narrowTokens) == CoversTokens(broadTokens[i..], narrowTokens[i..])
    {
      if broadTokens[i] == ">" {
        return i < |narrowTokens|;
      }
      if i >= |narrowTokens| || narrowTokens[i] == ">" {
        return false;
      }
      if broadTokens[i] != "*" && broadTokens[i] != narrowTokens[i] {
        return false;
      }
      assert broadTokens[i..][1..] == broadTokens[i+1..];
      assert narrowTokens[i..][1..] == narrowTokens[i+1..];
      i := i + 1;
    }
    r := |broadTokens| == |narrowTokens|;
  }

  predicate CoversOrEquals(broad: string, subject: string) {
    broad == subject || Covers(broad, subject)
  }

  // ----- Soundness: what is covered is included -----

  lemma {:induction false} CoveredIsMatched(broad: Tokens, narrow: Tokens, subject: Tokens)
    requires CoversTokens(broad, narrow) && MatchesTokens(narrow, subject)
    requires narrow == [] || WellFormedTokens(narrow)
    requires broad == [] || WellFormedTokens(broad)
    ensures MatchesTokens(broad, subject)
    decreases |broad|
  {
    if broad != [] && broad[0] != ">" {
      CoveredIsMatched(broad[1..], narrow[1..], subject[1..]);
    }
  }

  // ----- Completeness: what is not covered is not included -----

  /** A token longer than every token of `broad`, so none of its literals. */
  function Fresh(broad: Tokens): (t: string)
    ensures |t| > 0 && '.' !in t && t != "*" && t != ">"
    ensures forall b :: b in broad ==> b != t && |b| < |t|
  {
    if broad == [] then "x"
    else
      var t := Fresh(broad[1..]);
      assert forall b :: b in broad ==> b == broad[0] || b in broad[1..];
      if |broad[0]| < |t| then t else t + Xs(|broad[0]|)
  }

  function Xs(n: nat): (s: string)
    ensures |s| == n && forall c :: c in s ==> c == 'x'
  {
    seq(n, _ => 'x')
  }

  /** A subject that `narrow` matches: wildcards are filled with `fill`, the last `>` with `extra`
      more tokens after the first. */
  function Witness(narrow: Tokens, fill: string, more: bool): Tokens {
    if narrow == [] then []
    else if narrow[0] == ">" then if more then [fill, fill] else [fill]
    else [if narrow[0] == "*" then fill else narrow[0]] + Witness(narrow[1..], fill, more)
  }

  lemma {:induction false} WitnessMatches(narrow: Tokens, fill: string, more: bool)
    requires narrow == [] || WellFormedTokens(narrow)
    requires fill != "" && fill != "*" && fill != ">" && '.' !in fill
    ensures MatchesTokens(narrow, Witness(narrow, fill, more))
    ensures narrow != [] ==> Concrete(Witness(narrow, fill, more))
    decreases |narrow|
  {
    if narrow != [] && narrow[0] != ">" {
      WitnessMatches(narrow[1..], fill, more);
    }
  }

  /** A filter that matches both witnesses covers. */
  lemma {:induction false} MatchedIsCovered(broad: Tokens, narrow: Tokens, fill: string)
    requires broad == [] || WellFormedTokens(broad)
    requires narrow == [] || WellFormedTokens(narrow)
    requires fill !in broad && fill != ">" && fill != "*"
    requires MatchesTokens(broad, Witness(narrow, fill, false)) && MatchesTokens(broad, Witness(narrow, fill, true))
    ensures CoversTokens(broad, narrow)
    decreases |broad|
  {
    if broad != [] && narrow != [] && broad[0] != ">" {
      assert broad[0] in broad;
      if narrow[0] == ">" {
        assert false;
      }
      var w, w' := Witness(narrow, fill, false), Witness(narrow, fill, true);
      assert w[1..] == Witness(narrow[1..], fill, false) && w'[1..] == Witness(narrow[1..], fill, true);
      MatchedIsCovered(broad[1..], narrow[1..], fill);
    }
  }

  /** The decision is inclusion: a filter covers or equals another if and only if it matches every
      subject the other matches. */
  lemma CoversOrEqualsIffIncludes(broad: string, narrow: string)
    requires WellFormed(broad) && WellFormed(narrow)
    ensures CoversOrEquals(broad, narrow) <==> Includes(broad, narrow)
  {
    if CoversOrEquals(broad, narrow) {
      forall subject | Matches(narrow, subject)
        ensures Matches(broad, subject)
      {
        if broad != narrow {
          CoveredIsMatched(Split(broad), Split(narrow), Split(subject));
        }
      }
    }
    if Includes(broad, narrow) {
      var fill := Fresh(Split(broad));
      IncludedMatchesWitness(broad, narrow, fill, false);
      IncludedMatchesWitness(broad, narrow, fill, true);
      MatchedIsCovered(Split(broad), Split(narrow), fill);
    }
  }

  lemma IncludedMatchesWitness(broad: string, narrow: string, fill: string, more: bool)
    requires WellFormed(narrow) && Includes(broad, narrow)
    requires fill != "" && fill != "*" && fill != ">" && '.' !in fill
    ensures MatchesTokens(Split(broad), Witness(Split(narrow), fill, more))
  {
    var w := Witness(Split(narrow), fill, more);
    WitnessMatches(Split(narrow), fill, more);
    SplitJoin(w);
    assert Matches(narrow, Join(w));
  }

  // ----- Consequences: a strict partial order -----

  /** Filters that match the same subjects are the same filter. */
  lemma {:induction false} CoversTokensAntisymmetric(a: Tokens, b: Tokens)
    requires a == [] || WellFormedTokens(a)
    requires b == [] || WellFormedTokens(b)
    requires CoversTokens(a, b) && CoversTokens(b, a)
    ensures a == b
    decreases |a|
  {
    if a != [] && a[0] != ">" {
      CoversTokensAntisymmetric(a[1..], b[1..]);
      assert a == [a[0]] + a[1..] && b == [b[0]] + b[1..];
    }
  }

  lemma CoversIsAsymmetric(a: string, b: string)
    requires WellFormed(a) && WellFormed(b) && Covers(a, b)
    ensures !Covers(b, a)
  {
    if Covers(b, a) {
      CoversTokensAntisymmetric(Split(a), Split(b));
      JoinSplit(a);
      JoinSplit(b);
    }
  }

  lemma CoversIsTransitive(a: string, b: string, c: string)
    requires WellFormed(a) && WellFormed(b) && WellFormed(c)
    requires Covers(a, b) && Covers(b, c)
    ensures Covers(a, c)
  {
    CoversOrEqualsIffIncludes(a, b);
    CoversOrEqualsIffIncludes(b, c);
    CoversOrEqualsIffIncludes(a, c);
    CoversIsAsymmetric(a, b);
  }
}
