/**
 Header allowlists (src/otel/capture.ts): a glob is compiled to the text of a regular expression by
 escaping it and then rewriting every escaped star, and the text is what the engine reads.

 Characters are code points (the expressions carry the `u` flag). Case folding is a parameter:
 nothing below depends on what it does.
 */
module HeaderCapture {
  import opened Options

  // ----- Compiling a glob -----

  /** The characters that are escaped. */
  predicate Special(c: char) {
    c in ".+?^${}()|[]\\*"
  }

  function EscapeForRegex(input: string): string {
    if input == "" then ""
    else (if Special(input[0]) then ['\\', input[0]] else [input[0]]) + EscapeForRegex(input[1..])
  }

  /** Replace each `\*` by `.*`, from left to right. */
  function RewriteStars(text: string): string {
    if text == "" then ""
    else if |text| >= 2 && text[0] == '\\' && text[1] == '*' then ".*" + RewriteStars(text[2..])
    else [text[0]] + RewriteStars(text[1..])
  }

  /** The text between `^` and `$`, for a glob whose case is folded already. */
  function GlobToRegex(glob: string): string {
    RewriteStars(EscapeForRegex(glob))
  }

  // ----- Reading a regular expression -----

  datatype Term = Literal(c: char) | AnyRun

  /** The characters with a meaning of their own (ECMA-262, section 22.2.1, SyntaxCharacter). */
  predicate SyntaxCharacter(c: char) {
    c in "^$\\.*+?()[]{}|"
  }

  /**
   The engine's reading of an expression made of characters, escaped syntax characters and `.*`;
   None for anything else, which includes what the engine rejects.
   */
  function Parse(text: string): Option<seq<Term>> {
    if text == "" then Some([])
    else if text[0] == '\\' then
      if |text| >= 2 && SyntaxCharacter(text[1]) then After(Literal(text[1]), Parse(text[2..])) else None
    else if text[0] == '.' then
      if |text| >= 2 && text[1] == '*' then After(AnyRun, Parse(text[2..])) else None
    else if SyntaxCharacter(text[0]) then None
    else After(Literal(text[0]), Parse(text[1..]))
  }

  function After(t: Term, rest: Option<seq<Term>>): Option<seq<Term>> {
    if rest.Some? then Some([t] + rest.value) else None
  }

  /** What the dot does not match. */
  predicate LineTerminator(c: char) {
    c in "\n\r\U{2028}\U{2029}"
  }

  predicate OneLine(s: string) {
    forall c :: c in s ==> !LineTerminator(c)
  }

  /** Matching from start to end, with `.*` trying to stop first and then one character longer. */
  predicate Accepts(terms: seq<Term>, s: string)
    decreases |terms| + |s|
  {
    if terms == [] then s == ""
    else if terms[0].Literal? then s != "" && s[0] == terms[0].c && Accepts(terms[1..], s[1..])
    else Accepts(terms[1..], s) || (s != "" && !LineTerminator(s[0]) && Accepts(terms, s[1..]))
  }

  /** `new RegExp("^text$", "u").test(s)`; an expression that does not parse matches nothing. */
  predicate Test(text: string, s: string) {
    var terms := Parse(text);
    terms.Some? && Accepts(terms.value, s)
  }

  // ----- What a glob means -----

  /** A star stands for any text, every other character for itself. */
  ghost predicate Denotes(glob: string, s: string) {
    if glob == "" then s == ""
    else if glob[0] == '*' then exists k :: 0 <= k <= |s| && Denotes(glob[1..], s[k..])
    else s != "" && s[0] == glob[0] && Denotes(glob[1..], s[1..])
  }

  function Terms(glob: string): seq<Term> {
    if glob == "" then []
    else [if glob[0] == '*' then AnyRun else Literal(glob[0])] + Terms(glob[1..])
  }

  lemma EscapedNeverStartsWithStar(glob: string)
    ensures EscapeForRegex(glob) == "" || EscapeForRegex(glob)[0] != '*'
  {
  }

  lemma RewrittenStar(rest: string)
    ensures RewriteStars("\\*" + rest) == ".*" + RewriteStars(rest)
  {
    var text := "\\*" + rest;
    assert text[0] == '\\' && text[1] == '*' && text[2..] == rest;
  }

  lemma RewrittenOther(c: char, rest: string)
    requires c != '\\' || rest == "" || rest[0] != '*'
    ensures RewriteStars([c] + rest) == [c] + RewriteStars(rest)
  {
    var text := [c] + rest;
    assert text[1..] == rest;
    assert |text| >= 2 ==> text[1] == rest[0];
  }

  lemma ParsedRun(tail: string)
    ensures Parse(".*" + tail) == After(AnyRun, Parse(tail))
  {
    var text := ".*" + tail;
    assert text[0] == '.' && text[1] == '*' && text[2..] == tail;
  }

  lemma ParsedEscape(c: char, tail: string)
    requires SyntaxCharacter(c)
    ensures Parse(['\\'] + ([c] + tail)) == After(Literal(c), Parse(tail))
  {
    var text := ['\\'] + ([c] + tail);
    assert text[0] == '\\' && text[1] == c && text[2..] == tail;
  }

  lemma ParsedPlain(c: char, tail: string)
    requires !SyntaxCharacter(c)
    ensures Parse([c] + tail) == After(Literal(c), Parse(tail))
  {
    assert ([c] + tail)[1..] == tail;
  }

  /** One character of a glob, escaped and rewritten, is read back as that character or a run. */
  lemma CompiledCharacter(c: char, rest: string)
    requires rest == "" || rest[0] != '*'
    ensures var text := RewriteStars((if Special(c) then ['\\', c] else [c]) + rest);
            Parse(text) == After(if c == '*' then AnyRun else Literal(c), Parse(RewriteStars(rest)))
  {
    var tail := RewriteStars(rest);
    if c == '*' {
      assert ['\\', c] == "\\*";
      RewrittenStar(rest);
      ParsedRun(tail);
    } else if Special(c) {
      RewrittenOther(c, rest);
      RewrittenOther('\\', [c] + rest);
      assert ['\\', c] + rest == ['\\'] + ([c] + rest);
      ParsedEscape(c, tail);
    } else {
      RewrittenOther(c, rest);
      ParsedPlain(c, tail);
    }
  }

  /** The compiled text always parses, whatever regex syntax or backslashes the glob holds. */
  lemma {:induction false} CompiledParses(glob: string)
    ensures Parse(GlobToRegex(glob)) == Some(Terms(glob))
  {
    if glob != "" {
      CompiledParses(glob[1..]);
      EscapedNeverStartsWithStar(glob[1..]);
      CompiledCharacter(glob[0], EscapeForRegex(glob[1..]));
    }
  }

  lemma {:induction false} RunAccepts(terms: seq<Term>, s: string, k: nat)
    requires k <= |s| && OneLine(s) && Accepts(terms, s[k..])
    ensures Accepts([AnyRun] + terms, s)
    decreases k
  {
    assert ([AnyRun] + terms)[1..] == terms;
    if k == 0 {
      assert s[k..] == s;
    } else {
      assert s[1..][k-1..] == s[k..];
      RunAccepts(terms, s[1..], k - 1);
      assert s[0] in s;
    }
  }

  lemma {:induction false} RunStops(terms: seq<Term>, s: string) returns (k: nat)
    requires Accepts([AnyRun] + terms, s)
    ensures k <= |s| && Accepts(terms, s[k..])
    decreases |s|
  {
    assert ([AnyRun] + terms)[1..] == terms;
    if Accepts(terms, s) {
      k := 0;
      assert s[0..] == s;
    } else {
      var j := RunStops(terms, s[1..]);
      k := j + 1;
      assert s[1..][j..] == s[k..];
    }
  }

  /** On one line the compiled expression matches exactly what the glob denotes. */
  lemma {:induction false} GlobMatchesIffDenotes(glob: string, s: string)
    requires OneLine(s)
    ensures Test(GlobToRegex(glob), s) <==> Denotes(glob, s)
  {
    CompiledParses(glob);
    AcceptsIffDenotes(glob, s);
  }

  lemma {:induction false} AcceptsIffDenotes(glob: string, s: string)
    requires OneLine(s)
    ensures Accepts(Terms(glob), s) <==> Denotes(glob, s)
  {
    if glob == "" {
    } else if glob[0] == '*' {
      assert Terms(glob) == [AnyRun] + Terms(glob[1..]);
      if Accepts(Terms(glob), s) {
        var k := RunStops(Terms(glob[1..]), s);
        AcceptsIffDenotes(glob[1..], s[k..]);
      }
      if Denotes(glob, s) {
        var k :| 0 <= k <= |s| && Denotes(glob[1..], s[k..]);
        AcceptsIffDenotes(glob[1..], s[k..]);
        RunAccepts(Terms(glob[1..]), s, k);
      }
    } else if s != "" {
      assert Terms(glob)[1..] == Terms(glob[1..]);
      AcceptsIffDenotes(glob[1..], s[1..]);
    }
  }

  /** All globs are read faithfully on a string if and only if it has no line terminator. */
  lemma {:induction false} FaithfulIffOneLine(s: string)
    ensures (forall glob :: Test(GlobToRegex(glob), s) <==> Denotes(glob, s)) <==> OneLine(s)
  {
    if OneLine(s) {
      forall glob
        ensures Test(GlobToRegex(glob), s) <==> Denotes(glob, s)
      {
        GlobMatchesIffDenotes(glob, s);
      }
    } else {
      CompiledParses("*");
      assert Terms("*") == [AnyRun] + [];
      assert Denotes("*"[1..], s[|s|..]);
      if Accepts([AnyRun] + [], s) {
        AcceptedRunIsOneLine(s);
      }
      assert Test(GlobToRegex("*"), s) != Denotes("*", s);
    }
  }

  lemma {:induction false} AcceptedRunIsOneLine(s: string)
    requires Accepts([AnyRun] + [], s)
    ensures OneLine(s)
  {
    assert ([AnyRun] + [])[1..] == [];
    if s != "" {
      AcceptedRunIsOneLine(s[1..]);
      assert s == [s[0]] + s[1..];
    }
  }

  // ----- Allowlists -----

  datatype Allowlist = Everything | Nothing | Patterns(patterns: seq<string>)

  datatype HeaderMatcher = Always | Never | Globs(includes: seq<string>, excludes: seq<string>)
  {
    /** The verdict on a folded header name. */
    predicate Matches(folded: string) {
      match this
      case Always => true
      case Never => false
      case Globs(includes, excludes) =>
        (exists r :: r in includes && Test(r, folded)) && !exists r :: r in excludes && Test(r, folded)
    }
  }

  predicate IsExclude(pattern: string) {
    pattern != "" && pattern[0] == '!'
  }

  function Body(pattern: string): string {
    if IsExclude(pattern) then pattern[1..] else pattern
  }

  /** What a list of patterns is for: some include speaks for the name and no exclude against it. */
  ghost predicate Allowed(patterns: seq<string>, lower: string -> string, folded: string) {
    && (exists p :: p in patterns && !("!" <= p) && Denotes(lower(p), folded))
    && !exists p :: p in patterns && "!" <= p && Denotes(lower(p[1..]), folded)
  }

  lemma SignsAreRead(patterns: seq<string>, lower: string -> string, folded: string)
    ensures Allowed(patterns, lower, folded) <==>
            && (exists p :: p in patterns && IsExclude(p) == false && Denotes(lower(Body(p)), folded))
            && !exists p :: p in patterns && IsExclude(p) == true && Denotes(lower(Body(p)), folded)
  {
    forall p: string
      ensures IsExclude(p) <==> "!" <= p
      ensures Body(p) == if "!" <= p then p[1..] else p
    {
    }
  }

  /** The expressions made from the first patterns, split by sign. */
  ghost predicate Compiled(patterns: seq<string>, lower: string -> string, regexes: seq<string>, exclude: bool) {
    && (forall p :: p in patterns && IsExclude(p) == exclude ==> GlobToRegex(lower(Body(p))) in regexes)
    && forall r :: r in regexes ==>
         exists p :: p in patterns && IsExclude(p) == exclude && r == GlobToRegex(lower(Body(p)))
  }

  lemma CompiledStep(patterns: seq<string>, lower: string -> string, regexes: seq<string>, exclude: bool, p: string)
    requires Compiled(patterns, lower, regexes, exclude)
    ensures Compiled(patterns + [p], lower,
                     if IsExclude(p) == exclude then regexes + [GlobToRegex(lower(Body(p)))] else regexes, exclude)
  {
    var after := if IsExclude(p) == exclude then regexes + [GlobToRegex(lower(Body(p)))] else regexes;
    forall r | r in after
      ensures exists q :: q in patterns + [p] && IsExclude(q) == exclude && r == GlobToRegex(lower(Body(q)))
    {
      if r in regexes {
        var q :| q in patterns && IsExclude(q) == exclude && r == GlobToRegex(lower(Body(q)));
        assert q in patterns + [p];
      } else {
        assert p in patterns + [p];
      }
    }
  }

  lemma CompiledMatches(patterns: seq<string>, lower: string -> string, regexes: seq<string>, exclude: bool,
                        folded: string)
    requires Compiled(patterns, lower, regexes, exclude) && OneLine(folded)
    ensures (exists r :: r in regexes && Test(r, folded)) <==>
            (exists p :: p in patterns && IsExclude(p) == exclude && Denotes(lower(Body(p)), folded))
  {
    forall p | p in patterns
      ensures Test(GlobToRegex(lower(Body(p))), folded) <==> Denotes(lower(Body(p)), folded)
    {
      GlobMatchesIffDenotes(lower(Body(p)), folded);
    }
  }

  ghost predicate BothCompiled(patterns: seq<string>, lower: string -> string,
                               includes: seq<string>, excludes: seq<string>)
  {
    Compiled(patterns, lower, includes, false) && Compiled(patterns, lower, excludes, true)
  }

  lemma BothCompiledStep(patterns: seq<string>, lower: string -> string,
                         includes: seq<string>, excludes: seq<string>, i: nat)
    requires i < |patterns| && BothCompiled(patterns[..i], lower, includes, excludes)
    ensures var p := patterns[i];
            var regex := GlobToRegex(lower(Body(p)));
            BothCompiled(patterns[..i+1], lower, if IsExclude(p) then includes else includes + [regex],
                  if IsExclude(p) then excludes + [regex] else excludes)
  {
    CompiledStep(patterns[..i], lower, includes, false, patterns[i]);
    CompiledStep(patterns[..i], lower, excludes, true, patterns[i]);
    assert patterns[..i+1] == patterns[..i] + [patterns[i]];
  }

  method CompilePatterns(patterns: seq<string>, lower: string -> string)
    returns (includes: seq<string>, excludes: seq<string>)
    ensures Compiled(patterns, lower, includes, false) && Compiled(patterns, lower, excludes, true)
  {
    includes, excludes := [], [];
    for i := 0 to |patterns|
      invariant BothCompiled(patterns[..i], lower, includes, excludes)
    {
      var pattern := patterns[i];
      var regex := GlobToRegex(lower(Body(pattern)));
      BothCompiledStep(patterns, lower, includes, excludes, i);
      if IsExclude(pattern) {
        excludes := excludes + [regex];
      } else {
        includes := includes + [regex];
      }
    }
    assert patterns[..|patterns|] == patterns;
  }

  /** The matcher allows a one-line name if and only if the list does. */
  method CompileHeaderAllowlist(allowlist: Allowlist, lower: string -> string) returns (m: HeaderMatcher)
    ensures allowlist.Everything? ==> forall name :: m.Matches(lower(name))
    ensures allowlist.Nothing? || allowlist == Patterns([]) ==> forall name :: !m.Matches(lower(name))
    ensures allowlist.Patterns? && allowlist.patterns != [] ==>
              m.Globs? && Compiled(allowlist.patterns, lower, m.includes, false)
              && Compiled(allowlist.patterns, lower, m.excludes, true)
    ensures allowlist.Patterns? ==>
              forall name :: OneLine(lower(name)) ==>
                (m.Matches(lower(name)) <==> Allowed(allowlist.patterns, lower, lower(name)))
  {
    match allowlist
    case Everything => return Always;
    case Nothing => return Never;
    case Patterns(patterns) =>
      if patterns == [] {
        return Never;
      }
      var includes, excludes := CompilePatterns(patterns, lower);
      m := Globs(includes, excludes);
      forall name | OneLine(lower(name))
        ensures m.Matches(lower(name)) <==> Allowed(patterns, lower, lower(name))
      {
        SignsAreRead(patterns, lower, lower(name));
        CompiledMatches(patterns, lower, includes, false, lower(name));
        CompiledMatches(patterns, lower, excludes, true, lower(name));
      }
  }

  /** The order of the patterns, and how often each is given, does not matter, for any name at all. */
  lemma OrderDoesNotMatter(a: seq<string>, b: seq<string>, lower: string -> string,
                           m: HeaderMatcher, n: HeaderMatcher, folded: string)
    requires m.Globs? && Compiled(a, lower, m.includes, false) && Compiled(a, lower, m.excludes, true)
    requires n.Globs? && Compiled(b, lower, n.includes, false) && Compiled(b, lower, n.excludes, true)
    requires forall p :: p in a <==> p in b
    ensures m.Matches(folded) <==> n.Matches(folded)
  {
    SameRegexes(a, b, lower, m.includes, n.includes, false);
    SameRegexes(a, b, lower, m.excludes, n.excludes, true);
  }

  lemma SameRegexes(a: seq<string>, b: seq<string>, lower: string -> string,
                    r: seq<string>, q: seq<string>, exclude: bool)
    requires Compiled(a, lower, r, exclude) && Compiled(b, lower, q, exclude)
    requires forall p :: p in a <==> p in b
    ensures forall x :: x in r <==> x in q
  {
    forall x
      ensures x in r <==> x in q
    {
      if x in r {
        var p :| p in a && IsExclude(p) == exclude && x == GlobToRegex(lower(Body(p)));
      }
      if x in q {
        var p :| p in b && IsExclude(p) == exclude && x == GlobToRegex(lower(Body(p)));
      }
    }
  }
}
