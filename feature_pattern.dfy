/** The `features` selection of the verify-features goal: each user token is a glob
    over `name/version` ids, rewritten into java.util.regex syntax and compiled into one
    alternation. The regular expressions are modelled only as far as that rewriting can
    produce them: literals, an escaped character, `.` and `.*`. */
module FeaturePattern {
  import opened Wrappers
  import opened JavaStrings

  /** Characters that java.util.regex gives a meaning and that the rewriting leaves
      as they are; a token holding one of them is outside this model. */
  const RegexMetacharacters: set<char> :=
    {'\\', '|', '+', '?', '(', ')', '[', ']', '{', '}', '^', '$'}

  predicate PlainToken(token: string) {
    forall i :: 0 <= i < |token| ==> token[i] !in RegexMetacharacters
  }

  predicate PlainTokens(tokens: seq<string>) {
    forall i :: 0 <= i < |tokens| ==> PlainToken(tokens[i])
  }

  /** The characters `.` and `.*` never match (java.util.regex without DOTALL). */
  predicate LineTerminator(c: char) {
    c == '\n' || c == '\r' || c == '\U{0085}' || c == '\U{2028}' || c == '\U{2029}'
  }

  predicate SingleLine(s: string) {
    forall i :: 0 <= i < |s| ==> !LineTerminator(s[i])
  }

  // ---------------------------------------------------------------------------
  // The reference meaning of a token: a glob
  // ---------------------------------------------------------------------------

  /** `glob` matches all of `s`: `*` stands for any run of characters on one line,
      every other character (`.` included) for itself. */
  predicate GlobMatches(glob: string, s: string)
    decreases |glob|
  {
    if glob == [] then s == []
    else if glob[0] == '*' then
      exists k :: 0 <= k <= |s| && SingleLine(s[..k]) && GlobMatches(glob[1..], s[k..])
    else s != [] && s[0] == glob[0] && GlobMatches(glob[1..], s[1..])
  }

  /** The glob a token stands for: without a `/` it names every version of a feature. */
  function EffectiveGlob(token: string): string {
    if '/' in token then token else token + "/*"
  }

  /** Some token of the `features` parameter selects `id`. */
  predicate Selected(tokens: seq<string>, id: string) {
    exists i :: 0 <= i < |tokens| && GlobMatches(EffectiveGlob(tokens[i]), id)
  }

  // ---------------------------------------------------------------------------
  // Building the pattern text
  // ---------------------------------------------------------------------------

  /** `token.replaceAll("\\.", "\\\\.").replaceAll("\\*", ".*")` */
  function Escape(token: string): string {
    ReplaceChar(ReplaceChar(token, '.', "\\."), '*', ".*")
  }

  /** The text one token contributes to the pattern. */
  function Alternative(token: string): (alt: string)
    ensures |alt| > 0
  {
    Escape(token) + (if '/' in token then "" else "/.*")
  }

  function Alternatives(tokens: seq<string>): (alts: seq<string>)
    ensures |alts| == |tokens|
    ensures forall i :: 0 <= i < |tokens| ==> alts[i] == Alternative(tokens[i])
  {
    seq(|tokens|, i requires 0 <= i < |tokens| => Alternative(tokens[i]))
  }

  /** The text handed to `Pattern.compile`. */
  function PatternText(tokens: seq<string>): string {
    Join(Alternatives(tokens), '|')
  }

  /** The StringBuilder loop of `execute` that assembles the pattern: a `|` before every
      alternative but the first. */
  method BuildPattern(tokens: seq<string>) returns (pattern: string)
    ensures pattern == PatternText(tokens)
  {
    pattern := "";
    for i := 0 to |tokens|
      invariant pattern == PatternText(tokens[..i])
      invariant |pattern| > 0 <==> i > 0
    {
      var feature := tokens[i];
      PatternTextStep(tokens, i);
      if |pattern| > 0 {
        pattern := pattern + "|";
      }
      var p := ReplaceChar(ReplaceChar(feature, '.', "\\."), '*', ".*");
      pattern := pattern + p;
      if '/' !in feature {
        pattern := pattern + "/.*";
      }
    }
    assert tokens[..|tokens|] == tokens;
  }

  /** One more token adds a `|` (unless it is the first) and its alternative. */
  lemma PatternTextStep(tokens: seq<string>, i: nat)
    requires i < |tokens|
    ensures PatternText(tokens[..i + 1])
         == (if i == 0 then "" else PatternText(tokens[..i]) + "|") + Alternative(tokens[i])
    ensures |PatternText(tokens[..i + 1])| > 0
  {
    assert Alternatives(tokens[..i + 1]) == Alternatives(tokens[..i]) + [Alternative(tokens[i])];
    if i > 0 {
      JoinAppend(Alternatives(tokens[..i]), Alternative(tokens[i]), '|');
    } else {
      assert tokens[..i + 1] == [tokens[i]];
    }
  }

  // ---------------------------------------------------------------------------
  // The compiled pattern
  // ---------------------------------------------------------------------------

  datatype Atom = Literal(c: char) | AnyChar | AnySequence

  /** Prefix every parse of the rest with `atoms`. */
  function Prefix(atoms: seq<Atom>, rest: Option<seq<Atom>>): Option<seq<Atom>> {
    match rest
    case None => None
    case Some(r) => Some(atoms + r)
  }

  /** One alternative of the regular expression, or None outside the modelled syntax:
      `\x` for a non-alphanumeric `x` is `x` itself, `.*` any run, a lone `.` any
      character. */
  function ParseAlternative(s: string): Option<seq<Atom>> {
    if s == [] then Some([])
    else if s[0] == '\\' then
      if |s| >= 2 && !('a' <= s[1] <= 'z' || 'A' <= s[1] <= 'Z' || '0' <= s[1] <= '9')
      then Prefix([Literal(s[1])], ParseAlternative(s[2..]))
      else None
    else if s[0] == '.' then
      if |s| >= 2 && s[1] == '*' then Prefix([AnySequence], ParseAlternative(s[2..]))
      else Prefix([AnyChar], ParseAlternative(s[1..]))
    else if s[0] in RegexMetacharacters || s[0] == '*' then None
    else Prefix([Literal(s[0])], ParseAlternative(s[1..]))
  }

  function ParseAll(texts: seq<string>): Option<seq<seq<Atom>>> {
    if texts == [] then Some([])
    else
      var first, rest := ParseAlternative(texts[0]), ParseAll(texts[1..]);
      if first.Some? && rest.Some? then Some([first.value] + rest.value) else None
  }

  /** `Pattern.compile(text)`: the `|`-separated alternatives. */
  function Compile(text: string): Option<seq<seq<Atom>>> {
    ParseAll(Split(text, '|'))
  }

  /** `atoms` match all of `s`. */
  predicate MatchesAtoms(atoms: seq<Atom>, s: string)
    decreases |atoms|
  {
    if atoms == [] then s == []
    else
      match atoms[0]
      case Literal(c) => s != [] && s[0] == c && MatchesAtoms(atoms[1..], s[1..])
      case AnyChar => s != [] && !LineTerminator(s[0]) && MatchesAtoms(atoms[1..], s[1..])
      case AnySequence =>
        exists k :: 0 <= k <= |s| && SingleLine(s[..k]) && MatchesAtoms(atoms[1..], s[k..])
  }

  /** `pattern.matcher(s).matches()`: some alternative matches the whole of `s`. */
  predicate Matches(alternatives: seq<seq<Atom>>, s: string) {
    exists i :: 0 <= i < |alternatives| && MatchesAtoms(alternatives[i], s)
  }

  // ---------------------------------------------------------------------------
  // The compiled pattern means what the globs mean
  // ---------------------------------------------------------------------------

  /** The atoms a glob denotes. */
  function GlobAtoms(glob: string): (atoms: seq<Atom>)
    ensures |atoms| == |glob|
  {
    seq(|glob|, i requires 0 <= i < |glob| => if glob[i] == '*' then AnySequence else Literal(glob[i]))
  }

  lemma {:induction false} GlobAtomsMatch(glob: string, s: string)
    ensures MatchesAtoms(GlobAtoms(glob), s) <==> GlobMatches(glob, s)
    decreases |glob|
  {
    if glob != [] {
      var atoms := GlobAtoms(glob);
      assert atoms[1..] == GlobAtoms(glob[1..]);
      if glob[0] == '*' {
        forall k | 0 <= k <= |s|
          ensures MatchesAtoms(atoms[1..], s[k..]) <==> GlobMatches(glob[1..], s[k..])
        {
          GlobAtomsMatch(glob[1..], s[k..]);
        }
      } else if s != [] {
        GlobAtomsMatch(glob[1..], s[1..]);
      }
    }
  }

  /** Escaping one character and the rest separately. */
  lemma EscapeCons(c: char, token: string)
    ensures Escape([c] + token) == Escape([c]) + Escape(token)
  {
    ReplaceCharAppend([c], token, '.', "\\.");
    ReplaceCharAppend(ReplaceChar([c], '.', "\\."), ReplaceChar(token, '.', "\\."), '*', ".*");
  }

  lemma PrefixPrefix(a: seq<Atom>, b: seq<Atom>, rest: Option<seq<Atom>>)
    ensures Prefix(a, Prefix(b, rest)) == Prefix(a + b, rest)
  {
    if rest.Some? {
      assert a + (b + rest.value) == (a + b) + rest.value;
    }
  }

  /** How one character is escaped. */
  lemma EscapeChar(c: char)
    ensures Escape([c]) == if c == '.' then "\\." else if c == '*' then ".*" else [c]
  {
    var dotted := ReplaceChar([c], '.', "\\.");
    assert [c][1..] == [];
    assert ReplaceChar([c][1..], '.', "\\.") == [];
    assert dotted == (if c == '.' then "\\." else [c]) + [];
    if c == '.' {
      var dot := dotted[1..];
      assert dotted[0] == '\\' && dot == ".";
      assert dot[1..] == [] && ReplaceChar(dot[1..], '*', ".*") == [];
      assert ReplaceChar(dot, '*', ".*") == "." + [];
      assert ReplaceChar(dotted, '*', ".*") == "\\" + ".";
    } else {
      assert ReplaceChar([c][1..], '*', ".*") == [];
      assert ReplaceChar(dotted, '*', ".*") == (if c == '*' then ".*" else [c]) + [];
    }
  }

  /** One escaped character parses back to its glob atom. */
  lemma ParseEscapedChar(c: char, rest: string)
    requires c !in RegexMetacharacters
    ensures ParseAlternative(Escape([c]) + rest) == Prefix(GlobAtoms([c]), ParseAlternative(rest))
  {
    var text := Escape([c]) + rest;
    EscapeChar(c);
    if c == '.' {
      assert Escape([c]) == "\\.";
      assert text[0] == '\\' && text[1] == '.' && text[2..] == rest;
      assert ParseAlternative(text) == Prefix([Literal('.')], ParseAlternative(rest));
      assert GlobAtoms([c]) == [Literal('.')];
    } else if c == '*' {
      assert Escape([c]) == ".*";
      assert text[0] == '.' && text[1] == '*' && text[2..] == rest;
      assert ParseAlternative(text) == Prefix([AnySequence], ParseAlternative(rest));
      assert GlobAtoms([c]) == [AnySequence];
    } else {
      assert Escape([c]) == [c];
      assert text[0] == c && text[1..] == rest;
      assert ParseAlternative(text) == Prefix([Literal(c)], ParseAlternative(rest));
      assert GlobAtoms([c]) == [Literal(c)];
    }
  }

  lemma PrefixNothing(rest: Option<seq<Atom>>)
    ensures Prefix([], rest) == rest
  {
    if rest.Some? {
      assert [] + rest.value == rest.value;
    }
  }

  lemma PlainTail(token: string)
    requires token != [] && PlainToken(token)
    ensures PlainToken(token[1..])
  {
    forall i | 0 <= i < |token[1..]| ensures token[1..][i] !in RegexMetacharacters {
      assert token[1..][i] == token[i + 1];
    }
  }

  lemma GlobAtomsCons(token: string)
    requires token != []
    ensures GlobAtoms(token) == GlobAtoms([token[0]]) + GlobAtoms(token[1..])
  {
  }

  /** The escaped text of a plain token parses back to the token's glob atoms. */
  lemma {:induction false} ParseEscaped(token: string, rest: string)
    requires PlainToken(token)
    ensures ParseAlternative(Escape(token) + rest) == Prefix(GlobAtoms(token), ParseAlternative(rest))
  {
    if token == [] {
      assert Escape(token) + rest == rest;
      PrefixNothing(ParseAlternative(rest));
    } else {
      var c, tail := token[0], token[1..];
      assert token == [c] + tail;
      EscapeCons(c, tail);
      PlainTail(token);
      assert Escape(token) + rest == Escape([c]) + (Escape(tail) + rest);
      ParseEscapedChar(c, Escape(tail) + rest);
      ParseEscaped(tail, rest);
      PrefixPrefix(GlobAtoms([c]), GlobAtoms(tail), ParseAlternative(rest));
      GlobAtomsCons(token);
    }
  }

  /** Every token's alternative parses to the atoms of its effective glob. */
  lemma AlternativeParses(token: string)
    requires PlainToken(token)
    ensures ParseAlternative(Alternative(token)) == Some(GlobAtoms(EffectiveGlob(token)))
  {
    ParseEscaped(token, if '/' in token then "" else "/.*");
    if '/' in token {
      assert Alternative(token) == Escape(token) + "";
      assert GlobAtoms(token) + [] == GlobAtoms(token);
    } else {
      var rest, any := "/.*", ".*";
      assert any[0] == '.' && any[1] == '*' && any[2..] == [];
      assert ParseAlternative(any[2..]) == Some([]);
      assert [AnySequence] + [] == [AnySequence];
      assert ParseAlternative(any) == Some([AnySequence]);
      assert [Literal('/')] + [AnySequence] == [Literal('/'), AnySequence];
      assert rest[0] == '/' && rest[1..] == any;
      assert ParseAlternative(rest) == Some([Literal('/'), AnySequence]);
      assert GlobAtoms(token + "/*") == GlobAtoms(token) + [Literal('/'), AnySequence];
    }
  }

  /** No alternative holds the `|` that separates them. */
  lemma AlternativeHasNoBar(token: string)
    requires PlainToken(token)
    ensures '|' !in Alternative(token)
  {
    ReplaceCharMembers(token, '.', "\\.", '|');
    ReplaceCharMembers(ReplaceChar(token, '.', "\\."), '*', ".*", '|');
  }

  /** The atoms of every token's effective glob. */
  function TokenAtoms(tokens: seq<string>): (atoms: seq<seq<Atom>>)
    ensures |atoms| == |tokens|
    ensures forall i :: 0 <= i < |tokens| ==> atoms[i] == GlobAtoms(EffectiveGlob(tokens[i]))
  {
    seq(|tokens|, i requires 0 <= i < |tokens| => GlobAtoms(EffectiveGlob(tokens[i])))
  }

  lemma PlainTokensTail(tokens: seq<string>)
    requires tokens != [] && PlainTokens(tokens)
    ensures PlainToken(tokens[0]) && PlainTokens(tokens[1..])
  {
    forall i | 0 <= i < |tokens[1..]| ensures PlainToken(tokens[1..][i]) {
      assert tokens[1..][i] == tokens[i + 1];
    }
  }

  lemma AlternativesCons(tokens: seq<string>)
    requires tokens != []
    ensures Alternatives(tokens) == [Alternative(tokens[0])] + Alternatives(tokens[1..])
  {
    var a, b := Alternatives(tokens), [Alternative(tokens[0])] + Alternatives(tokens[1..]);
    forall i | 0 <= i < |a| ensures a[i] == b[i] {
      if i > 0 {
        assert tokens[1..][i - 1] == tokens[i];
      }
    }
  }

  lemma TokenAtomsCons(tokens: seq<string>)
    requires tokens != []
    ensures TokenAtoms(tokens) == [GlobAtoms(EffectiveGlob(tokens[0]))] + TokenAtoms(tokens[1..])
  {
    var a, b := TokenAtoms(tokens), [GlobAtoms(EffectiveGlob(tokens[0]))] + TokenAtoms(tokens[1..]);
    forall i | 0 <= i < |a| ensures a[i] == b[i] {
      if i > 0 {
        assert tokens[1..][i - 1] == tokens[i];
      }
    }
  }

  lemma ParseAllCons(texts: seq<string>, first: seq<Atom>, rest: seq<seq<Atom>>)
    requires texts != []
    requires ParseAlternative(texts[0]) == Some(first) && ParseAll(texts[1..]) == Some(rest)
    ensures ParseAll(texts) == Some([first] + rest)
  {
  }

  lemma {:induction false} ParseAllAlternatives(tokens: seq<string>)
    requires PlainTokens(tokens)
    ensures ParseAll(Alternatives(tokens)) == Some(TokenAtoms(tokens))
  {
    if tokens != [] {
      PlainTokensTail(tokens);
      AlternativesCons(tokens);
      TokenAtomsCons(tokens);
      ParseAllAlternatives(tokens[1..]);
      AlternativeParses(tokens[0]);
      ParseAllCons(Alternatives(tokens), GlobAtoms(EffectiveGlob(tokens[0])), TokenAtoms(tokens[1..]));
    }
  }

  /** The central property of the selection: for tokens within the modelled syntax the
      pattern compiles, and a feature id matches it exactly when some token's glob, with
      `.` a literal dot, `*` any run and a `/` and a star added to a version-less token, matches it. */
  lemma PatternMeansGlobs(tokens: seq<string>)
    requires tokens != [] && PlainTokens(tokens)
    ensures Compile(PatternText(tokens)).Some?
    ensures forall id :: Matches(Compile(PatternText(tokens)).value, id) <==> Selected(tokens, id)
  {
    var alts := Alternatives(tokens);
    forall i | 0 <= i < |alts| ensures '|' !in alts[i] {
      AlternativeHasNoBar(tokens[i]);
    }
    SplitJoin(alts, '|');
    ParseAllAlternatives(tokens);
    var compiled := Compile(PatternText(tokens)).value;
    forall id ensures Matches(compiled, id) <==> Selected(tokens, id) {
      forall i | 0 <= i < |tokens|
        ensures MatchesAtoms(compiled[i], id) <==> GlobMatches(EffectiveGlob(tokens[i]), id)
      {
        GlobAtomsMatch(EffectiveGlob(tokens[i]), id);
      }
    }
  }

  // ---------------------------------------------------------------------------
  // What the globs select
  // ---------------------------------------------------------------------------

  /** Globs compose: matching the parts matches the concatenation. */
  lemma {:induction false} GlobConcat(g1: string, g2: string, s1: string, s2: string)
    requires GlobMatches(g1, s1) && GlobMatches(g2, s2)
    ensures GlobMatches(g1 + g2, s1 + s2)
    decreases |g1|
  {
    var g, s := g1 + g2, s1 + s2;
    if g1 == [] {
      assert g == g2 && s == s2;
    } else {
      assert g[0] == g1[0] && g[1..] == g1[1..] + g2;
      if g1[0] == '*' {
        var k :| 0 <= k <= |s1| && SingleLine(s1[..k]) && GlobMatches(g1[1..], s1[k..]);
        GlobConcat(g1[1..], g2, s1[k..], s2);
        assert s[..k] == s1[..k];
        assert s[k..] == s1[k..] + s2;
      } else {
        GlobConcat(g1[1..], g2, s1[1..], s2);
        assert s[1..] == s1[1..] + s2;
      }
    }
  }

  /** A token without `/` that matches a feature name selects every version of it. */
  lemma VersionlessTokenSelectsEveryVersion(token: string, name: string, version: string)
    requires '/' !in token && GlobMatches(token, name)
    requires SingleLine(version)
    ensures GlobMatches(EffectiveGlob(token), name + "/" + version)
  {
    var star := "*";
    assert star[1..] == [];
    assert version[..|version|] == version && version[|version|..] == [];
    assert GlobMatches(star, version);
    var slash := "/";
    assert GlobMatches("/", "/") by {
      assert slash[1..] == [];
    }
    GlobConcat("/", "*", "/", version);
    assert "/" + "*" == "/*";
    GlobConcat(token, "/*", name, "/" + version);
    assert name + ("/" + version) == name + "/" + version;
  }

  /** Without `*` a glob matches only itself: `.` is a literal dot, not any character. */
  lemma {:induction false} StarFreeGlobMatchesItself(glob: string, s: string)
    requires '*' !in glob
    ensures GlobMatches(glob, s) <==> s == glob
  {
    if glob != [] {
      assert glob[0] != '*';
      assert '*' !in glob[1..];
      if s != [] {
        StarFreeGlobMatchesItself(glob[1..], s[1..]);
        assert s == [s[0]] + s[1..] && glob == [glob[0]] + glob[1..];
      }
    }
  }
}
