/** String matchers and their factory (`src/pattern/string_matcher.rs`, `src/pattern/factory.rs`,
    `src/pattern/whitespace.rs`). The regex and glob engines are parameters. */
module Patterns {
  import opened Wrappers
  import opened Text
  import opened Escaping

  datatype Modifier = NoModifier | Contains | Prefix | Suffix | AllPatterns | Regex | Keyword

  /** Compiling a pattern gives a test on values, or fails; `identifiers` is the glob used on detection names. */
  datatype Engine = Engine(
    regex: string -> Option<string -> bool>,
    glob: string -> Option<string -> bool>,
    identifiers: string -> Option<string -> bool>)

  datatype StringMatcher =
    | ContentPattern(token: string, noCollapseWs: bool)
    | PrefixPattern(token: string, noCollapseWs: bool)
    | SuffixPattern(token: string, noCollapseWs: bool)
    | RegexPattern(test: string -> bool)
    | GlobPattern(test: string -> bool, noCollapseWs: bool)
    | StringMatchers(matchers: seq<StringMatcher>)
    | StringMatchersConj(matchers: seq<StringMatcher>)
  {
    predicate StringMatch(value: string) {
      match this
      case ContentPattern(token, nc) => HandleWhitespace(value, nc) == token
      case PrefixPattern(token, nc) => token <= HandleWhitespace(value, nc)
      case SuffixPattern(token, nc) => EndsWith(HandleWhitespace(value, nc), token)
      case RegexPattern(test) => test(value)
      case GlobPattern(test, nc) => test(HandleWhitespace(value, nc))
      case StringMatchers(ms) => exists i :: 0 <= i < |ms| && ms[i].StringMatch(value)
      case StringMatchersConj(ms) => forall i :: 0 <= i < |ms| ==> ms[i].StringMatch(value)
    }
  }

  predicate EndsWith(s: string, end: string) {
    |end| <= |s| && s[|s| - |end|..] == end
  }

  /** Every whitespace run becomes one space. */
  function CollapseWhitespace(s: string): string
    decreases |s|
  {
    if s == "" then ""
    else if IsWhitespace(s[0]) then " " + CollapseWhitespace(TrimStart(s))
    else [s[0]] + CollapseWhitespace(s[1..])
  }

  predicate HasIrregularWhitespace(s: string) {
    || (exists i :: 0 <= i < |s| && IsWhitespace(s[i]) && s[i] != ' ')
    || (exists i :: 0 <= i < |s| - 1 && s[i] == ' ' && s[i + 1] == ' ')
  }

  function HandleWhitespace(s: string, noCollapseWs: bool): string {
    if noCollapseWs || !HasIrregularWhitespace(s) then s else CollapseWhitespace(s)
  }

  /** The matcher of one pattern; none when the regex or glob does not compile. */
  function SingleMatcher(engine: Engine, modifier: Modifier, noCollapseWs: bool, pattern: string)
    : Option<StringMatcher>
  {
    match modifier
    case Regex => RegexOf(engine, pattern)
    case Contains => GlobOf(engine, "*" + Escaped(pattern) + "*", noCollapseWs)
    case Suffix => Some(SuffixPattern(pattern, noCollapseWs))
    case Prefix => Some(PrefixPattern(pattern, noCollapseWs))
    case _ =>
      if |pattern| > 2 && pattern[0] == '/' && pattern[|pattern| - 1] == '/' then
        RegexOf(engine, pattern[1..|pattern| - 1])
      else if modifier == Keyword then GlobOf(engine, "*" + Escaped(pattern) + "*", noCollapseWs)
      else if '*' in pattern then GlobOf(engine, Escaped(pattern), noCollapseWs)
      else Some(ContentPattern(pattern, noCollapseWs))
  }

  function RegexOf(engine: Engine, pattern: string): Option<StringMatcher> {
    match engine.regex(pattern)
    case None => None
    case Some(test) => Some(RegexPattern(test))
  }

  function GlobOf(engine: Engine, pattern: string, noCollapseWs: bool): Option<StringMatcher> {
    match engine.glob(pattern)
    case None => None
    case Some(test) => Some(GlobPattern(test, noCollapseWs))
  }

  /** One matcher for each pattern, if all compile. */
  function SingleMatchers(engine: Engine, modifier: Modifier, noCollapseWs: bool, patterns: seq<string>)
    : (r: Option<seq<StringMatcher>>)
    ensures r.Some?
            <==> forall i :: 0 <= i < |patterns| ==> SingleMatcher(engine, modifier, noCollapseWs, patterns[i]).Some?
    ensures r.Some? ==> |r.value| == |patterns|
    ensures r.Some?
            ==> forall i :: 0 <= i < |patterns|
                  ==> SingleMatcher(engine, modifier, noCollapseWs, patterns[i]) == Some(r.value[i])
  {
    if patterns == [] then Some([])
    else
      var n := |patterns| - 1;
      match (SingleMatchers(engine, modifier, noCollapseWs, patterns[..n]),
             SingleMatcher(engine, modifier, noCollapseWs, patterns[n]))
      case (Some(ms), Some(m)) => Some(ms + [m])
      case _ => None
  }

  /** The matcher of a pattern list: the only one, or any of them, or all of them. */
  function MatcherOf(engine: Engine, modifier: Modifier, all: bool, noCollapseWs: bool, patterns: seq<string>)
    : Option<StringMatcher>
  {
    if patterns == [] then None
    else match SingleMatchers(engine, modifier, noCollapseWs, patterns)
      case None => None
      case Some(ms) =>
        Some(if |ms| == 1 then ms[0] else if all then StringMatchersConj(ms) else StringMatchers(ms))
  }

  /** One pattern is its own matcher. */
  lemma MatcherOfOne(engine: Engine, modifier: Modifier, all: bool, noCollapseWs: bool, pattern: string)
    ensures MatcherOf(engine, modifier, all, noCollapseWs, [pattern])
            == SingleMatcher(engine, modifier, noCollapseWs, pattern)
  {
    var ms := SingleMatchers(engine, modifier, noCollapseWs, [pattern]);
    assert [pattern][0] == pattern;
    if ms.Some? {
      assert SingleMatcher(engine, modifier, noCollapseWs, pattern) == Some(ms.value[0]);
    }
  }

  /** `new_string_matcher`. */
  method NewStringMatcher(engine: Engine, modifier: Modifier, all: bool, noCollapseWs: bool, patterns: seq<string>)
    returns (r: Option<StringMatcher>)
    ensures r == MatcherOf(engine, modifier, all, noCollapseWs, patterns)
  {
    if patterns == [] {
      return None;
    }
    var matchers: seq<StringMatcher> := [];
    for i := 0 to |patterns|
      invariant |matchers| == i
      invariant forall j :: 0 <= j < i
                  ==> SingleMatcher(engine, modifier, noCollapseWs, patterns[j]) == Some(matchers[j])
    {
      var matcher := SingleMatcher(engine, modifier, noCollapseWs, patterns[i]);
      if matcher == None {
        return None;
      }
      matchers := matchers + [matcher.value];
    }
    assert SingleMatchers(engine, modifier, noCollapseWs, patterns).value == matchers;
    if |matchers| == 1 {
      return Some(matchers[0]);
    } else if all {
      return Some(StringMatchersConj(matchers));
    } else {
      return Some(StringMatchers(matchers));
    }
  }

  /** What a list means: with the all flag every pattern must match, without it one is enough; a single pattern is
      its own matcher either way. */
  lemma MatcherMeaning(engine: Engine, modifier: Modifier, all: bool, noCollapseWs: bool, patterns: seq<string>,
                       value: string)
    requires MatcherOf(engine, modifier, all, noCollapseWs, patterns).Some?
    ensures var ms := SingleMatchers(engine, modifier, noCollapseWs, patterns);
      && ms.Some?
      && var verdict := MatcherOf(engine, modifier, all, noCollapseWs, patterns).value.StringMatch(value);
      verdict <==> if all then forall i :: 0 <= i < |ms.value| ==> ms.value[i].StringMatch(value)
                   else exists i :: 0 <= i < |ms.value| && ms.value[i].StringMatch(value)
  {
    var ms := SingleMatchers(engine, modifier, noCollapseWs, patterns).value;
    if |ms| == 1 {
      assert ms[0] == MatcherOf(engine, modifier, all, noCollapseWs, patterns).value;
    }
  }
}
