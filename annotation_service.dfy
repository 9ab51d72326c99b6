/**
 * AnnotationService: cover the tokens of a caption with the longest runs that the dictionary
 * knows, keep the matches the user wants annotated, and render one definition line per
 * dictionary entry of a match.
 */
module AnnotationService {
  import opened Wrappers
  import opened JavaLang
  import opened Languages
  import opened LangParser
  import opened JijiDictionary
  import opened DictionaryMatches
  import opened LangRulesJapanese
  import opened Subtitles

  /** POS_TAGS_NOT_WORD: tags of tokens that are not words. */
  predicate IsNotWord(tag: PosTag) {
    tag == PUNCT || tag == SYM || tag == NUM || tag == X
  }

  /**
   * What the service is built from: the dictionary lookup, the parser's word separator, whether
   * language rules were loaded, the user's configuration, the tags of a match and the parser.
   */
  datatype Env = Env(
    search: string -> seq<JijiDictionaryEntry>,
    wordSeparator: string,
    rules: bool,
    partOfSpeechToAnnotate: set<PosTag>,
    ignoreWords: seq<string>,
    ignoreTags: seq<string>,
    tagsOf: DictionaryMatch -> seq<string>,
    displayOtherLemma: Option<bool>,
    parse: string -> seq<TextToken>)

  /**
   * The constructor's choice of language rules: the class "LangRules" + the language's name is
   * loaded when it exists, and LangRulesJapanese is the only one.
   */
  predicate HasLangRules(l: Language) {
    ParserName(l) == "Japanese"
  }

  lemma HasLangRulesOnlyJapanese(l: Language)
    ensures HasLangRules(l) <==> l == Japanese
  {
    if HasLangRules(l) {
      ParserNameInjective(l, Japanese);
    }
  }

  // ---------------------------------------------------------------- looking up a run of tokens

  function LowerTextForms(tokens: seq<TextToken>): (r: seq<string>)
    ensures |r| == |tokens| && forall i :: 0 <= i < |tokens| ==> r[i] == ToLower(tokens[i].textForm)
  {
    seq(|tokens|, i requires 0 <= i < |tokens| => ToLower(tokens[i].textForm))
  }

  /** The keys dictionaryMatch tries, in order: first canonical forms, lower-cased text, second canonical forms. */
  function LookupKeys(tokens: seq<TextToken>, ws: string): seq<string> {
    [Join(FirstForms(tokens), ws), Join(LowerTextForms(tokens), ws), Join(SecondForms(tokens), ws)]
  }

  /**
   * dictionaryMatch: the match of the tokens under the first key with a non-empty lookup, with
   * all the entries found there; None for no tokens or when every key misses.
   */
  function DictionaryMatchOf(env: Env, tokens: seq<TextToken>): (r: Option<DictionaryMatch>)
    ensures r.None? <==> |tokens| == 0 || forall i :: 0 <= i < 3 ==> |env.search(LookupKeys(tokens, env.wordSeparator)[i])| == 0
    ensures r.Some? ==> r.value.tokens == tokens && r.value.wordSeparator == env.wordSeparator
    ensures r.Some? ==>
              exists i :: 0 <= i < 3 && r.value.dictionaryEntries == env.search(LookupKeys(tokens, env.wordSeparator)[i])
                && |r.value.dictionaryEntries| > 0
                && forall j :: 0 <= j < i ==> |env.search(LookupKeys(tokens, env.wordSeparator)[j])| == 0
  {
    if |tokens| == 0 then None
    else
      var ws := env.wordSeparator;
      var keys := LookupKeys(tokens, ws);
      if |env.search(keys[0])| > 0 then Some(DictionaryMatch(tokens, env.search(keys[0]), ws))
      else if |env.search(keys[1])| > 0 then Some(DictionaryMatch(tokens, env.search(keys[1]), ws))
      else if |env.search(keys[2])| > 0 then Some(DictionaryMatch(tokens, env.search(keys[2]), ws))
      else None
  }

  /**
   * The inner loop of getDictionaryMatches: try the first n tokens, then one fewer, and so on,
   * and stop at the first run the dictionary knows. It is the longest such run of at most n.
   */
  function LongestMatch(env: Env, tokens: seq<TextToken>, n: nat): (r: Option<DictionaryMatch>)
    requires n <= |tokens|
    ensures r.Some? ==> 1 <= |r.value.tokens| <= n && r.value.tokens == tokens[..|r.value.tokens|]
                        && DictionaryMatchOf(env, r.value.tokens) == r
    ensures r.Some? ==> forall j :: |r.value.tokens| < j <= n ==> DictionaryMatchOf(env, tokens[..j]).None?
    ensures r.None? ==> forall j :: 0 <= j <= n ==> DictionaryMatchOf(env, tokens[..j]).None?
  {
    if n == 0 then None
    else
      match DictionaryMatchOf(env, tokens[..n])
      case Some(m) => Some(m)
      case None => LongestMatch(env, tokens, n - 1)
  }

  /** What getDictionaryMatches returns for the tokens left to cover. */
  function Matches(env: Env, tokens: seq<TextToken>): seq<DictionaryMatch>
    decreases |tokens|
  {
    if |tokens| == 0 then []
    else if IsNotWord(tokens[0].posTag) then Matches(env, tokens[1..])
    else
      match LongestMatch(env, tokens, |tokens|)
      case None => Matches(env, tokens[1..])
      case Some(m) =>
        if env.rules && !IsValidMatch(m) then Matches(env, tokens[1..])
        else [m] + Matches(env, tokens[|m.tokens|..])
  }

  /** The tokens getDictionaryMatches covers: the parse, merged by the language rules when loaded. */
  function PreparedTokens(env: Env, caption: string): seq<TextToken> {
    if env.rules then Filtered(env.parse(caption)) else env.parse(caption)
  }

  /** getDictionaryMatches. */
  method GetDictionaryMatches(env: Env, caption: string) returns (matches: seq<DictionaryMatch>)
    ensures matches == Matches(env, PreparedTokens(env, caption))
  {
    var captionTokens := env.parse(caption);
    if env.rules {
      captionTokens := FilterTokens(captionTokens);
    }
    ghost var all := captionTokens;
    matches := [];
    while |captionTokens| > 0
      invariant matches + Matches(env, captionTokens) == Matches(env, all)
      decreases |captionTokens|
    {
      var found, rest := NextMatch(env, captionTokens);
      var emitted := if found.Some? then [found.value] else [];
      ConcatStep(matches, emitted, Matches(env, rest), Matches(env, captionTokens), Matches(env, all));
      matches := matches + emitted;
      captionTokens := rest;
    }
    assert matches + [] == matches;
  }

  lemma ConcatStep<T>(done: seq<T>, emitted: seq<T>, tail: seq<T>, todo: seq<T>, total: seq<T>)
    requires done + todo == total && todo == emitted + tail
    ensures (done + emitted) + tail == total
  {
  }

  /**
   * One turn of the outer loop of getDictionaryMatches: skip a non-word token, or find the
   * longest known run at the head; emit it when it is valid, otherwise skip one token.
   */
  method NextMatch(env: Env, captionTokens: seq<TextToken>) returns (found: Option<DictionaryMatch>, rest: seq<TextToken>)
    requires |captionTokens| > 0
    ensures |rest| < |captionTokens|
    ensures Matches(env, captionTokens) == (if found.Some? then [found.value] else []) + Matches(env, rest)
  {
    if IsNotWord(captionTokens[0].posTag) {
      return None, captionTokens[1..];
    }
    found := LongestKnownRun(env, captionTokens);
    if found.None? || (env.rules && !IsValidMatch(found.value)) {
      return None, captionTokens[1..];
    }
    rest := captionTokens[|found.value.tokens|..];
  }

  /** The inner loop of getDictionaryMatches: drop the last token until the dictionary knows the run. */
  method LongestKnownRun(env: Env, captionTokens: seq<TextToken>) returns (found: Option<DictionaryMatch>)
    ensures found == LongestMatch(env, captionTokens, |captionTokens|)
  {
    var maximumTokens := captionTokens;
    found := DictionaryMatchOf(env, maximumTokens);
    assert captionTokens[..|captionTokens|] == captionTokens;
    while found.None? && |maximumTokens| > 0
      invariant |maximumTokens| <= |captionTokens| && maximumTokens == captionTokens[..|maximumTokens|]
      invariant found == DictionaryMatchOf(env, maximumTokens)
      invariant LongestMatch(env, captionTokens, |captionTokens|) ==
                (if found.Some? then found else LongestMatch(env, captionTokens, |maximumTokens|))
      decreases |maximumTokens|
    {
      var n := |maximumTokens|;
      LongestMatchStep(env, captionTokens, n);
      maximumTokens := maximumTokens[..n - 1];
      assert maximumTokens == captionTokens[..n - 1];
      found := DictionaryMatchOf(env, maximumTokens);
    }
  }

  lemma LongestMatchStep(env: Env, tokens: seq<TextToken>, n: nat)
    requires 0 < n <= |tokens| && DictionaryMatchOf(env, tokens[..n]).None?
    ensures LongestMatch(env, tokens, n) == LongestMatch(env, tokens, n - 1)
  {
  }

  /**
   * m is a match the engine emits at the head of rest: a run of one or more tokens starting
   * rest, headed by a word, known to the dictionary, with no longer run of rest known to it, and
   * valid for the language rules.
   */
  ghost predicate GreedyAt(env: Env, rest: seq<TextToken>, m: DictionaryMatch) {
    1 <= |m.tokens| <= |rest| && rest[..|m.tokens|] == m.tokens
    && !IsNotWord(m.tokens[0].posTag)
    && DictionaryMatchOf(env, m.tokens) == Some(m)
    && (forall j :: |m.tokens| < j <= |rest| ==> DictionaryMatchOf(env, rest[..j]).None?)
    && (env.rules ==> IsValidMatch(m))
  }

  /**
   * The matches are disjoint runs of the tokens in order: match i starts at starts[i], ends
   * before the next one starts, and is greedy where it starts.
   */
  ghost predicate TiledAt(env: Env, ms: seq<DictionaryMatch>, tokens: seq<TextToken>, starts: seq<nat>) {
    |starts| == |ms|
    && (forall i :: 0 <= i < |ms| ==> starts[i] + |ms[i].tokens| <= |tokens| && GreedyAt(env, tokens[starts[i]..], ms[i]))
    && (forall i, j :: 0 <= i < j < |ms| ==> starts[i] + |ms[i].tokens| <= starts[j])
  }

  function Shifted(starts: seq<nat>, d: nat): (r: seq<nat>)
    ensures |r| == |starts| && forall i :: 0 <= i < |starts| ==> r[i] == starts[i] + d
  {
    seq(|starts|, i requires 0 <= i < |starts| => starts[i] + d)
  }

  lemma TiledShift(env: Env, ms: seq<DictionaryMatch>, tokens: seq<TextToken>, starts: seq<nat>)
    requires |tokens| > 0 && TiledAt(env, ms, tokens[1..], starts)
    ensures TiledAt(env, ms, tokens, Shifted(starts, 1))
  {
    forall i | 0 <= i < |ms|
      ensures starts[i] + 1 + |ms[i].tokens| <= |tokens| && GreedyAt(env, tokens[starts[i] + 1..], ms[i])
    {
      GreedyTransfer(env, tokens, 1, starts[i], ms[i]);
    }
  }

  lemma GreedyTransfer(env: Env, tokens: seq<TextToken>, d: nat, k: nat, m: DictionaryMatch)
    requires d + k <= |tokens| && GreedyAt(env, tokens[d..][k..], m)
    ensures GreedyAt(env, tokens[d + k..], m)
  {
    assert tokens[d..][k..] == tokens[d + k..];
  }

  lemma TiledPrepend(env: Env, m: DictionaryMatch, ms: seq<DictionaryMatch>, tokens: seq<TextToken>, starts: seq<nat>)
    requires GreedyAt(env, tokens, m)
    requires TiledAt(env, ms, tokens[|m.tokens|..], starts)
    ensures TiledAt(env, [m] + ms, tokens, [0] + Shifted(starts, |m.tokens|))
  {
    PrependGreedy(env, m, ms, tokens, starts);
    PrependOrdered(m, ms, starts);
  }

  lemma PrependGreedy(env: Env, m: DictionaryMatch, ms: seq<DictionaryMatch>, tokens: seq<TextToken>, starts: seq<nat>)
    requires GreedyAt(env, tokens, m)
    requires TiledAt(env, ms, tokens[|m.tokens|..], starts)
    ensures var all := [m] + ms;
            var st := [0] + Shifted(starts, |m.tokens|);
            forall i :: 0 <= i < |all| ==> st[i] + |all[i].tokens| <= |tokens| && GreedyAt(env, tokens[st[i]..], all[i])
  {
    forall i | 0 <= i < 1 + |ms|
      ensures ([0] + Shifted(starts, |m.tokens|))[i] + |([m] + ms)[i].tokens| <= |tokens|
      ensures GreedyAt(env, tokens[([0] + Shifted(starts, |m.tokens|))[i]..], ([m] + ms)[i])
    {
      PrependGreedyAt(env, m, ms, tokens, starts, i);
    }
  }

  lemma PrependGreedyAt(env: Env, m: DictionaryMatch, ms: seq<DictionaryMatch>, tokens: seq<TextToken>, starts: seq<nat>, i: nat)
    requires GreedyAt(env, tokens, m)
    requires |starts| == |ms| && i < 1 + |ms|
    requires i > 0 ==> starts[i - 1] + |ms[i - 1].tokens| <= |tokens[|m.tokens|..]|
                       && GreedyAt(env, tokens[|m.tokens|..][starts[i - 1]..], ms[i - 1])
    ensures ([0] + Shifted(starts, |m.tokens|))[i] + |([m] + ms)[i].tokens| <= |tokens|
    ensures GreedyAt(env, tokens[([0] + Shifted(starts, |m.tokens|))[i]..], ([m] + ms)[i])
  {
    if i == 0 {
      assert ([0] + Shifted(starts, |m.tokens|))[0] == 0 && ([m] + ms)[0] == m;
      GreedyAtWhole(env, tokens, m);
    } else {
      ShiftedIndex(m, ms, starts, i);
      PrependGreedyTail(env, m, tokens, starts[i - 1], ms[i - 1]);
    }
  }

  lemma GreedyAtWhole(env: Env, tokens: seq<TextToken>, m: DictionaryMatch)
    requires GreedyAt(env, tokens, m)
    ensures |m.tokens| <= |tokens| && GreedyAt(env, tokens[0..], m)
  {
    assert tokens[0..] == tokens;
  }

  lemma PrependGreedyTail(env: Env, m: DictionaryMatch, tokens: seq<TextToken>, start: nat, n: DictionaryMatch)
    requires |m.tokens| <= |tokens|
    requires start + |n.tokens| <= |tokens[|m.tokens|..]| && GreedyAt(env, tokens[|m.tokens|..][start..], n)
    ensures start + |m.tokens| + |n.tokens| <= |tokens| && GreedyAt(env, tokens[start + |m.tokens|..], n)
  {
    GreedyTransfer(env, tokens, |m.tokens|, start, n);
  }

  lemma ShiftedIndex(m: DictionaryMatch, ms: seq<DictionaryMatch>, starts: seq<nat>, i: nat)
    requires |starts| == |ms| && 0 < i < 1 + |ms|
    ensures ([0] + Shifted(starts, |m.tokens|))[i] == starts[i - 1] + |m.tokens|
    ensures ([m] + ms)[i] == ms[i - 1]
  {
  }

  lemma PrependOrdered(m: DictionaryMatch, ms: seq<DictionaryMatch>, starts: seq<nat>)
    requires |starts| == |ms|
    requires forall i, j :: 0 <= i < j < |ms| ==> starts[i] + |ms[i].tokens| <= starts[j]
    ensures var all := [m] + ms;
            var st := [0] + Shifted(starts, |m.tokens|);
            forall i, j :: 0 <= i < j < |all| ==> st[i] + |all[i].tokens| <= st[j]
  {
    var all := [m] + ms;
    var st := [0] + Shifted(starts, |m.tokens|);
    forall i, j | 0 <= i < j < |all|
      ensures st[i] + |all[i].tokens| <= st[j]
    {
      assert st[j] == starts[j - 1] + |m.tokens|;
      if i > 0 {
        assert all[i] == ms[i - 1] && st[i] == starts[i - 1] + |m.tokens|;
      }
    }
  }

  /**
   * The engine, standing at the head of rest, passes over that token without emitting a match:
   * it is not a word, or no run starting there is known, or the longest one is invalid.
   */
  ghost predicate Skipped(env: Env, rest: seq<TextToken>) {
    |rest| > 0
    && (IsNotWord(rest[0].posTag) || LongestMatch(env, rest, |rest|).None?
        || (env.rules && !IsValidMatch(LongestMatch(env, rest, |rest|).value)))
  }

  /** Token p lies inside the span of one of the matches. */
  ghost predicate InSpan(ms: seq<DictionaryMatch>, starts: seq<nat>, p: nat) {
    exists i :: 0 <= i < |ms| && i < |starts| && starts[i] <= p < starts[i] + |ms[i].tokens|
  }

  /** Every token is inside a match, or is one the engine skipped where it stood. */
  ghost predicate Covers(env: Env, ms: seq<DictionaryMatch>, tokens: seq<TextToken>, starts: seq<nat>) {
    forall p :: 0 <= p < |tokens| ==> InSpan(ms, starts, p) || Skipped(env, tokens[p..])
  }

  lemma CoverShift(env: Env, ms: seq<DictionaryMatch>, tokens: seq<TextToken>, starts: seq<nat>)
    requires Skipped(env, tokens) && |starts| == |ms| && Covers(env, ms, tokens[1..], starts)
    ensures Covers(env, ms, tokens, Shifted(starts, 1))
  {
    var st := Shifted(starts, 1);
    forall p | 0 <= p < |tokens|
      ensures InSpan(ms, st, p) || Skipped(env, tokens[p..])
    {
      if p == 0 {
        assert tokens[0..] == tokens;
      } else {
        assert tokens[1..][p - 1..] == tokens[p..];
        if InSpan(ms, starts, p - 1) {
          var i :| 0 <= i < |ms| && i < |starts| && starts[i] <= p - 1 < starts[i] + |ms[i].tokens|;
          assert st[i] <= p < st[i] + |ms[i].tokens|;
        }
      }
    }
  }

  lemma CoverPrepend(env: Env, m: DictionaryMatch, ms: seq<DictionaryMatch>, tokens: seq<TextToken>, starts: seq<nat>)
    requires 1 <= |m.tokens| <= |tokens| && |starts| == |ms|
    requires Covers(env, ms, tokens[|m.tokens|..], starts)
    ensures Covers(env, [m] + ms, tokens, [0] + Shifted(starts, |m.tokens|))
  {
    var all := [m] + ms;
    var st := [0] + Shifted(starts, |m.tokens|);
    forall p | 0 <= p < |tokens|
      ensures InSpan(all, st, p) || Skipped(env, tokens[p..])
    {
      var n := |m.tokens|;
      if p < n {
        assert st[0] <= p < st[0] + |all[0].tokens|;
      } else {
        assert tokens[n..][p - n..] == tokens[p..];
        if InSpan(ms, starts, p - n) {
          var i :| 0 <= i < |ms| && i < |starts| && starts[i] <= p - n < starts[i] + |ms[i].tokens|;
          assert st[i + 1] == starts[i] + n && all[i + 1] == ms[i];
        }
      }
    }
  }

  /**
   * Order, greediness and coverage: the matches getDictionaryMatches emits are non-overlapping
   * runs of the tokens in input order, each the longest known run where it starts and never
   * headed by a non-word token (the result gives where each one starts); and every token they
   * leave out is one the engine skipped, because it is not a word, no run from it is known, or
   * the longest run from it is invalid.
   */
  lemma {:induction false} MatchesTiled(env: Env, tokens: seq<TextToken>) returns (starts: seq<nat>)
    ensures TiledAt(env, Matches(env, tokens), tokens, starts)
    ensures Covers(env, Matches(env, tokens), tokens, starts)
    decreases |tokens|
  {
    if |tokens| == 0 {
      starts := [];
    } else {
      var lm := LongestMatch(env, tokens, |tokens|);
      if IsNotWord(tokens[0].posTag) || lm.None? || (env.rules && !IsValidMatch(lm.value)) {
        var rest := MatchesTiled(env, tokens[1..]);
        TiledShift(env, Matches(env, tokens[1..]), tokens, rest);
        CoverShift(env, Matches(env, tokens[1..]), tokens, rest);
        starts := Shifted(rest, 1);
      } else {
        var m := lm.value;
        var rest := MatchesTiled(env, tokens[|m.tokens|..]);
        assert Matches(env, tokens) == [m] + Matches(env, tokens[|m.tokens|..]);
        TiledPrepend(env, m, Matches(env, tokens[|m.tokens|..]), tokens, rest);
        CoverPrepend(env, m, Matches(env, tokens[|m.tokens|..]), tokens, rest);
        starts := [0] + Shifted(rest, |m.tokens|);
      }
    }
  }

  /** The matches cover no more tokens than there are. */
  lemma {:induction false} MatchesTokenCount(env: Env, tokens: seq<TextToken>)
    ensures |Matches(env, tokens)| <= |tokens|
    decreases |tokens|
  {
    if |tokens| > 0 {
      var lm := LongestMatch(env, tokens, |tokens|);
      if IsNotWord(tokens[0].posTag) || lm.None? || (env.rules && !IsValidMatch(lm.value)) {
        MatchesTokenCount(env, tokens[1..]);
      } else {
        MatchesTokenCount(env, tokens[|lm.value.tokens|..]);
      }
    }
  }

  /**
   * A longest run the language rules reject costs exactly one token: the engine goes on from the
   * next token, without trying the shorter runs at this one.
   */
  lemma InvalidMatchDropsOneToken(env: Env, tokens: seq<TextToken>)
    requires |tokens| > 0 && !IsNotWord(tokens[0].posTag)
    requires LongestMatch(env, tokens, |tokens|).Some?
    requires env.rules && !IsValidMatch(LongestMatch(env, tokens, |tokens|).value)
    ensures Matches(env, tokens) == Matches(env, tokens[1..])
  {
  }

  // ---------------------------------------------------------------- filtering

  /** isMatchedLemma: str is one of the match's three forms. */
  predicate IsMatchedLemma(str: string, m: DictionaryMatch) {
    str == FirstCanonicalForm(m) || str == SecondCanonicalForm(m) || str == TextForm(m)
  }

  /** containsMatchedLemma(String): str contains one of the match's three forms. */
  predicate ContainsMatchedLemma(str: string, m: DictionaryMatch) {
    Contains(str, FirstCanonicalForm(m)) || Contains(str, SecondCanonicalForm(m)) || Contains(str, TextForm(m))
  }

  /** containsMatchedLemma(List): one of the match's three forms is in the list. */
  predicate ListContainsMatchedLemma(strList: seq<string>, m: DictionaryMatch) {
    FirstCanonicalForm(m) in strList || SecondCanonicalForm(m) in strList || TextForm(m) in strList
  }

  /** A matched lemma is contained in itself, so any string equal to a matched form contains one. */
  lemma MatchedLemmaIsContained(str: string, m: DictionaryMatch)
    requires IsMatchedLemma(str, m)
    ensures ContainsMatchedLemma(str, m)
  {
    assert OccursAt(str, str, 0);
  }

  /** The condition getFilteredMatches keeps a match on. */
  predicate Kept(env: Env, m: DictionaryMatch) {
    (exists i :: 0 <= i < |m.tokens| && m.tokens[i].posTag in env.partOfSpeechToAnnotate)
    && !(env.rules && IsIgnoredMatch(m))
    && !(exists i :: 0 <= i < |env.tagsOf(m)| && env.tagsOf(m)[i] in env.ignoreTags)
    && !ListContainsMatchedLemma(env.ignoreWords, m)
  }

  /** The stream filter of getFilteredMatches. */
  function FilterMatches(env: Env, ms: seq<DictionaryMatch>): (r: seq<DictionaryMatch>)
    ensures |r| <= |ms|
    ensures forall m :: m in r <==> m in ms && Kept(env, m)
  {
    if |ms| == 0 then []
    else (if Kept(env, ms[0]) then [ms[0]] else []) + FilterMatches(env, ms[1..])
  }

  /**
   * The filter keeps the order: filtering a concatenation concatenates the filtered parts, so
   * the kept matches appear in the order they were found.
   */
  lemma {:induction false} FilterMatchesAppend(env: Env, a: seq<DictionaryMatch>, b: seq<DictionaryMatch>)
    ensures FilterMatches(env, a + b) == FilterMatches(env, a) + FilterMatches(env, b)
    decreases |a|
  {
    if |a| == 0 {
      assert a + b == b;
    } else {
      assert (a + b)[1..] == a[1..] + b;
      FilterMatchesAppend(env, a[1..], b);
    }
  }

  /** getFilteredMatches. */
  method GetFilteredMatches(env: Env, caption: string) returns (r: seq<DictionaryMatch>)
    ensures r == FilterMatches(env, Matches(env, PreparedTokens(env, caption)))
  {
    var allMatches := GetDictionaryMatches(env, caption);
    r := FilterMatches(env, allMatches);
  }

  // ---------------------------------------------------------------- rendering a definition

  /** A lemma of a definition: colour-wrapped when matched, shown or left out otherwise as configured. */
  function LemmaText(env: Env, m: DictionaryMatch, l: string, color: string): Result<Option<string>, Error> {
    if IsMatchedLemma(l, m) then
      var styled :- AddStyleToText(l, COLOR, Some(color));
      Success(Some(styled))
    else
      match env.displayOtherLemma
      case None => Failure(NullPointer)
      case Some(display) => Success(if display then Some(l) else None)
  }

  /** The lemma stream of annotateDictionaryMatch, with the nulls filtered out. */
  function LemmaTexts(env: Env, m: DictionaryMatch, lemmas: seq<string>, color: string): (r: Result<seq<string>, Error>)
    ensures r.Success? ==> |r.value| <= |lemmas|
  {
    if |lemmas| == 0 then Success([])
    else
      var first :- LemmaText(env, m, lemmas[0], color);
      var rest :- LemmaTexts(env, m, lemmas[1..], color);
      Success((if first.Some? then [first.value] else []) + rest)
  }

  /** A lemma wrapped in the match colour. */
  function Colored(l: string, color: string): string
    requires |color| >= 7
  {
    "{\\c&" + HtmlColorToAss(color).value + "&}" + l + RESET_TAG
  }

  /** The matched lemmas of a list, in order. */
  function MatchedLemmas(m: DictionaryMatch, lemmas: seq<string>): (r: seq<string>)
    ensures forall l :: l in r <==> l in lemmas && IsMatchedLemma(l, m)
  {
    if |lemmas| == 0 then []
    else (if IsMatchedLemma(lemmas[0], m) then [lemmas[0]] else []) + MatchedLemmas(m, lemmas[1..])
  }

  /** With displayOtherLemma set, every lemma is shown in order, the matched ones in colour. */
  lemma {:induction false} AllLemmasShown(env: Env, m: DictionaryMatch, lemmas: seq<string>, color: string)
    requires env.displayOtherLemma == Some(true) && |color| >= 7
    ensures LemmaTexts(env, m, lemmas, color).Success?
    ensures var r := LemmaTexts(env, m, lemmas, color).value;
            |r| == |lemmas| && forall i :: 0 <= i < |lemmas| ==> r[i] == (if IsMatchedLemma(lemmas[i], m) then Colored(lemmas[i], color) else lemmas[i])
  {
    if |lemmas| > 0 {
      AllLemmasShown(env, m, lemmas[1..], color);
    }
  }

  /** With displayOtherLemma unset, only the matched lemmas are shown, in order and in colour. */
  lemma {:induction false} OnlyMatchedLemmasShown(env: Env, m: DictionaryMatch, lemmas: seq<string>, color: string)
    requires env.displayOtherLemma == Some(false) && |color| >= 7
    ensures LemmaTexts(env, m, lemmas, color).Success?
    ensures var r := LemmaTexts(env, m, lemmas, color).value;
            var ml := MatchedLemmas(m, lemmas);
            |r| == |ml| && forall i :: 0 <= i < |ml| ==> r[i] == Colored(ml[i], color)
  {
    if |lemmas| > 0 {
      OnlyMatchedLemmasShown(env, m, lemmas[1..], color);
    }
  }

  /**
   * With displayOtherLemma absent from the configuration, unboxing the null Boolean fails as soon
   * as a lemma is not a matched form: the lemmas render exactly when all of them are matched.
   */
  lemma {:induction false} MissingDisplaySettingFails(env: Env, m: DictionaryMatch, lemmas: seq<string>, color: string)
    requires env.displayOtherLemma.None? && |color| >= 7
    ensures LemmaTexts(env, m, lemmas, color).Success? <==> forall i :: 0 <= i < |lemmas| ==> IsMatchedLemma(lemmas[i], m)
    ensures LemmaTexts(env, m, lemmas, color).Failure? ==> LemmaTexts(env, m, lemmas, color).error == NullPointer
  {
    if |lemmas| > 0 {
      MissingDisplaySettingFails(env, m, lemmas[1..], color);
      assert forall i :: 1 <= i < |lemmas| ==> lemmas[1..][i - 1] == lemmas[i];
    }
  }

  /**
   * The level glyph: (char) ('①' + (frequency - 1)), with Java's int and char wrap-around; a
   * code that lands on a lone surrogate is shown as U+FFFD.
   */
  function LevelChar(frequency: int): char {
    var code: int := Wrap32(0x2460 + Wrap32(frequency - 1)) % 0x1_0000;
    if 0xD800 <= code < 0xE000 then '\U{FFFD}' else code as char
  }

  /** Frequencies 1 to 20 are shown as the circled numbers ① to ⑳. */
  lemma LevelCharCircled(frequency: int)
    requires 1 <= frequency <= 20
    ensures LevelChar(frequency) as int == 0x2460 + frequency - 1
  {
  }

  /** The level part of a definition line: a bold glyph between spaces, or one space without frequency. */
  function LevelText(frequency: Option<int>): (r: string)
    ensures frequency.None? ==> r == " "
    ensures frequency.Some? ==> |r| == 12 && r[0] == ' ' && r[11] == ' ' && r[6] == LevelChar(frequency.value)
  {
    if frequency.None? then " "
    else " " + AddStyleToText([LevelChar(frequency.value)], BOLD, None).value + " "
  }

  /**
   * The pronunciation part: nothing without pronunciations or when one of them already appears
   * in the lemma text; otherwise " [p1, p2] ", in colour when the lemma text contains none of the
   * matched forms.
   */
  function PronunciationText(m: DictionaryMatch, pronunciations: Option<seq<string>>, lemmas: string, color: string): (r: Result<string, Error>)
    ensures pronunciations.None? ==> r == Success("")
    ensures pronunciations.Some? && (exists i :: 0 <= i < |pronunciations.value| && Contains(lemmas, pronunciations.value[i])) ==> r == Success("")
    ensures (pronunciations.Some? && (forall i :: 0 <= i < |pronunciations.value| ==> !Contains(lemmas, pronunciations.value[i]))
             && ContainsMatchedLemma(lemmas, m)) ==> r == Success(" [" + Join(pronunciations.value, ", ") + "] ")
    ensures (pronunciations.Some? && (forall i :: 0 <= i < |pronunciations.value| ==> !Contains(lemmas, pronunciations.value[i]))
             && !ContainsMatchedLemma(lemmas, m) && |color| >= 7) ==> r == Success(Colored(" [" + Join(pronunciations.value, ", ") + "] ", color))
  {
    if pronunciations.None? then Success("")
    else
      var ps := pronunciations.value;
      if exists i | 0 <= i < |ps| :: Contains(lemmas, ps[i]) then Success("")
      else
        var text := " [" + Join(ps, ", ") + "] ";
        if !ContainsMatchedLemma(lemmas, m) then AddStyleToText(text, COLOR, Some(color)) else Success(text)
  }

  /** One line of annotateDictionaryMatch: "★ " + lemmas + pronunciation + level + senses joined by " --- ". */
  function DefinitionLine(env: Env, m: DictionaryMatch, e: JijiDictionaryEntry, color: string): Result<string, Error> {
    var texts :- LemmaTexts(env, m, e.lemmas, color);
    var lemmas := Join(texts, ", ");
    var pron :- PronunciationText(m, e.pronounciation, lemmas, color);
    var senses :- SenseTexts(e.senses);
    Success("★ " + lemmas + pron + LevelText(e.frequency) + Join(senses, " --- "))
  }

  /** The lines of annotateDictionaryMatch for the first entries, in entry order. */
  function DefinitionLines(env: Env, m: DictionaryMatch, entries: seq<JijiDictionaryEntry>, color: string): (r: Result<seq<string>, Error>)
    ensures r.Success? ==> |r.value| == |entries|
  {
    if |entries| == 0 then Success([])
    else
      var init :- DefinitionLines(env, m, entries[..|entries| - 1], color);
      var line :- DefinitionLine(env, m, entries[|entries| - 1], color);
      Success(init + [line])
  }

  /**
   * The lines are one per entry, in entry order: line i is the definition line of entry i; and
   * they fail exactly when the line of some entry fails.
   */
  lemma {:induction false} DefinitionLinesInOrder(env: Env, m: DictionaryMatch, entries: seq<JijiDictionaryEntry>, color: string)
    ensures DefinitionLines(env, m, entries, color).Success? <==>
              forall i :: 0 <= i < |entries| ==> DefinitionLine(env, m, entries[i], color).Success?
    ensures DefinitionLines(env, m, entries, color).Success? ==>
              forall i :: 0 <= i < |entries| ==>
                DefinitionLine(env, m, entries[i], color) == Success(DefinitionLines(env, m, entries, color).value[i])
  {
    if |entries| > 0 {
      var init := entries[..|entries| - 1];
      DefinitionLinesInOrder(env, m, init, color);
      assert forall i :: 0 <= i < |init| ==> entries[i] == init[i];
    }
  }

  /** annotateDictionaryMatch: one definition line per dictionary entry of the match, in order. */
  method AnnotateDictionaryMatch(env: Env, dm: DictionaryMatch, color: string) returns (r: Result<seq<string>, Error>)
    ensures r == DefinitionLines(env, dm, dm.dictionaryEntries, color)
  {
    var tokenDefs: seq<string> := [];
    var entries := dm.dictionaryEntries;
    for i := 0 to |entries|
      invariant DefinitionLines(env, dm, entries[..i], color) == Success(tokenDefs)
    {
      LinesStep(env, dm, entries, color, i, tokenDefs);
      var line := DefinitionLine(env, dm, entries[i], color);
      if line.Failure? {
        LinesPrefixFailure(env, dm, entries, color, i + 1);
        return Failure(line.error);
      }
      tokenDefs := tokenDefs + [line.value];
    }
    assert entries[..|entries|] == entries;
    return Success(tokenDefs);
  }

  /** The lines of one more entry: the line of that entry appended, or its failure. */
  lemma LinesStep(env: Env, m: DictionaryMatch, entries: seq<JijiDictionaryEntry>, color: string, i: nat, lines: seq<string>)
    requires i < |entries| && DefinitionLines(env, m, entries[..i], color) == Success(lines)
    ensures var line := DefinitionLine(env, m, entries[i], color);
            DefinitionLines(env, m, entries[..i + 1], color)
              == if line.Failure? then Failure(line.error) else Success(lines + [line.value])
  {
    assert entries[..i + 1][..i] == entries[..i];
  }

  /** Once the lines of a prefix of the entries fail, the lines of all of them fail the same way. */
  lemma {:induction false} LinesPrefixFailure(env: Env, m: DictionaryMatch, entries: seq<JijiDictionaryEntry>, color: string, n: nat)
    requires n <= |entries| && DefinitionLines(env, m, entries[..n], color).Failure?
    ensures DefinitionLines(env, m, entries, color) == DefinitionLines(env, m, entries[..n], color)
    decreases |entries| - n
  {
    if n < |entries| {
      assert entries[..n + 1][..n] == entries[..n];
      LinesPrefixFailure(env, m, entries, color, n + 1);
    } else {
      assert entries[..n] == entries;
    }
  }

  /**
   * Every line starts with the star and ends with the entry's senses; a sense that is not a
   * String fails the line.
   */
  lemma DefinitionLineShape(env: Env, m: DictionaryMatch, e: JijiDictionaryEntry, color: string)
    requires DefinitionLine(env, m, e, color).Success?
    ensures SenseTexts(e.senses).Success?
    ensures var line := DefinitionLine(env, m, e, color).value;
            var senses := Join(SenseTexts(e.senses).value, " --- ");
            IsPrefix("★ ", line) && |senses| <= |line| && line[|line| - |senses|..] == senses
  {
  }

  /**
   * A sense that is neither a String nor null, which the dictionary loads unchecked, makes the
   * line a ClassCastException once the lemmas and the pronunciation are rendered.
   */
  lemma NonStringSenseFails(env: Env, m: DictionaryMatch, e: JijiDictionaryEntry, color: string, k: nat)
    requires LemmaTexts(env, m, e.lemmas, color).Success?
    requires PronunciationText(m, e.pronounciation, Join(LemmaTexts(env, m, e.lemmas, color).value, ", "), color).Success?
    requires k < |e.senses| && !e.senses[k].YStr? && !e.senses[k].YNull?
    ensures DefinitionLine(env, m, e, color) == Failure(ClassCast)
  {
  }
}
