/**
 * AnnotationService.annotateSubtitleFile: walk the captions of a subtitle file; for each one find
 * the filtered dictionary matches, render their definitions with a colour taken from a rotating
 * queue, highlight each newly defined word in the caption, and attach the definitions as one
 * annotation caption.
 */
module CaptionAnnotation {
  import opened Wrappers
  import opened JavaLang
  import opened Captions
  import opened DictionaryMatches
  import opened Subtitles
  import opened AnnotationService

  /**
   * The per-caption state of the loop: the colour queue, the text forms already defined, the
   * definition lines gathered so far, and (for the proofs) the word and colour of every
   * colorizeCaptionWord call made, in order.
   */
  datatype CaptionState = CaptionState(
    colors: seq<string>,
    alreadyDefinedWords: seq<string>,
    annotations: seq<string>,
    highlights: seq<(string, string)>)

  /** The queue after Collections.rotate(colors, -1) has run k times. */
  function RotateLeft(s: seq<string>, k: nat): (r: seq<string>)
    ensures |r| == |s|
  {
    if |s| == 0 then s else s[k % |s|..] + s[..k % |s|]
  }

  /** Rotating once more moves the head of the queue to its end. */
  lemma RotateLeftStep(s: seq<string>, k: nat)
    requires |s| > 0
    ensures RotateLeft(s, k)[0] == s[k % |s|]
    ensures RotateLeft(s, k)[1..] + [RotateLeft(s, k)[0]] == RotateLeft(s, k + 1)
  {
    var n := |s|;
    var j := k % n;
    ModSucc(k, n);
    if j + 1 < n {
      assert s[j..][1..] == s[j + 1..];
      assert s[..j] + [s[j]] == s[..j + 1];
    } else {
      assert s[j..] == [s[n - 1]];
      assert s[..j] + [s[j]] == s;
    }
  }

  lemma MulBounds(t: int, n: int)
    requires n > 0
    ensures t >= 1 ==> t * n >= n
    ensures t <= -1 ==> t * n <= -n
  {
    if t >= 1 {
      assert t * n == (t - 1) * n + n;
    } else if t <= -1 {
      assert t * n == (t + 1) * n - n;
    }
  }

  lemma ModMinus(k: nat, n: nat)
    requires 0 < n <= k
    ensures k % n == (k - n) % n
  {
    var t := k / n - (k - n) / n - 1;
    assert t * n == (k - n) % n - k % n;
    MulBounds(t, n);
  }

  /** Counting one further steps the remainder on by one, wrapping to 0 at n. */
  lemma {:induction false} ModSucc(k: nat, n: nat)
    requires n > 0
    ensures (k + 1) % n == if k % n + 1 == n then 0 else k % n + 1
    decreases k
  {
    if k + 1 < n {
      ModSmall(k, n);
      ModSmall(k + 1, n);
    } else if k + 1 == n {
      ModSmall(k, n);
      ModMinus(k + 1, n);
      assert (k + 1 - n) % n == 0;
    } else {
      ModMinus(k, n);
      ModMinus(k + 1, n);
      ModSucc(k - n, n);
    }
  }

  lemma ModSmall(k: nat, n: nat)
    requires k < n
    ensures k % n == k
  {
  }

  /**
   * One turn of the loop over the filtered matches: the colour at the head of the queue (none is
   * a NoSuchElementException), the definition lines of the match in that colour, and, when there
   * are lines and the word is new, the lines kept, the word recorded and highlighted, and the
   * queue rotated. A word already defined leaves everything as it was.
   */
  function Step(env: Env, st: CaptionState, m: DictionaryMatch): (r: Result<CaptionState, Error>)
    ensures |st.colors| == 0 ==> r == Failure(NoSuchElement)
  {
    if |st.colors| == 0 then Failure(NoSuchElement)
    else
      var color := st.colors[0];
      var tokenDefs :- DefinitionLines(env, m, m.dictionaryEntries, color);
      if |tokenDefs| > 0 && TextForm(m) !in st.alreadyDefinedWords then
        Success(CaptionState(st.colors[1..] + [color], st.alreadyDefinedWords + [TextForm(m)],
                             st.annotations + tokenDefs, st.highlights + [(TextForm(m), color)]))
      else Success(st)
  }

  /** The state after the loop has handled the matches, starting from the configured palette. */
  function Plan(env: Env, palette: seq<string>, ms: seq<DictionaryMatch>): Result<CaptionState, Error> {
    if |ms| == 0 then Success(CaptionState(palette, [], [], []))
    else
      var st :- Plan(env, palette, ms[..|ms| - 1]);
      Step(env, st, ms[|ms| - 1])
  }

  /** The caption content after the highlights, one colorizeCaptionWord after another. */
  function ColorizeAll(content: string, hs: seq<(string, string)>, ws: string,
                       find: (string, string) -> Result<seq<Span>, Error>): Result<string, Error>
    requires forall p, t :: SpansWithin(find(p, t), t)
  {
    if |hs| == 0 then Success(content)
    else
      var c :- ColorizeAll(content, hs[..|hs| - 1], ws, find);
      Colorized(c, hs[|hs| - 1].0, hs[|hs| - 1].1, ws, find)
  }

  // ---------------------------------------------------------------- what the loop guarantees

  /** The properties the loop keeps for every prefix of the matches it handled. */
  ghost predicate Consistent(palette: seq<string>, st: CaptionState) {
    |st.alreadyDefinedWords| == |st.highlights|
    && (forall i :: 0 <= i < |st.highlights| ==> st.alreadyDefinedWords[i] == st.highlights[i].0)
    && (forall i, j :: 0 <= i < j < |st.highlights| ==> st.highlights[i].0 != st.highlights[j].0)
    && (|st.highlights| > 0 ==> |palette| > 0)
    && (forall i :: 0 <= i < |st.highlights| ==> st.highlights[i].1 == palette[i % |palette|])
    && st.colors == RotateLeft(palette, |st.highlights|)
    && (|st.annotations| == 0 <==> |st.highlights| == 0)
  }

  lemma StepConsistent(env: Env, palette: seq<string>, st: CaptionState, m: DictionaryMatch)
    requires Consistent(palette, st) && Step(env, st, m).Success?
    ensures Consistent(palette, Step(env, st, m).value)
  {
    var st' := Step(env, st, m).value;
    if st' != st {
      var tokenDefs := DefinitionLines(env, m, m.dictionaryEntries, st.colors[0]).value;
      assert st' == CaptionState(st.colors[1..] + [st.colors[0]], st.alreadyDefinedWords + [TextForm(m)],
                                 st.annotations + tokenDefs, st.highlights + [(TextForm(m), st.colors[0])]);
      ConsistentSnoc(palette, st, TextForm(m), tokenDefs);
    }
  }

  /** Annotating a new word with the colour at the head of the queue keeps the state consistent. */
  lemma ConsistentSnoc(palette: seq<string>, st: CaptionState, word: string, tokenDefs: seq<string>)
    requires Consistent(palette, st) && |st.colors| > 0
    requires word !in st.alreadyDefinedWords && |tokenDefs| > 0
    ensures Consistent(palette, CaptionState(st.colors[1..] + [st.colors[0]], st.alreadyDefinedWords + [word],
                                             st.annotations + tokenDefs, st.highlights + [(word, st.colors[0])]))
  {
    var k := |st.highlights|;
    RotateLeftStep(palette, k);
    var hs := st.highlights + [(word, st.colors[0])];
    assert hs[k] == (word, palette[k % |palette|]);
    assert forall i :: 0 <= i < k ==> hs[i] == st.highlights[i];
    assert forall i :: 0 <= i < k ==> st.highlights[i].0 == st.alreadyDefinedWords[i];
  }

  /**
   * Per caption, the words highlighted are pairwise different and are exactly the words
   * recorded as defined; the i-th highlight is in the i-th colour of the palette, round-robin;
   * the queue has been rotated once per highlight (a skipped duplicate uses no colour); and
   * lines were gathered exactly when some word was highlighted.
   */
  lemma {:induction false} PlanConsistent(env: Env, palette: seq<string>, ms: seq<DictionaryMatch>)
    requires Plan(env, palette, ms).Success?
    ensures Consistent(palette, Plan(env, palette, ms).value)
  {
    if |ms| > 0 {
      PlanConsistent(env, palette, ms[..|ms| - 1]);
      StepConsistent(env, palette, Plan(env, palette, ms[..|ms| - 1]).value, ms[|ms| - 1]);
    }
  }

  /** An empty palette fails on the first match, with NoSuchElementException. */
  lemma EmptyPaletteFails(env: Env, ms: seq<DictionaryMatch>)
    requires |ms| > 0
    ensures Plan(env, [], ms) == Failure(NoSuchElement)
  {
    assert ms[..1][..0] == [];
    PlanPrefixFailure(env, [], ms, 1);
  }

  /** The plan of one more match is the step on the plan of the prefix. */
  lemma PlanStep(env: Env, palette: seq<string>, ms: seq<DictionaryMatch>, i: nat, st: CaptionState)
    requires i < |ms| && Plan(env, palette, ms[..i]) == Success(st)
    ensures Plan(env, palette, ms[..i + 1]) == Step(env, st, ms[i])
  {
    assert ms[..i + 1][..i] == ms[..i];
  }

  /** Once a prefix of the matches fails, the whole caption fails with the same error. */
  lemma {:induction false} PlanPrefixFailure(env: Env, palette: seq<string>, ms: seq<DictionaryMatch>, n: nat)
    requires n <= |ms| && Plan(env, palette, ms[..n]).Failure?
    ensures Plan(env, palette, ms) == Plan(env, palette, ms[..n])
    decreases |ms| - n
  {
    if n < |ms| {
      assert ms[..n + 1][..n] == ms[..n];
      PlanPrefixFailure(env, palette, ms, n + 1);
    } else {
      assert ms[..n] == ms;
    }
  }

  /** Handling more matches only appends highlights. */
  lemma {:induction false} PlanHighlightsGrow(env: Env, palette: seq<string>, ms: seq<DictionaryMatch>, n: nat)
    requires n <= |ms| && Plan(env, palette, ms).Success?
    ensures Plan(env, palette, ms[..n]).Success?
    ensures PrefixOf(Plan(env, palette, ms[..n]).value.highlights, Plan(env, palette, ms).value.highlights)
    decreases |ms| - n
  {
    if n < |ms| {
      PlanHighlightsGrow(env, palette, ms, n + 1);
      PlanPrefixSuccess(env, palette, ms, n);
      var st := Plan(env, palette, ms[..n]).value;
      StepHighlightsGrow(env, st, ms[n]);
      PrefixOfTransitive(st.highlights, Plan(env, palette, ms[..n + 1]).value.highlights, Plan(env, palette, ms).value.highlights);
    } else {
      assert ms[..n] == ms;
    }
  }

  predicate PrefixOf<T(==)>(a: seq<T>, b: seq<T>) {
    |a| <= |b| && a == b[..|a|]
  }

  lemma PrefixOfTransitive<T>(a: seq<T>, b: seq<T>, c: seq<T>)
    requires PrefixOf(a, b) && PrefixOf(b, c)
    ensures PrefixOf(a, c)
  {
    assert c[..|b|][..|a|] == c[..|a|];
  }

  /** When the plan of one more match succeeds, so did the plan of the prefix. */
  lemma PlanPrefixSuccess(env: Env, palette: seq<string>, ms: seq<DictionaryMatch>, n: nat)
    requires n < |ms| && Plan(env, palette, ms[..n + 1]).Success?
    ensures Plan(env, palette, ms[..n]).Success?
    ensures Plan(env, palette, ms[..n + 1]) == Step(env, Plan(env, palette, ms[..n]).value, ms[n])
  {
    assert ms[..n + 1][..n] == ms[..n];
  }

  lemma StepHighlightsGrow(env: Env, st: CaptionState, m: DictionaryMatch)
    requires Step(env, st, m).Success?
    ensures PrefixOf(st.highlights, Step(env, st, m).value.highlights)
  {
    var hs := Step(env, st, m).value.highlights;
    assert hs == st.highlights || hs == st.highlights + [hs[|hs| - 1]];
  }

  /** What one step does to the defined words: it keeps them and adds at most the word of the match. */
  lemma StepDefines(env: Env, st: CaptionState, m: DictionaryMatch)
    requires Step(env, st, m).Success?
    ensures forall w :: w in st.alreadyDefinedWords ==> w in Step(env, st, m).value.alreadyDefinedWords
    ensures |m.dictionaryEntries| > 0 ==> TextForm(m) in Step(env, st, m).value.alreadyDefinedWords
    ensures forall w :: w in Step(env, st, m).value.alreadyDefinedWords ==>
              w in st.alreadyDefinedWords || (w == TextForm(m) && |m.dictionaryEntries| > 0)
  {
  }

  /**
   * The defined words are those of the matches that have dictionary entries: every such match
   * has its word among them, and each of them is the word of such a match.
   */
  ghost predicate DefinesExactly(ms: seq<DictionaryMatch>, words: seq<string>) {
    (forall i {:trigger HasEntries(ms, i)} :: 0 <= i < |ms| && HasEntries(ms, i) ==> TextForm(ms[i]) in words)
    && (forall w :: w in words ==> exists i :: 0 <= i < |ms| && |ms[i].dictionaryEntries| > 0 && TextForm(ms[i]) == w)
  }

  lemma DefinesSnoc(init: seq<DictionaryMatch>, last: DictionaryMatch, words: seq<string>, words': seq<string>)
    requires DefinesExactly(init, words)
    requires forall w :: w in words ==> w in words'
    requires |last.dictionaryEntries| > 0 ==> TextForm(last) in words'
    requires forall w :: w in words' ==> w in words || (w == TextForm(last) && |last.dictionaryEntries| > 0)
    ensures DefinesExactly(init + [last], words')
  {
    var ms := init + [last];
    forall i | 0 <= i < |ms| && HasEntries(ms, i)
      ensures TextForm(ms[i]) in words'
    {
      if i < |init| {
        assert ms[i] == init[i] && HasEntries(init, i);
      }
    }
    forall w | w in words'
      ensures exists i :: 0 <= i < |ms| && |ms[i].dictionaryEntries| > 0 && TextForm(ms[i]) == w
    {
      if w in words {
        var i :| 0 <= i < |init| && |init[i].dictionaryEntries| > 0 && TextForm(init[i]) == w;
        assert ms[i] == init[i];
      } else {
        assert ms[|init|] == last;
      }
    }
  }

  /**
   * Every match with dictionary entries has its word defined, and every defined word is the
   * text form of a match with entries: nothing defined is lost, nothing else is added.
   */
  lemma {:induction false} PlanDefinesEveryWord(env: Env, palette: seq<string>, ms: seq<DictionaryMatch>)
    requires Plan(env, palette, ms).Success?
    ensures DefinesExactly(ms, Plan(env, palette, ms).value.alreadyDefinedWords)
  {
    if |ms| > 0 {
      var init := ms[..|ms| - 1];
      var last := ms[|ms| - 1];
      PlanDefinesEveryWord(env, palette, init);
      var st := Plan(env, palette, init).value;
      StepDefines(env, st, last);
      DefinesSnoc(init, last, st.alreadyDefinedWords, Step(env, st, last).value.alreadyDefinedWords);
      assert init + [last] == ms;
    }
  }

  /** The colour of the t-th defined word: the palette taken round-robin. */
  function ColorAt(palette: seq<string>, t: nat): string {
    if |palette| == 0 then "" else palette[t % |palette|]
  }

  /** The definition lines of a match in a colour; nothing when rendering fails. */
  function LinesIn(env: Env, m: DictionaryMatch, color: string): seq<string> {
    match DefinitionLines(env, m, m.dictionaryEntries, color)
    case Success(lines) => lines
    case Failure(_) => []
  }

  /** The lines of the defining matches, the t-th in the t-th colour, one after another. */
  ghost function Definitions(env: Env, palette: seq<string>, dms: seq<DictionaryMatch>): seq<string> {
    if |dms| == 0 then []
    else Definitions(env, palette, dms[..|dms| - 1]) + LinesIn(env, dms[|dms| - 1], ColorAt(palette, |dms| - 1))
  }

  /**
   * idx lists, in order, the first match of each word that has dictionary entries: each listed
   * match has entries and no earlier match with entries has its word, and every match with
   * entries shares its word with a listed match at or before it.
   */
  ghost predicate FirstDefinitions(ms: seq<DictionaryMatch>, idx: seq<nat>) {
    (forall t :: 0 <= t < |idx| ==> idx[t] < |ms| && |ms[idx[t]].dictionaryEntries| > 0)
    && (forall s, t :: 0 <= s < t < |idx| ==> idx[s] < idx[t])
    && (forall t, j :: 0 <= t < |idx| && 0 <= j < idx[t] && |ms[j].dictionaryEntries| > 0 ==>
          TextForm(ms[j]) != TextForm(ms[idx[t]]))
    && (forall j {:trigger HasEntries(ms, j)} :: 0 <= j < |ms| && HasEntries(ms, j) ==>
          exists t :: 0 <= t < |idx| && idx[t] <= j && TextForm(ms[idx[t]]) == TextForm(ms[j]))
  }

  /** Match j has dictionary entries. */
  predicate HasEntries(ms: seq<DictionaryMatch>, j: int) {
    0 <= j < |ms| && |ms[j].dictionaryEntries| > 0
  }

  /** What a successful plan gathered, in terms of the first defining matches dms at idx. */
  ghost predicate GatheredFrom(env: Env, palette: seq<string>, ms: seq<DictionaryMatch>, st: CaptionState,
                               idx: seq<nat>, dms: seq<DictionaryMatch>) {
    FirstDefinitions(ms, idx) && Picked(ms, idx, dms) && Rendered(env, palette, st, dms)
  }

  /** dms are the matches at idx. */
  ghost predicate Picked(ms: seq<DictionaryMatch>, idx: seq<nat>, dms: seq<DictionaryMatch>) {
    |dms| == |idx| && forall t :: 0 <= t < |idx| ==> idx[t] < |ms| && dms[t] == ms[idx[t]]
  }

  /** The state highlighted the words of dms, in order, and gathered their lines. */
  ghost predicate Rendered(env: Env, palette: seq<string>, st: CaptionState, dms: seq<DictionaryMatch>) {
    |dms| == |st.highlights|
    && (forall t :: 0 <= t < |dms| ==> st.highlights[t].0 == TextForm(dms[t]))
    && st.annotations == Definitions(env, palette, dms)
  }

  /**
   * The text a caption is annotated with: on success, the annotations are the definition lines
   * of the first match of each word that has dictionary entries, in match order, the t-th such
   * word rendered in palette colour t (round-robin); later matches of a defined word add nothing.
   */
  lemma {:induction false} PlanAnnotations(env: Env, palette: seq<string>, ms: seq<DictionaryMatch>, st: CaptionState)
    returns (idx: seq<nat>, dms: seq<DictionaryMatch>)
    requires Plan(env, palette, ms) == Success(st)
    ensures GatheredFrom(env, palette, ms, st, idx, dms)
  {
    if |ms| == 0 {
      idx, dms := [], [];
      NothingGathered(env, palette, ms, st);
    } else {
      var st0 := PlanLast(env, palette, ms);
      var i0, d0 := PlanAnnotations(env, palette, ms[..|ms| - 1], st0);
      idx, dms := AnnotationsStep(env, palette, ms, st0, i0, d0, st);
    }
  }

  /** Before any match, nothing is defined, highlighted or gathered. */
  lemma NothingGathered(env: Env, palette: seq<string>, ms: seq<DictionaryMatch>, st: CaptionState)
    requires |ms| == 0 && Plan(env, palette, ms) == Success(st)
    ensures GatheredFrom(env, palette, ms, st, [], [])
  {
    NothingPicked(ms);
  }

  lemma NothingPicked(ms: seq<DictionaryMatch>)
    requires |ms| == 0
    ensures FirstDefinitions(ms, []) && Picked(ms, [], [])
  {
  }

  /** The plan of a non-empty list of matches is one step on the plan of all but the last. */
  lemma PlanLast(env: Env, palette: seq<string>, ms: seq<DictionaryMatch>) returns (st: CaptionState)
    requires |ms| > 0 && Plan(env, palette, ms).Success?
    ensures Plan(env, palette, ms[..|ms| - 1]) == Success(st)
    ensures Step(env, st, ms[|ms| - 1]) == Plan(env, palette, ms)
  {
    st := Plan(env, palette, ms[..|ms| - 1]).value;
  }

  lemma SplitLast<T>(s: seq<T>)
    requires |s| > 0
    ensures s == s[..|s| - 1] + [s[|s| - 1]]
  {
  }

  lemma AnnotationsStep(env: Env, palette: seq<string>, ms: seq<DictionaryMatch>, st: CaptionState,
                        i0: seq<nat>, d0: seq<DictionaryMatch>, st': CaptionState)
    returns (idx: seq<nat>, dms: seq<DictionaryMatch>)
    requires |ms| > 0 && Plan(env, palette, ms[..|ms| - 1]) == Success(st) && Step(env, st, ms[|ms| - 1]) == Success(st')
    requires GatheredFrom(env, palette, ms[..|ms| - 1], st, i0, d0)
    ensures GatheredFrom(env, palette, ms, st', idx, dms)
  {
    var init, m := ms[..|ms| - 1], ms[|ms| - 1];
    SplitLast(ms);
    PlanConsistent(env, palette, init);
    WordsDefined(palette, st, d0);
    if st' != st {
      StepNew(env, palette, st, m, st');
      idx, dms := i0 + [|init|], d0 + [m];
      NewPicked(init, m, i0, st.alreadyDefinedWords, d0);
      NewRendered(env, palette, st, d0, m, st');
    } else {
      StepSame(env, st, m);
      OldCovers(init, m, i0, st.alreadyDefinedWords, d0);
      SnocKeeps(init, m, i0, d0);
      idx, dms := i0, d0;
    }
  }

  /** The new match joins the list of first definitions. */
  lemma NewPicked(init: seq<DictionaryMatch>, m: DictionaryMatch, i0: seq<nat>, words: seq<string>, d0: seq<DictionaryMatch>)
    requires FirstDefinitions(init, i0) && Picked(init, i0, d0)
    requires forall w :: w in words <==> exists t :: 0 <= t < |d0| && TextForm(d0[t]) == w
    requires |m.dictionaryEntries| > 0 && TextForm(m) !in words
    ensures FirstDefinitions(init + [m], i0 + [|init|]) && Picked(init + [m], i0 + [|init|], d0 + [m])
  {
    NewFirst(init, m, i0, words, d0);
    NewCovers(init, m, i0);
    SnocPicks(init, m, i0, d0);
  }

  /** The state after the step renders the new match after the others. */
  lemma NewRendered(env: Env, palette: seq<string>, st: CaptionState, d0: seq<DictionaryMatch>, m: DictionaryMatch,
                    st': CaptionState)
    requires Rendered(env, palette, st, d0)
    requires st'.annotations == st.annotations + LinesIn(env, m, ColorAt(palette, |st.highlights|))
    requires st'.highlights == st.highlights + [(TextForm(m), ColorAt(palette, |st.highlights|))]
    ensures Rendered(env, palette, st', d0 + [m])
  {
    DefinitionsSnoc(env, palette, d0, m);
  }

  /** A step that defines a new word appends its lines and its highlight in the colour at the head. */
  lemma StepNew(env: Env, palette: seq<string>, st: CaptionState, m: DictionaryMatch, st': CaptionState)
    requires Consistent(palette, st) && Step(env, st, m) == Success(st') && st' != st
    ensures |st.colors| > 0 && |m.dictionaryEntries| > 0 && TextForm(m) !in st.alreadyDefinedWords
    ensures |DefinitionLines(env, m, m.dictionaryEntries, st.colors[0]).value| > 0
    ensures st'.annotations == st.annotations + LinesIn(env, m, ColorAt(palette, |st.highlights|))
    ensures st'.highlights == st.highlights + [(TextForm(m), ColorAt(palette, |st.highlights|))]
  {
    ColorOfTurn(palette, st);
  }

  /** A step that changes nothing met a match without entries or a word already defined. */
  lemma StepSame(env: Env, st: CaptionState, m: DictionaryMatch)
    requires Step(env, st, m) == Success(st)
    ensures |m.dictionaryEntries| == 0 || TextForm(m) in st.alreadyDefinedWords
  {
  }

  /** The colour at the head of the queue is the palette colour of the next defined word. */
  lemma ColorOfTurn(palette: seq<string>, st: CaptionState)
    requires Consistent(palette, st) && |st.colors| > 0
    ensures st.colors[0] == ColorAt(palette, |st.highlights|)
  {
    RotateLeftStep(palette, |st.highlights|);
  }

  lemma DefinitionsSnoc(env: Env, palette: seq<string>, dms: seq<DictionaryMatch>, m: DictionaryMatch)
    ensures Definitions(env, palette, dms + [m]) == Definitions(env, palette, dms) + LinesIn(env, m, ColorAt(palette, |dms|))
  {
    assert (dms + [m])[..|dms|] == dms;
  }

  /** The defined words are the words of the defining matches. */
  lemma WordsDefined(palette: seq<string>, st: CaptionState, d0: seq<DictionaryMatch>)
    requires Consistent(palette, st) && |d0| == |st.highlights|
    requires forall t :: 0 <= t < |d0| ==> st.highlights[t].0 == TextForm(d0[t])
    ensures forall w :: w in st.alreadyDefinedWords <==> exists t :: 0 <= t < |d0| && TextForm(d0[t]) == w
  {
    forall w | w in st.alreadyDefinedWords
      ensures exists t :: 0 <= t < |d0| && TextForm(d0[t]) == w
    {
      var t :| 0 <= t < |st.alreadyDefinedWords| && st.alreadyDefinedWords[t] == w;
      assert TextForm(d0[t]) == w;
    }
    forall t | 0 <= t < |d0|
      ensures TextForm(d0[t]) in st.alreadyDefinedWords
    {
      assert st.alreadyDefinedWords[t] == TextForm(d0[t]);
    }
  }

  lemma SnocPicks(init: seq<DictionaryMatch>, m: DictionaryMatch, i0: seq<nat>, d0: seq<DictionaryMatch>)
    requires |i0| == |d0| && forall t :: 0 <= t < |i0| ==> i0[t] < |init| && d0[t] == init[i0[t]]
    ensures var ms, idx, dms := init + [m], i0 + [|init|], d0 + [m];
            forall t :: 0 <= t < |idx| ==> idx[t] < |ms| && dms[t] == ms[idx[t]]
  {
  }

  lemma SnocKeeps(init: seq<DictionaryMatch>, m: DictionaryMatch, i0: seq<nat>, d0: seq<DictionaryMatch>)
    requires |i0| == |d0| && forall t :: 0 <= t < |i0| ==> i0[t] < |init| && d0[t] == init[i0[t]]
    ensures forall t :: 0 <= t < |i0| ==> i0[t] < |init + [m]| && d0[t] == (init + [m])[i0[t]]
  {
  }

  /** No earlier match with entries has the word of a listed match, the new one included. */
  lemma NewFirst(init: seq<DictionaryMatch>, m: DictionaryMatch, i0: seq<nat>, words: seq<string>, d0: seq<DictionaryMatch>)
    requires FirstDefinitions(init, i0)
    requires |i0| == |d0| && forall t :: 0 <= t < |i0| ==> i0[t] < |init| && d0[t] == init[i0[t]]
    requires forall w :: w in words <==> exists t :: 0 <= t < |d0| && TextForm(d0[t]) == w
    requires TextForm(m) !in words
    ensures var ms, idx := init + [m], i0 + [|init|];
            forall t, j :: 0 <= t < |idx| && 0 <= j < idx[t] && |ms[j].dictionaryEntries| > 0 ==>
              TextForm(ms[j]) != TextForm(ms[idx[t]])
  {
    var ms, idx := init + [m], i0 + [|init|];
    forall t, j | 0 <= t < |idx| && 0 <= j < idx[t] && |ms[j].dictionaryEntries| > 0
      ensures TextForm(ms[j]) != TextForm(ms[idx[t]])
    {
      assert ms[j] == init[j] && HasEntries(init, j);
      if t == |i0| {
        var s :| 0 <= s < |i0| && i0[s] <= j && TextForm(init[i0[s]]) == TextForm(init[j]);
        assert TextForm(d0[s]) == TextForm(ms[j]);
      } else {
        assert idx[t] == i0[t] && ms[idx[t]] == init[i0[t]];
      }
    }
  }

  /** With a new word listed, the list stays ordered and every match with entries is covered. */
  lemma NewCovers(init: seq<DictionaryMatch>, m: DictionaryMatch, i0: seq<nat>)
    requires FirstDefinitions(init, i0) && |m.dictionaryEntries| > 0
    ensures var ms, idx := init + [m], i0 + [|init|];
            (forall t :: 0 <= t < |idx| ==> idx[t] < |ms| && |ms[idx[t]].dictionaryEntries| > 0)
            && (forall s, t :: 0 <= s < t < |idx| ==> idx[s] < idx[t])
            && (forall j {:trigger HasEntries(ms, j)} :: 0 <= j < |ms| && HasEntries(ms, j) ==>
                  exists t :: 0 <= t < |idx| && idx[t] <= j && TextForm(ms[idx[t]]) == TextForm(ms[j]))
  {
    var ms, idx := init + [m], i0 + [|init|];
    forall j | 0 <= j < |ms| && HasEntries(ms, j)
      ensures exists t :: 0 <= t < |idx| && idx[t] <= j && TextForm(ms[idx[t]]) == TextForm(ms[j])
    {
      if j == |init| {
        assert idx[|i0|] == |init| && ms[|init|] == m;
      } else {
        assert ms[j] == init[j] && HasEntries(init, j);
        var s :| 0 <= s < |i0| && i0[s] <= j && TextForm(init[i0[s]]) == TextForm(init[j]);
        assert idx[s] == i0[s] && ms[idx[s]] == init[i0[s]];
      }
    }
  }

  /** A match that defines nothing leaves the list of first definitions as it was. */
  lemma OldCovers(init: seq<DictionaryMatch>, m: DictionaryMatch, i0: seq<nat>, words: seq<string>,
                  d0: seq<DictionaryMatch>)
    requires FirstDefinitions(init, i0)
    requires |i0| == |d0| && forall t :: 0 <= t < |i0| ==> i0[t] < |init| && d0[t] == init[i0[t]]
    requires forall w :: w in words <==> exists t :: 0 <= t < |d0| && TextForm(d0[t]) == w
    requires |m.dictionaryEntries| == 0 || TextForm(m) in words
    ensures FirstDefinitions(init + [m], i0)
  {
    var ms := init + [m];
    forall j | 0 <= j < |ms| && HasEntries(ms, j)
      ensures exists t :: 0 <= t < |i0| && i0[t] <= j && TextForm(ms[i0[t]]) == TextForm(ms[j])
    {
      if j == |init| {
        var s :| 0 <= s < |d0| && TextForm(d0[s]) == TextForm(m);
        assert ms[i0[s]] == d0[s] && ms[j] == m;
      } else {
        assert ms[j] == init[j] && HasEntries(init, j);
        var s :| 0 <= s < |i0| && i0[s] <= j && TextForm(init[i0[s]]) == TextForm(init[j]);
        assert ms[i0[s]] == init[i0[s]];
      }
    }
    forall t, j | 0 <= t < |i0| && 0 <= j < i0[t] && |ms[j].dictionaryEntries| > 0
      ensures TextForm(ms[j]) != TextForm(ms[i0[t]])
    {
      assert ms[j] == init[j] && ms[i0[t]] == init[i0[t]];
    }
  }

  lemma ColorizeAllSnoc(content: string, hs: seq<(string, string)>, h: (string, string), ws: string,
                        find: (string, string) -> Result<seq<Span>, Error>)
    requires forall p, t :: SpansWithin(find(p, t), t)
    requires ColorizeAll(content, hs, ws, find).Success?
    ensures ColorizeAll(content, hs + [h], ws, find) == Colorized(ColorizeAll(content, hs, ws, find).value, h.0, h.1, ws, find)
  {
    assert (hs + [h])[..|hs|] == hs;
  }

  /** Once colorizing fails on some highlight, it fails for every longer list of highlights. */
  lemma {:induction false} ColorizeAllPrefixFailure(content: string, hs: seq<(string, string)>, n: nat, ws: string,
                                                    find: (string, string) -> Result<seq<Span>, Error>)
    requires forall p, t :: SpansWithin(find(p, t), t)
    requires n <= |hs| && ColorizeAll(content, hs[..n], ws, find).Failure?
    ensures ColorizeAll(content, hs, ws, find).Failure?
    decreases |hs| - n
  {
    if n < |hs| {
      assert hs[..n + 1][..n] == hs[..n];
      ColorizeAllPrefixFailure(content, hs, n + 1, ws, find);
    } else {
      assert hs[..n] == hs;
    }
  }

  // ---------------------------------------------------------------- the loops

  /**
   * The body of the caption loop for the subtitle's current caption: the definition lines of the
   * matches, gathered as Plan says, while each newly defined word is highlighted in the caption.
   * Only the current caption's content changes; the lines come back for annotate.
   */
  method AnnotateCaption(env: Env, subtitle: SubtitleFile, palette: seq<string>, matches: seq<DictionaryMatch>,
                         find: (string, string) -> Result<seq<Span>, Error>)
    returns (r: Result<seq<string>, Error>)
    requires subtitle.Valid() && subtitle.current.Some?
    requires forall p, t :: SpansWithin(find(p, t), t)
    modifies subtitle
    ensures subtitle.Valid()
    ensures subtitle.current == old(subtitle.current) && subtitle.order == old(subtitle.order) && subtitle.pos == old(subtitle.pos)
    ensures subtitle.annotationCaptions == old(subtitle.annotationCaptions)
    ensures subtitle.nbCaptionAnnotated == old(subtitle.nbCaptionAnnotated)
    ensures var key := subtitle.current.value;
            subtitle.captions == old(subtitle.captions)[key := old(subtitle.captions)[key].(content := subtitle.captions[key].content)]
    ensures var done := MatchesOutcome(env, palette, matches, old(subtitle.captions)[subtitle.current.value].content, find);
            && (r.Success? <==> done.Success?)
            && (r.Success? ==> r.value == done.value.state.annotations
                               && subtitle.captions[subtitle.current.value].content == done.value.content)
  {
    var key := subtitle.current.value;
    ghost var content0 := subtitle.captions[key].content;
    var st := CaptionState(palette, [], [], []);
    for i := 0 to |matches|
      invariant subtitle.Valid() && subtitle.current == old(subtitle.current)
      invariant subtitle.order == old(subtitle.order) && subtitle.pos == old(subtitle.pos)
      invariant subtitle.annotationCaptions == old(subtitle.annotationCaptions)
      invariant subtitle.nbCaptionAnnotated == old(subtitle.nbCaptionAnnotated)
      invariant subtitle.captions == old(subtitle.captions)[key := old(subtitle.captions)[key].(content := subtitle.captions[key].content)]
      invariant Plan(env, palette, matches[..i]) == Success(st)
      invariant ColorizeAll(content0, st.highlights, env.wordSeparator, find) == Success(subtitle.captions[key].content)
    {
      var next := AnnotateMatch(env, subtitle, palette, matches, i, find, content0, st);
      if next.Failure? {
        return Failure(next.error);
      }
      st := next.value;
    }
    assert matches[..|matches|] == matches;
    return Success(st.annotations);
  }

  /**
   * One turn of the loop over the filtered matches: the colour at the head of the queue, the
   * definition lines of the match in that colour, and for a new word with lines, the word
   * highlighted in the current caption and the queue rotated.
   */
  method AnnotateMatch(env: Env, subtitle: SubtitleFile, palette: seq<string>, matches: seq<DictionaryMatch>, i: nat,
                       find: (string, string) -> Result<seq<Span>, Error>, ghost content0: string, st: CaptionState)
    returns (r: Result<CaptionState, Error>)
    requires subtitle.Valid() && subtitle.current.Some?
    requires forall p, t :: SpansWithin(find(p, t), t)
    requires i < |matches| && Plan(env, palette, matches[..i]) == Success(st)
    requires ColorizeAll(content0, st.highlights, env.wordSeparator, find) == Success(subtitle.captions[subtitle.current.value].content)
    modifies subtitle
    ensures subtitle.Valid() && subtitle.current == old(subtitle.current)
    ensures subtitle.order == old(subtitle.order) && subtitle.pos == old(subtitle.pos)
    ensures subtitle.annotationCaptions == old(subtitle.annotationCaptions)
    ensures subtitle.nbCaptionAnnotated == old(subtitle.nbCaptionAnnotated)
    ensures var key := subtitle.current.value;
            subtitle.captions == old(subtitle.captions)[key := old(subtitle.captions)[key].(content := subtitle.captions[key].content)]
    ensures r.Success? ==> Plan(env, palette, matches[..i + 1]) == Success(r.value)
                           && ColorizeAll(content0, r.value.highlights, env.wordSeparator, find)
                              == Success(subtitle.captions[subtitle.current.value].content)
    ensures r.Failure? ==> !(Plan(env, palette, matches).Success?
                             && ColorizeAll(content0, Plan(env, palette, matches).value.highlights, env.wordSeparator, find).Success?)
  {
    PlanStep(env, palette, matches, i, st);
    if |st.colors| == 0 {
      PlanPrefixFailure(env, palette, matches, i + 1);
      return Failure(NoSuchElement);
    }
    var color := st.colors[0];
    var tokenDefs := AnnotateDictionaryMatch(env, matches[i], color);
    if tokenDefs.Failure? {
      PlanPrefixFailure(env, palette, matches, i + 1);
      return Failure(tokenDefs.error);
    }
    var word := TextForm(matches[i]);
    if |tokenDefs.value| > 0 && word !in st.alreadyDefinedWords {
      var colorized := subtitle.ColorizeCaptionWord(word, color, env.wordSeparator, find);
      ColorizeAllSnoc(content0, st.highlights, (word, color), env.wordSeparator, find);
      if colorized.Failure? {
        ColorizedPlanFails(env, palette, matches, i + 1, content0, find);
        return Failure(colorized.error);
      }
      return Success(CaptionState(st.colors[1..] + [color], st.alreadyDefinedWords + [word],
                                  st.annotations + tokenDefs.value, st.highlights + [(word, color)]));
    }
    return Success(st);
  }

  /** When colorizing the highlights of a prefix of the matches fails, the caption fails. */
  lemma ColorizedPlanFails(env: Env, palette: seq<string>, ms: seq<DictionaryMatch>, n: nat, content: string,
                           find: (string, string) -> Result<seq<Span>, Error>)
    requires forall p, t :: SpansWithin(find(p, t), t)
    requires n <= |ms| && Plan(env, palette, ms[..n]).Success?
    requires ColorizeAll(content, Plan(env, palette, ms[..n]).value.highlights, env.wordSeparator, find).Failure?
    ensures !(Plan(env, palette, ms).Success?
              && ColorizeAll(content, Plan(env, palette, ms).value.highlights, env.wordSeparator, find).Success?)
  {
    if Plan(env, palette, ms).Success? {
      PlanHighlightsGrow(env, palette, ms, n);
      var hs := Plan(env, palette, ms).value.highlights;
      var k := |Plan(env, palette, ms[..n]).value.highlights|;
      ColorizeAllPrefixFailure(content, hs, k, env.wordSeparator, find);
    }
  }

  /** What the caption loop makes of one caption: its plan, and its content with the plan's words highlighted. */
  datatype Annotated = Annotated(state: CaptionState, content: string)

  /** A caption's matches handled: the plan over them, then the content highlighted with the plan's words. */
  function MatchesOutcome(env: Env, palette: seq<string>, matches: seq<DictionaryMatch>, content: string,
                          find: (string, string) -> Result<seq<Span>, Error>): Result<Annotated, Error>
    requires forall p, t :: SpansWithin(find(p, t), t)
  {
    var st :- Plan(env, palette, matches);
    var highlighted :- ColorizeAll(content, st.highlights, env.wordSeparator, find);
    Success(Annotated(st, highlighted))
  }

  /** One caption handled: the filtered matches of its cleaned text, planned and highlighted in its own content. */
  function CaptionOutcome(env: Env, palette: seq<string>, clean: string -> string,
                          find: (string, string) -> Result<seq<Span>, Error>, text: string): Result<Annotated, Error>
    requires forall p, t :: SpansWithin(find(p, t), t)
  {
    MatchesOutcome(env, palette, FilterMatches(env, Matches(env, PreparedTokens(env, clean(text)))), text, find)
  }

  /** CaptionOutcome as a function of the caption text alone. */
  ghost function Outcomes(env: Env, palette: seq<string>, clean: string -> string,
                          find: (string, string) -> Result<seq<Span>, Error>): (outcome: string -> Result<Annotated, Error>)
    requires forall p, t :: SpansWithin(find(p, t), t)
    ensures forall text {:trigger CaptionOutcome(env, palette, clean, find, text)} :: outcome(text) == CaptionOutcome(env, palette, clean, find, text)
  {
    text => CaptionOutcome(env, palette, clean, find, text)
  }

  /** The first n captions of keys were handled without error. */
  ghost predicate AllPlanned(outcome: string -> Result<Annotated, Error>, parsed: map<int, Caption>, keys: seq<int>, n: nat) {
    n <= |keys| && forall i :: 0 <= i < n ==> keys[i] in parsed && outcome(parsed[keys[i]].content).Success?
  }

  /** None of the first n captions of keys got definition lines. */
  ghost predicate NoneAnnotated(outcome: string -> Result<Annotated, Error>, parsed: map<int, Caption>, keys: seq<int>, n: nat)
    requires AllPlanned(outcome, parsed, keys, n)
  {
    forall i :: 0 <= i < n ==> |outcome(parsed[keys[i]].content).value.state.annotations| == 0
  }

  /**
   * What annotate does to the annotation captions: no lines add nothing; otherwise the lines,
   * joined with a literal \N, become one caption in the given style with the caption's times,
   * under the first key after the caption's key that neither map uses.
   */
  function AnnotateOnce(annotations: map<int, Caption>, captionKeys: set<int>, key: int, start: int, end: int,
                        lines: seq<string>, style: string): map<int, Caption>
  {
    if |lines| == 0 then annotations
    else annotations[FreeKey(key + 1, captionKeys, annotations.Keys) := Caption(style, start, end, Join(lines, "\\N"))]
  }

  /**
   * The annotation captions once the first n captions of keys are handled, starting from those
   * the mark left: one more caption per handled caption that got definition lines, in key order.
   */
  ghost function AnnotationsAfter(outcome: string -> Result<Annotated, Error>, parsed: map<int, Caption>, keys: seq<int>,
                                  n: nat, style: string, marked: map<int, Caption>): map<int, Caption>
    requires AllPlanned(outcome, parsed, keys, n)
  {
    if n == 0 then marked
    else
      var k := keys[n - 1];
      AnnotateOnce(AnnotationsAfter(outcome, parsed, keys, n - 1, style, marked), parsed.Keys, k, parsed[k].start, parsed[k].end,
                   outcome(parsed[k].content).value.state.annotations, style)
  }

  /** The caption map: the first n captions of keys highlighted, the others as parsed, all in the given style. */
  ghost predicate CaptionsAt(captions: map<int, Caption>, parsed: map<int, Caption>, keys: seq<int>, n: nat,
                             outcome: string -> Result<Annotated, Error>, style: string)
    requires AllPlanned(outcome, parsed, keys, n)
  {
    && (forall i :: 0 <= i < n ==>
          keys[i] in captions
          && captions[keys[i]] == parsed[keys[i]].(style := style, content := outcome(parsed[keys[i]].content).value.content))
    && (forall i :: n <= i < |keys| ==>
          keys[i] in parsed && keys[i] in captions && captions[keys[i]] == parsed[keys[i]].(style := style))
  }

  /** Every caption of the file, in the given style, with its highlighted content. */
  ghost function HighlightedCaptions(outcome: string -> Result<Annotated, Error>, parsed: map<int, Caption>, style: string)
    : map<int, Caption>
    requires forall k :: k in parsed ==> outcome(parsed[k].content).Success?
  {
    map k | k in parsed :: parsed[k].(style := style, content := outcome(parsed[k].content).value.content)
  }

  /**
   * The annotation captions addJijimakuMark leaves in a non-empty file: the mark naming the
   * dictionary at key 0, unless the first caption starts at 0 or the resource could not be read.
   */
  function MarkCaptions(keys: seq<int>, dictionaryTitle: string, mark: Option<Caption>): map<int, Caption>
    requires |keys| > 0
  {
    if keys[0] != 0 && mark.Some? then map[0 := mark.value.(content := MARK_PREFIX + dictionaryTitle + RESET_TAG)] else map[]
  }

  /**
   * One turn of the caption loop: take the next caption, clean its text, find the filtered
   * matches, highlight and gather their definitions, and annotate the caption with them. It
   * succeeds exactly when the caption's plan and highlighting do; then the caption holds its
   * highlighted content and annotate has added the definition caption.
   */
  method AnnotateNextCaption(env: Env, subtitle: SubtitleFile, palette: seq<string>, clean: string -> string,
                             find: (string, string) -> Result<seq<Span>, Error>, ghost outcome: string -> Result<Annotated, Error>)
    returns (r: Result<(), Error>)
    requires subtitle.Valid() && subtitle.HasNext()
    requires forall p, t :: SpansWithin(find(p, t), t)
    requires outcome == Outcomes(env, palette, clean, find)
    modifies subtitle
    ensures subtitle.Valid()
    ensures subtitle.order == old(subtitle.order) && subtitle.pos == old(subtitle.pos) + 1
    ensures subtitle.captions.Keys == old(subtitle.captions).Keys
    ensures forall k :: k in old(subtitle.captions) && k != subtitle.order[old(subtitle.pos)] ==>
              subtitle.captions[k] == old(subtitle.captions)[k]
    ensures var key := subtitle.order[old(subtitle.pos)];
            r.Success? <==> outcome(old(subtitle.captions)[key].content).Success?
    ensures var key := subtitle.order[old(subtitle.pos)];
            var cur := old(subtitle.captions)[key];
            var done := outcome(cur.content);
            r.Success? ==>
              && subtitle.captions[key] == cur.(content := done.value.content)
              && subtitle.annotationCaptions
                 == AnnotateOnce(old(subtitle.annotationCaptions), subtitle.captions.Keys, key, cur.start, cur.end,
                                 done.value.state.annotations, StyleOf(subtitle.styles, DEFINITION_STYLE))
              && subtitle.nbCaptionAnnotated
                 == old(subtitle.nbCaptionAnnotated) + (if |done.value.state.annotations| == 0 then 0 else 1)
  {
    var text := subtitle.NextCaption();
    var matches := GetFilteredMatches(env, clean(text.value));
    assert outcome(text.value) == CaptionOutcome(env, palette, clean, find, text.value)
                               == MatchesOutcome(env, palette, matches, text.value, find);
    r := AnnotateCurrent(env, subtitle, palette, matches, find);
  }

  /**
   * The loop body after nextCaption: highlight and gather the definitions of the matches in the
   * current caption, then annotate it; done is what the plan and the highlighting give.
   */
  method AnnotateCurrent(env: Env, subtitle: SubtitleFile, palette: seq<string>, matches: seq<DictionaryMatch>,
                         find: (string, string) -> Result<seq<Span>, Error>)
    returns (r: Result<(), Error>)
    requires subtitle.Valid() && subtitle.current.Some?
    requires forall p, t :: SpansWithin(find(p, t), t)
    modifies subtitle
    ensures subtitle.Valid()
    ensures subtitle.order == old(subtitle.order) && subtitle.pos == old(subtitle.pos) && subtitle.current == old(subtitle.current)
    ensures var key := subtitle.current.value;
            subtitle.captions == old(subtitle.captions)[key := old(subtitle.captions)[key].(content := subtitle.captions[key].content)]
    ensures var done := MatchesOutcome(env, palette, matches, old(subtitle.captions)[subtitle.current.value].content, find);
            r.Success? <==> done.Success?
    ensures var key := subtitle.current.value;
            var cur := old(subtitle.captions)[key];
            var done := MatchesOutcome(env, palette, matches, cur.content, find);
            r.Success? ==>
              && subtitle.captions[key].content == done.value.content
              && subtitle.annotationCaptions
                 == AnnotateOnce(old(subtitle.annotationCaptions), subtitle.captions.Keys, key, cur.start, cur.end,
                                 done.value.state.annotations, StyleOf(subtitle.styles, DEFINITION_STYLE))
              && subtitle.nbCaptionAnnotated
                 == old(subtitle.nbCaptionAnnotated) + (if |done.value.state.annotations| == 0 then 0 else 1)
  {
    var annotations := AnnotateCaption(env, subtitle, palette, matches, find);
    if annotations.Failure? {
      return Failure(annotations.error);
    }
    var annotated := subtitle.Annotate(annotations.value);
    if annotated.Failure? {
      return Failure(annotated.error);
    }
    return Success(());
  }

  /** One more caption handled: the file has still no definition exactly when it got none. */
  lemma PlannedSnoc(outcome: string -> Result<Annotated, Error>, parsed: map<int, Caption>, keys: seq<int>, pos: nat)
    requires pos < |keys| && keys[pos] in parsed
    requires AllPlanned(outcome, parsed, keys, pos)
    requires outcome(parsed[keys[pos]].content).Success?
    ensures AllPlanned(outcome, parsed, keys, pos + 1)
    ensures NoneAnnotated(outcome, parsed, keys, pos + 1)
            <==> NoneAnnotated(outcome, parsed, keys, pos)
                 && |outcome(parsed[keys[pos]].content).value.state.annotations| == 0
  {
  }

  /** Handled over the whole key list is handled for every caption of the map. */
  lemma PlannedKeys(outcome: string -> Result<Annotated, Error>, parsed: map<int, Caption>, keys: seq<int>)
    requires forall k :: k in parsed <==> k in keys
    requires AllPlanned(outcome, parsed, keys, |keys|)
    ensures forall k :: k in parsed ==> outcome(parsed[k].content).Success?
    ensures NoneAnnotated(outcome, parsed, keys, |keys|) <==>
              forall k :: k in parsed ==> |outcome(parsed[k].content).value.state.annotations| == 0
  {
    forall k | k in parsed
      ensures outcome(parsed[k].content).Success?
    {
      var i :| 0 <= i < |keys| && keys[i] == k;
    }
    if NoneAnnotated(outcome, parsed, keys, |keys|) {
      forall k | k in parsed
        ensures |outcome(parsed[k].content).value.state.annotations| == 0
      {
        var i :| 0 <= i < |keys| && keys[i] == k;
        assert |outcome(parsed[keys[i]].content).value.state.annotations| == 0;
      }
    } else {
      var i :| 0 <= i < |keys| && |outcome(parsed[keys[i]].content).value.state.annotations| != 0;
      var k := keys[i];
      assert k in parsed && |outcome(parsed[k].content).value.state.annotations| != 0;
    }
  }

  /** Once every caption is handled, the caption map is the file's captions highlighted. */
  lemma HighlightedAll(captions: map<int, Caption>, parsed: map<int, Caption>, keys: seq<int>,
                       outcome: string -> Result<Annotated, Error>, style: string)
    requires forall k :: k in parsed <==> k in keys
    requires captions.Keys == parsed.Keys
    requires AllPlanned(outcome, parsed, keys, |keys|) && CaptionsAt(captions, parsed, keys, |keys|, outcome, style)
    requires forall k :: k in parsed ==> outcome(parsed[k].content).Success?
    ensures captions == HighlightedCaptions(outcome, parsed, style)
  {
    forall k | k in parsed
      ensures captions[k] == parsed[k].(style := style, content := outcome(parsed[k].content).value.content)
    {
      var i :| 0 <= i < |keys| && keys[i] == k;
    }
  }

  /**
   * annotateSubtitleFile, given the configured style names, the captions the subtitle parser
   * produced (keys in ascending order), the mark caption, the configured palette,
   * cleanCaptionText and the regex search. An empty file fails in addJijimakuMark. Otherwise it
   * succeeds exactly when every caption's plan and highlighting do, and a failure comes from the
   * first caption that fails. The result is None exactly when no caption got a definition, and
   * otherwise every caption highlighted with its own plan's words, merged with the mark and one
   * definition caption per caption that has lines, each under the first free key after its caption.
   */
  method AnnotateSubtitleFile(env: Env, styles: set<string>, parsed: map<int, Caption>, keys: seq<int>, dictionaryTitle: string,
                              mark: Option<Caption>, palette: seq<string>, clean: string -> string,
                              find: (string, string) -> Result<seq<Span>, Error>)
    returns (r: Result<Option<map<int, Caption>>, Error>)
    requires forall i, j :: 0 <= i < j < |keys| ==> keys[i] < keys[j]
    requires forall k :: k in parsed <==> k in keys
    requires forall p, t :: SpansWithin(find(p, t), t)
    ensures |keys| == 0 ==> r == Failure(NoSuchElement)
    ensures |keys| > 0 ==> (r.Success? <==> AllPlanned(Outcomes(env, palette, clean, find), parsed, keys, |keys|))
    ensures r.Failure? && |keys| > 0 ==>
              exists n :: 0 <= n < |keys| && AllPlanned(Outcomes(env, palette, clean, find), parsed, keys, n)
                          && keys[n] in parsed && CaptionOutcome(env, palette, clean, find, parsed[keys[n]].content).Failure?
    ensures r.Success? ==> forall k :: k in parsed ==> CaptionOutcome(env, palette, clean, find, parsed[k].content).Success?
    ensures r.Success? ==>
              var outcome := Outcomes(env, palette, clean, find);
              r.value == if forall k :: k in parsed ==> |outcome(parsed[k].content).value.state.annotations| == 0 then None
                         else Some(Merge(HighlightedCaptions(outcome, parsed, StyleOf(styles, DEFAULT_STYLE)),
                                         AnnotationsAfter(outcome, parsed, keys, |keys|, StyleOf(styles, DEFINITION_STYLE),
                                                          MarkCaptions(keys, dictionaryTitle, mark))))
    ensures r.Success? && r.value.Some? ==> parsed.Keys <= r.value.value.Keys
  {
    ghost var outcome := Outcomes(env, palette, clean, find);
    var subtitle := new SubtitleFile(styles, parsed, keys);
    var marked := subtitle.AddJijimakuMark(dictionaryTitle, mark);
    if marked.Failure? {
      return Failure(marked.error);
    }
    assert subtitle.annotationCaptions == MarkCaptions(keys, dictionaryTitle, mark);
    var done := AnnotateCaptions(env, subtitle, parsed, palette, clean, find, outcome);
    if done.Failure? {
      assert AllPlanned(outcome, parsed, keys, subtitle.pos - 1);
      return Failure(done.error);
    }
    PlannedKeys(outcome, parsed, keys);
    HighlightedAll(subtitle.captions, parsed, keys, outcome, StyleOf(styles, DEFAULT_STYLE));
    if subtitle.nbCaptionAnnotated == 0 {
      return Success(None);
    }
    var merged := subtitle.ToAssFormat();
    return Success(Some(merged));
  }

  /**
   * What the caption loop keeps: the captions handled so far were planned and hold their
   * highlighted content, the others their parsed one; the annotation captions are those the
   * handled captions added after the mark's; and the count is zero exactly when none got lines.
   */
  ghost predicate CaptionLoop(subtitle: SubtitleFile, parsed: map<int, Caption>, keys: seq<int>,
                              outcome: string -> Result<Annotated, Error>, marked: map<int, Caption>)
    reads subtitle
  {
    && subtitle.Valid()
    && LoopState(subtitle.order, subtitle.captions, subtitle.pos, subtitle.annotationCaptions, subtitle.nbCaptionAnnotated,
                 subtitle.styles, parsed, keys, outcome, marked)
  }

  /** CaptionLoop on the values of the file's fields. */
  ghost predicate LoopState(order: seq<int>, captions: map<int, Caption>, pos: nat, annotations: map<int, Caption>, nb: int,
                            styles: set<string>, parsed: map<int, Caption>, keys: seq<int>,
                            outcome: string -> Result<Annotated, Error>, marked: map<int, Caption>)
  {
    && order == keys && captions.Keys == parsed.Keys
    && (forall k :: k in parsed <==> k in keys)
    && AllPlanned(outcome, parsed, keys, pos)
    && CaptionsAt(captions, parsed, keys, pos, outcome, StyleOf(styles, DEFAULT_STYLE))
    && annotations == AnnotationsAfter(outcome, parsed, keys, pos, StyleOf(styles, DEFINITION_STYLE), marked)
    && nb >= 0
    && (nb == 0 <==> NoneAnnotated(outcome, parsed, keys, pos))
  }

  /** Before the first caption, the loop state holds of the parsed captions in the default style. */
  lemma LoopStarts(order: seq<int>, captions: map<int, Caption>, annotations: map<int, Caption>, styles: set<string>,
                   parsed: map<int, Caption>, outcome: string -> Result<Annotated, Error>)
    requires forall k :: k in captions <==> k in order
    requires captions.Keys == parsed.Keys
    requires forall k :: k in parsed ==> captions[k] == parsed[k].(style := StyleOf(styles, DEFAULT_STYLE))
    ensures LoopState(order, captions, 0, annotations, 0, styles, parsed, order, outcome, annotations)
  {
    forall i | 0 <= i < |order|
      ensures order[i] in parsed && order[i] in captions
              && captions[order[i]] == parsed[order[i]].(style := StyleOf(styles, DEFAULT_STYLE))
    {
      var k := order[i];
      assert k in order;
    }
  }

  /** A handled caption moves the loop state one caption on. */
  lemma LoopStep(keys: seq<int>, captions: map<int, Caption>, pos: nat, annotations: map<int, Caption>, nb: int,
                 styles: set<string>, parsed: map<int, Caption>, outcome: string -> Result<Annotated, Error>,
                 marked: map<int, Caption>, captions': map<int, Caption>, annotations': map<int, Caption>, nb': int)
    requires forall i, j :: 0 <= i < j < |keys| ==> keys[i] < keys[j]
    requires LoopState(keys, captions, pos, annotations, nb, styles, parsed, keys, outcome, marked)
    requires pos < |keys| && outcome(captions[keys[pos]].content).Success?
    requires captions'.Keys == captions.Keys
    requires captions'[keys[pos]] == captions[keys[pos]].(content := outcome(captions[keys[pos]].content).value.content)
    requires forall k :: k in captions && k != keys[pos] ==> captions'[k] == captions[k]
    requires var cur, lines := captions[keys[pos]], outcome(captions[keys[pos]].content).value.state.annotations;
             && annotations' == AnnotateOnce(annotations, captions'.Keys, keys[pos], cur.start, cur.end, lines,
                                             StyleOf(styles, DEFINITION_STYLE))
             && nb' == nb + (if |lines| == 0 then 0 else 1)
    ensures LoopState(keys, captions', pos + 1, annotations', nb', styles, parsed, keys, outcome, marked)
  {
    var key := keys[pos];
    assert key in parsed && captions[key] == parsed[key].(style := StyleOf(styles, DEFAULT_STYLE));
    PlannedSnoc(outcome, parsed, keys, pos);
    CaptionsAtStep(captions, captions', parsed, keys, pos, outcome, StyleOf(styles, DEFAULT_STYLE));
  }

  /**
   * The caption loop of annotateSubtitleFile, from the first caption to the last: it succeeds
   * exactly when every caption's plan and highlighting do, stopping at the first caption that
   * fails; then every caption holds its highlighted content, the annotation captions are the
   * definition captions added after the ones already there, and the count is zero exactly when
   * no caption got lines.
   */
  method AnnotateCaptions(env: Env, subtitle: SubtitleFile, parsed: map<int, Caption>, palette: seq<string>,
                          clean: string -> string, find: (string, string) -> Result<seq<Span>, Error>,
                          ghost outcome: string -> Result<Annotated, Error>)
    returns (r: Result<(), Error>)
    requires subtitle.Valid() && subtitle.pos == 0 && subtitle.nbCaptionAnnotated == 0
    requires subtitle.captions.Keys == parsed.Keys
    requires forall k :: k in parsed ==> subtitle.captions[k] == parsed[k].(style := StyleOf(subtitle.styles, DEFAULT_STYLE))
    requires forall p, t :: SpansWithin(find(p, t), t)
    requires outcome == Outcomes(env, palette, clean, find)
    modifies subtitle
    ensures subtitle.order == old(subtitle.order) && subtitle.captions.Keys == parsed.Keys
    ensures r.Success? <==> AllPlanned(outcome, parsed, subtitle.order, |subtitle.order|)
    ensures r.Failure? ==>
              && 0 < subtitle.pos <= |subtitle.order| && AllPlanned(outcome, parsed, subtitle.order, subtitle.pos - 1)
              && subtitle.order[subtitle.pos - 1] in parsed
              && outcome(parsed[subtitle.order[subtitle.pos - 1]].content).Failure?
    ensures r.Success? ==>
              && CaptionsAt(subtitle.captions, parsed, subtitle.order, |subtitle.order|, outcome, StyleOf(subtitle.styles, DEFAULT_STYLE))
              && subtitle.annotationCaptions
                 == AnnotationsAfter(outcome, parsed, subtitle.order, |subtitle.order|, StyleOf(subtitle.styles, DEFINITION_STYLE),
                                     old(subtitle.annotationCaptions))
              && (subtitle.nbCaptionAnnotated == 0 <==> NoneAnnotated(outcome, parsed, subtitle.order, |subtitle.order|))
  {
    ghost var keys := subtitle.order;
    ghost var marked := subtitle.annotationCaptions;
    LoopStarts(keys, subtitle.captions, marked, subtitle.styles, parsed, outcome);
    while subtitle.HasNext()
      invariant CaptionLoop(subtitle, parsed, keys, outcome, marked)
      decreases |keys| - subtitle.pos
    {
      var done := AnnotateCaptionStep(env, subtitle, parsed, palette, clean, find, outcome, keys, marked);
      if done.Failure? {
        return Failure(done.error);
      }
    }
    return Success(());
  }

  /** One turn of the caption loop, with what it keeps; it fails exactly when the caption it takes does. */
  method AnnotateCaptionStep(env: Env, subtitle: SubtitleFile, parsed: map<int, Caption>, palette: seq<string>,
                             clean: string -> string, find: (string, string) -> Result<seq<Span>, Error>,
                             ghost outcome: string -> Result<Annotated, Error>, ghost keys: seq<int>, ghost marked: map<int, Caption>)
    returns (r: Result<(), Error>)
    requires CaptionLoop(subtitle, parsed, keys, outcome, marked) && subtitle.HasNext()
    requires forall p, t :: SpansWithin(find(p, t), t)
    requires outcome == Outcomes(env, palette, clean, find)
    modifies subtitle
    ensures subtitle.order == old(subtitle.order) && subtitle.captions.Keys == parsed.Keys
    ensures subtitle.pos == old(subtitle.pos) + 1 && keys[old(subtitle.pos)] in parsed
    ensures AllPlanned(outcome, parsed, keys, old(subtitle.pos))
    ensures r.Success? <==> outcome(parsed[keys[old(subtitle.pos)]].content).Success?
    ensures r.Success? ==> CaptionLoop(subtitle, parsed, keys, outcome, marked)
  {
    ghost var pos := subtitle.pos;
    ghost var nb := subtitle.nbCaptionAnnotated;
    ghost var captions0 := subtitle.captions;
    ghost var annotations0 := subtitle.annotationCaptions;
    var done := AnnotateNextCaption(env, subtitle, palette, clean, find, outcome);
    if done.Failure? {
      return Failure(done.error);
    }
    LoopStep(keys, captions0, pos, annotations0, nb, subtitle.styles, parsed, outcome, marked,
             subtitle.captions, subtitle.annotationCaptions, subtitle.nbCaptionAnnotated);
    return Success(());
  }

  /** Highlighting the next caption moves it from the parsed captions to the handled ones. */
  lemma CaptionsAtStep(captions: map<int, Caption>, captions': map<int, Caption>, parsed: map<int, Caption>, keys: seq<int>,
                       n: nat, outcome: string -> Result<Annotated, Error>, style: string)
    requires forall i, j :: 0 <= i < j < |keys| ==> keys[i] < keys[j]
    requires n < |keys| && AllPlanned(outcome, parsed, keys, n + 1)
    requires CaptionsAt(captions, parsed, keys, n, outcome, style)
    requires captions'.Keys == captions.Keys
    requires captions'[keys[n]] == captions[keys[n]].(content := outcome(parsed[keys[n]].content).value.content)
    requires forall k :: k in captions && k != keys[n] ==> captions'[k] == captions[k]
    ensures CaptionsAt(captions', parsed, keys, n + 1, outcome, style)
  {
    forall i | 0 <= i < n
      ensures captions'[keys[i]] == captions[keys[i]]
    {
      assert keys[i] < keys[n];
    }
    forall i | n < i < |keys|
      ensures captions'[keys[i]] == captions[keys[i]]
    {
      assert keys[n] < keys[i];
    }
  }
}
