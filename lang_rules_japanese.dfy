/**
 * Japanese-specific annotation rules (LangRulesJapanese): gluing the conjunctions て, で and
 * ちゃ onto the verb before them, and rejecting or ignoring short kana-only matches.
 */
module LangRulesJapanese {
  import opened JavaLang
  import opened LangParser
  import opened DictionaryMatches

  /** An SCONJ token whose text is one of PART_OF_VERB_CONJUNCTIONS. */
  predicate IsPartOfVerbConj(t: TextToken) {
    t.posTag == SCONJ && (t.textForm == "て" || t.textForm == "で" || t.textForm == "ちゃ")
  }

  predicate IsVerbLike(t: TextToken) {
    t.posTag == AUX || t.posTag == VERB
  }

  /** The merged token: the verb's tag and canonical forms, with the conjunction appended to its text. */
  function Glue(verb: TextToken, conj: TextToken): TextToken {
    TextToken(verb.posTag, verb.textForm + conj.textForm, verb.firstCanonicalForm, verb.secondCanonicalForm)
  }

  /** One iteration of the filterTokens loop. */
  function FilterStep(out: seq<TextToken>, t: TextToken): seq<TextToken> {
    if |out| > 0 && IsVerbLike(out[|out| - 1]) && IsPartOfVerbConj(t) then
      out[..|out| - 1] + [Glue(out[|out| - 1], t)]
    else
      out + [t]
  }

  /** What filterTokens returns for the given tokens. */
  function Filtered(tokens: seq<TextToken>): seq<TextToken> {
    if |tokens| == 0 then [] else FilterStep(Filtered(tokens[..|tokens| - 1]), tokens[|tokens| - 1])
  }

  /** filterTokens. */
  method FilterTokens(tokens: seq<TextToken>) returns (filteredTokens: seq<TextToken>)
    ensures filteredTokens == Filtered(tokens)
  {
    filteredTokens := [];
    for i := 0 to |tokens|
      invariant filteredTokens == Filtered(tokens[..i])
    {
      FilteredSnoc(tokens, i);
      var token := tokens[i];
      var isPartOfVerbConj := token.posTag == SCONJ && (token.textForm == "て" || token.textForm == "で" || token.textForm == "ちゃ");
      if |filteredTokens| > 0 {
        var lastOk := filteredTokens[|filteredTokens| - 1];
        if (lastOk.posTag == AUX || lastOk.posTag == VERB) && isPartOfVerbConj {
          var completeVerb := TextToken(lastOk.posTag, lastOk.textForm + token.textForm, lastOk.firstCanonicalForm, lastOk.secondCanonicalForm);
          ReplaceLast(filteredTokens, completeVerb);
          filteredTokens := filteredTokens[|filteredTokens| - 1 := completeVerb];
          continue;
        }
      }
      filteredTokens := filteredTokens + [token];
    }
    assert tokens[..|tokens|] == tokens;
  }

  lemma FilteredSnoc(tokens: seq<TextToken>, i: nat)
    requires i < |tokens|
    ensures Filtered(tokens[..i + 1]) == FilterStep(Filtered(tokens[..i]), tokens[i])
  {
    assert tokens[..i + 1][..i] == tokens[..i];
  }

  lemma ReplaceLast(out: seq<TextToken>, t: TextToken)
    requires |out| > 0
    ensures out[|out| - 1 := t] == out[..|out| - 1] + [t]
  {
  }

  /** The output never grows past the input, and is empty exactly when the input is. */
  lemma {:induction false} FilteredLength(tokens: seq<TextToken>)
    ensures |Filtered(tokens)| <= |tokens|
    ensures |Filtered(tokens)| == 0 <==> |tokens| == 0
  {
    if |tokens| > 0 {
      FilteredLength(tokens[..|tokens| - 1]);
    }
  }

  /** Merging only regroups characters: the concatenated text of the tokens is unchanged. */
  lemma {:induction false} FilteredKeepsText(tokens: seq<TextToken>)
    ensures Join(TextForms(Filtered(tokens)), "") == Join(TextForms(tokens), "")
  {
    if |tokens| > 0 {
      var init := tokens[..|tokens| - 1];
      var t := tokens[|tokens| - 1];
      FilteredKeepsText(init);
      assert tokens == init + [t];
      TextFormsSnoc(init, t);
      JoinEmptySnoc(TextForms(init), t.textForm);
      FilterStepKeepsText(Filtered(init), t);
    }
  }

  /** One step appends the token's text to the text of the output, merged or not. */
  lemma FilterStepKeepsText(out: seq<TextToken>, t: TextToken)
    ensures Join(TextForms(FilterStep(out, t)), "") == Join(TextForms(out), "") + t.textForm
  {
    if |out| > 0 && IsVerbLike(out[|out| - 1]) && IsPartOfVerbConj(t) {
      var prefix := out[..|out| - 1];
      var last := out[|out| - 1];
      assert out == prefix + [last];
      TextFormsSnoc(prefix, last);
      JoinEmptySnoc(TextForms(prefix), last.textForm);
      TextFormsSnoc(prefix, Glue(last, t));
      JoinEmptySnoc(TextForms(prefix), last.textForm + t.textForm);
    } else {
      TextFormsSnoc(out, t);
      JoinEmptySnoc(TextForms(out), t.textForm);
    }
  }

  /**
   * The first token is never merged into anything: the first output token keeps its tag and
   * canonical forms, and its text starts with the first input token's text.
   */
  lemma {:induction false} FilteredFirstToken(tokens: seq<TextToken>)
    requires |tokens| > 0
    ensures |Filtered(tokens)| > 0
    ensures Filtered(tokens)[0].posTag == tokens[0].posTag
    ensures Filtered(tokens)[0].firstCanonicalForm == tokens[0].firstCanonicalForm
    ensures Filtered(tokens)[0].secondCanonicalForm == tokens[0].secondCanonicalForm
    ensures IsPrefix(tokens[0].textForm, Filtered(tokens)[0].textForm)
  {
    if |tokens| > 1 {
      var init := tokens[..|tokens| - 1];
      FilteredFirstToken(init);
      FilteredLength(init);
      var out := Filtered(init);
      var t := tokens[|tokens| - 1];
      if |out| > 0 && IsVerbLike(out[|out| - 1]) && IsPartOfVerbConj(t) && |out| == 1 {
        var g := Glue(out[0], t);
        assert Filtered(tokens)[0] == g;
        assert g.textForm[..|tokens[0].textForm|] == out[0].textForm[..|tokens[0].textForm|];
      }
    }
  }

  /** Tokens that are not verb conjunctions pass through unchanged and in order. */
  lemma {:induction false} FilteredWithoutConjunctions(tokens: seq<TextToken>)
    requires forall i :: 0 <= i < |tokens| ==> !IsPartOfVerbConj(tokens[i])
    ensures Filtered(tokens) == tokens
  {
    if |tokens| > 0 {
      FilteredWithoutConjunctions(tokens[..|tokens| - 1]);
    }
  }

  /**
   * Merges chain: after a verb or auxiliary, any run of conjunctions folds into that one token,
   * which keeps its tag and canonical forms and gains all their text.
   */
  lemma {:induction false} FilteredChain(tokens: seq<TextToken>, conjs: seq<TextToken>)
    requires |Filtered(tokens)| > 0 && IsVerbLike(Filtered(tokens)[|Filtered(tokens)| - 1])
    requires forall i :: 0 <= i < |conjs| ==> IsPartOfVerbConj(conjs[i])
    ensures Filtered(tokens + conjs) == Filtered(tokens)[..|Filtered(tokens)| - 1] + [Chain(Filtered(tokens)[|Filtered(tokens)| - 1], conjs)]
  {
    var out := Filtered(tokens);
    var verb := out[|out| - 1];
    if |conjs| == 0 {
      ChainEmpty(tokens, out, verb);
      assert tokens + conjs == tokens;
    } else {
      FilteredChain(tokens, conjs[..|conjs| - 1]);
      ChainExtend(tokens, conjs, out[..|out| - 1], verb);
    }
  }

  lemma ChainEmpty(tokens: seq<TextToken>, out: seq<TextToken>, verb: TextToken)
    requires |out| > 0 && out[|out| - 1] == verb
    ensures out == out[..|out| - 1] + [Chain(verb, [])]
  {
    assert TextForms([]) == [];
    assert Chain(verb, []) == verb;
  }

  /** One more conjunction after the chain is glued onto it. */
  lemma ChainExtend(tokens: seq<TextToken>, conjs: seq<TextToken>, prefix: seq<TextToken>, verb: TextToken)
    requires |conjs| > 0
    requires Filtered(tokens + conjs[..|conjs| - 1]) == prefix + [Chain(verb, conjs[..|conjs| - 1])]
    requires IsVerbLike(verb) && IsPartOfVerbConj(conjs[|conjs| - 1])
    ensures Filtered(tokens + conjs) == prefix + [Chain(verb, conjs)]
  {
    var init := conjs[..|conjs| - 1];
    var c := conjs[|conjs| - 1];
    FilteredAppendLast(tokens, conjs);
    GlueStep(prefix, Chain(verb, init), c);
    ChainSnoc(verb, init, c);
    LastSplit(conjs);
  }

  lemma FilteredAppendLast(tokens: seq<TextToken>, more: seq<TextToken>)
    requires |more| > 0
    ensures Filtered(tokens + more) == FilterStep(Filtered(tokens + more[..|more| - 1]), more[|more| - 1])
  {
    AppendInit(tokens, more);
  }

  lemma AppendInit(a: seq<TextToken>, b: seq<TextToken>)
    requires |b| > 0
    ensures (a + b)[..|a + b| - 1] == a + b[..|b| - 1] && (a + b)[|a + b| - 1] == b[|b| - 1]
  {
  }

  lemma LastSplit(s: seq<TextToken>)
    requires |s| > 0
    ensures s[..|s| - 1] + [s[|s| - 1]] == s
  {
  }

  /** The verb token with a run of conjunctions glued on. */
  function Chain(verb: TextToken, conjs: seq<TextToken>): TextToken {
    TextToken(verb.posTag, verb.textForm + Join(TextForms(conjs), ""), verb.firstCanonicalForm, verb.secondCanonicalForm)
  }

  lemma ChainSnoc(verb: TextToken, conjs: seq<TextToken>, c: TextToken)
    ensures Glue(Chain(verb, conjs), c) == Chain(verb, conjs + [c])
  {
    TextFormsSnoc(conjs, c);
    JoinEmptySnoc(TextForms(conjs), c.textForm);
  }

  lemma GlueStep(prefix: seq<TextToken>, v: TextToken, c: TextToken)
    requires IsVerbLike(v) && IsPartOfVerbConj(c)
    ensures FilterStep(prefix + [v], c) == prefix + [Glue(v, c)]
  {
    assert (prefix + [v])[..|prefix|] == prefix;
  }

  // ---------------------------------------------------------------- kana tests

  /** [\p{InHiragana}ー]: the Hiragana block U+3040-U+309F, or the prolonged sound mark. */
  predicate IsHiraganaChar(c: char) {
    ('\U{3040}' <= c <= '\U{309F}') || c == '\U{30FC}'
  }

  /** [\p{InKatakana}ー]: the Katakana block U+30A0-U+30FF (which holds U+30FC). */
  predicate IsKatakanaChar(c: char) {
    '\U{30A0}' <= c <= '\U{30FF}'
  }

  /** IS_HIRAGANA_RE.matcher(s).matches(): one or more hiragana characters and nothing else. */
  predicate IsHiragana(s: string) {
    |s| > 0 && forall i :: 0 <= i < |s| ==> IsHiraganaChar(s[i])
  }

  predicate IsKatakana(s: string) {
    |s| > 0 && forall i :: 0 <= i < |s| ==> IsKatakanaChar(s[i])
  }

  /** isValidMatch: reject a hiragana-only match of at most three UTF-16 units with no verb. */
  predicate IsValidMatch(m: DictionaryMatch) {
    !(Utf16Length(TextForm(m)) <= 3 && IsHiragana(TextForm(m)) && !HasVerb(m))
  }

  /** isIgnoredMatch: ignore an all-hiragana or all-katakana match with no verb. */
  predicate IsIgnoredMatch(m: DictionaryMatch) {
    (IsHiragana(TextForm(m)) || IsKatakana(TextForm(m))) && !HasVerb(m)
  }

  /** Kana all lie in the Basic Multilingual Plane, so a kana string's Java length is its character count. */
  lemma {:induction false} KanaUtf16Length(s: string)
    requires forall i :: 0 <= i < |s| ==> IsHiraganaChar(s[i]) || IsKatakanaChar(s[i])
    ensures Utf16Length(s) == |s|
  {
    if |s| > 0 {
      KanaUtf16Length(s[..|s| - 1]);
    }
  }

  /** isValidMatch fails exactly for verb-less hiragana matches of one to three characters. */
  lemma ValidMatchExactly(m: DictionaryMatch)
    ensures !IsValidMatch(m) <==> (IsHiragana(TextForm(m)) && |TextForm(m)| <= 3 && !HasVerb(m))
  {
    if IsHiragana(TextForm(m)) {
      KanaUtf16Length(TextForm(m));
    }
  }

  /** Every match isValidMatch rejects would also be ignored by isIgnoredMatch. */
  lemma InvalidIsIgnored(m: DictionaryMatch)
    requires !IsValidMatch(m)
    ensures IsIgnoredMatch(m)
  {
  }

  /** A match with a verb is always valid and never ignored. */
  lemma VerbMatchKept(m: DictionaryMatch)
    requires HasVerb(m)
    ensures IsValidMatch(m) && !IsIgnoredMatch(m)
  {
  }
}
