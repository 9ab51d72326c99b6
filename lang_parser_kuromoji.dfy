/**
 * LangParserKuromoji: the mapping from the tokens of the kuromoji (UniDic) tokenizer to
 * TextTokens. The tokenizer itself is a foreign library; its tokens are inputs here, each with its
 * surface, written form, written base form, lemma and feature array.
 */
module LangParserKuromoji {
  import opened Wrappers
  import opened JavaLang
  import opened LangParser

  /** What kuromoji writes for a form it does not know. */
  const MISSING_FORM: string := "*"

  /** Written forms forced to PUNCT whatever their features say. */
  const PUNCTUATION_TOKENS: seq<string> := ["｡", "…｡", "｢", "｣", "、", "（", "）", "."]

  /** The pre-noun adjectivals (連体詞) that are determiners. */
  const RENTAISHI_DET: seq<string> := ["その", "どの", "この"]

  /** The case particles (格助詞) that join nouns. */
  const NOUN_CONJUNCTIONS: seq<string> := ["と", "か"]

  /** A kuromoji token: features[0] is the grammatical type, features[1] the subtype. */
  datatype KuroToken = KuroToken(surface: string, writtenForm: string, writtenBaseForm: string, lemmaForm: string, features: seq<string>)

  /** The subtypes the first switch of getTokenPosTag decides on. */
  predicate IsDecidingSubtype(subtype: string) {
    subtype in {"数詞", "固有名詞", "副助詞", "終助詞", "接続助詞", "準体助詞", "格助詞", "普通名詞"}
  }

  /** The types the second switch of getTokenPosTag names. */
  predicate IsKnownType(t: string) {
    t in {"連体詞", "形容詞", "形状詞", "副詞", "感動詞", "接頭辞", "接尾辞", "動詞", "助動詞", "接続詞", "代名詞", "補助記号", "空白"}
  }

  /** The first switch of getTokenPosTag, on the subtype. */
  function SubtypeTag(subtype: string, writtenForm: string): (r: Option<PosTag>)
    ensures r.Some? <==> IsDecidingSubtype(subtype)
  {
    if subtype == "数詞" then Some(NUM)
    else if subtype == "固有名詞" then Some(PROPN)
    else if subtype == "副助詞" || subtype == "終助詞" then Some(PART)
    else if subtype == "接続助詞" || subtype == "準体助詞" then Some(SCONJ)
    else if subtype == "格助詞" then Some(if writtenForm in NOUN_CONJUNCTIONS then CCONJ else ADP)
    else if subtype == "普通名詞" then Some(NOUN)
    else None
  }

  /**
   * Whether the previous token's type is one of the given ones: false when there is no previous
   * token, and an ArrayIndexOutOfBoundsException when its feature array is empty.
   */
  function PreviousTypeIn(previousFeatures: Option<seq<string>>, types: set<string>): (r: Result<bool, Error>)
    ensures r.Failure? <==> previousFeatures.Some? && |previousFeatures.value| == 0
    ensures r.Success? ==> (r.value <==> previousFeatures.Some? && previousFeatures.value[0] in types)
  {
    match previousFeatures
    case None => Success(false)
    case Some(pf) => if |pf| == 0 then Failure(IndexOutOfBounds) else Success(pf[0] in types)
  }

  /** The second switch of getTokenPosTag, on the type. */
  function TypeTag(typeName: string, subtype: string, previousFeatures: Option<seq<string>>, writtenForm: string): (r: Result<PosTag, Error>)
    ensures !IsKnownType(typeName) ==> r == Success(UNKNOWN)
  {
    if typeName == "連体詞" then Success(if writtenForm in RENTAISHI_DET then DET else ADJ)
    else if typeName == "形容詞" then
      if subtype == "非自立可能" then
        var aux :- PreviousTypeIn(previousFeatures, {"形容詞", "形状詞"});
        Success(if aux then AUX else ADJ)
      else Success(ADJ)
    else if typeName == "形状詞" then Success(ADJ)
    else if typeName == "副詞" then Success(ADV)
    else if typeName == "感動詞" then Success(INTJ)
    else if typeName == "接頭辞" || typeName == "接尾辞" then Success(NOUN)
    else if typeName == "動詞" then
      if subtype == "非自立可能" then
        var aux :- PreviousTypeIn(previousFeatures, {"動詞"});
        Success(if aux then AUX else VERB)
      else Success(VERB)
    else if typeName == "助動詞" then Success(AUX)
    else if typeName == "接続詞" then Success(CCONJ)
    else if typeName == "代名詞" then Success(PRON)
    else if typeName == "補助記号" then Success(SYM)
    else if typeName == "空白" then Success(X)
    else Success(UNKNOWN)
  }

  /**
   * getTokenPosTag: a punctuation written form is PUNCT; otherwise the subtype decides when the
   * first table has it, and the type decides otherwise. A feature array too short for the index
   * read is an ArrayIndexOutOfBoundsException.
   */
  function GetTokenPosTag(previous: Option<KuroToken>, current: KuroToken, writtenForm: string): (r: Result<PosTag, Error>)
    ensures writtenForm in PUNCTUATION_TOKENS ==> r == Success(PUNCT)
    ensures writtenForm !in PUNCTUATION_TOKENS && |current.features| < 2 ==> r == Failure(IndexOutOfBounds)
  {
    var features := current.features;
    var previousFeatures := if previous.None? then None else Some(previous.value.features);
    if writtenForm in PUNCTUATION_TOKENS then Success(PUNCT)
    else if |features| < 2 then Failure(IndexOutOfBounds)
    else
      match SubtypeTag(features[1], writtenForm)
      case Some(tag) => Success(tag)
      case None => TypeTag(features[0], features[1], previousFeatures, writtenForm)
  }

  /** A written form of "*" falls back to the surface form. */
  function WrittenFormOf(token: KuroToken): (r: string)
    ensures token.writtenForm != MISSING_FORM ==> r == token.writtenForm
    ensures token.writtenForm == MISSING_FORM ==> r == token.surface
  {
    if token.writtenForm != MISSING_FORM then token.writtenForm else token.surface
  }

  /** A form of "*" becomes null. */
  function KnownForm(form: string): (r: Option<string>)
    ensures r.None? <==> form == MISSING_FORM
    ensures r.Some? ==> r.value == form
  {
    if form != MISSING_FORM then Some(form) else None
  }

  /** The body of the mapToObj lambda, given the token it treats as the previous one. */
  function ParseToken(token: KuroToken, previous: Option<KuroToken>): Result<TextToken, Error> {
    var writtenForm := WrittenFormOf(token);
    var pos :- GetTokenPosTag(previous, token, writtenForm);
    NewTextToken(pos, Some(writtenForm), KnownForm(token.writtenBaseForm), KnownForm(token.lemmaForm))
  }

  /**
   * The stream over the indices, collected in order: the first exception ends the parse, and
   * otherwise token i of the result comes from kuromoji token i.
   */
  function ParseAll(tokens: seq<KuroToken>, previous: seq<Option<KuroToken>>): (r: Result<seq<TextToken>, Error>)
    requires |previous| == |tokens|
    ensures r.Success? <==> forall i :: 0 <= i < |tokens| ==> ParseToken(tokens[i], previous[i]).Success?
    ensures r.Success? ==> |r.value| == |tokens|
                           && forall i :: 0 <= i < |tokens| ==> r.value[i] == ParseToken(tokens[i], previous[i]).value
  {
    if |tokens| == 0 then Success([])
    else
      var t :- ParseToken(tokens[0], previous[0]);
      var rest :- ParseAll(tokens[1..], previous[1..]);
      Success([t] + rest)
  }

  /** The previous token as syntaxicParse passes it: kuroTokens.get(idx), the token itself. */
  function PreviousAsWritten(tokens: seq<KuroToken>): (r: seq<Option<KuroToken>>)
    ensures |r| == |tokens|
    ensures forall i :: 0 <= i < |tokens| ==> r[i] == if i == 0 then None else Some(tokens[i])
  {
    seq(|tokens|, i requires 0 <= i < |tokens| => if i == 0 then None else Some(tokens[i]))
  }

  /** The previous token as the name says: kuroTokens.get(idx - 1). */
  function PreviousTokens(tokens: seq<KuroToken>): (r: seq<Option<KuroToken>>)
    ensures |r| == |tokens|
    ensures forall i :: 0 <= i < |tokens| ==> r[i] == if i == 0 then None else Some(tokens[i - 1])
  {
    seq(|tokens|, i requires 0 <= i < |tokens| => if i == 0 then None else Some(tokens[i - 1]))
  }

  /** syntaxicParse as written. */
  function SyntaxicParseAsWritten(tokens: seq<KuroToken>): Result<seq<TextToken>, Error> {
    ParseAll(tokens, PreviousAsWritten(tokens))
  }

  /** syntaxicParse with the previous token being the one before. */
  function SyntaxicParse(tokens: seq<KuroToken>): Result<seq<TextToken>, Error> {
    ParseAll(tokens, PreviousTokens(tokens))
  }

  // ---------------------------------------------------------------- the decision table

  /** The subtype is decided before the type: 数詞 is NUM and 普通名詞 NOUN whatever the type. */
  lemma SubtypeDecidesFirst(previous: Option<KuroToken>, current: KuroToken, writtenForm: string)
    requires writtenForm !in PUNCTUATION_TOKENS && |current.features| >= 2
    requires IsDecidingSubtype(current.features[1])
    ensures GetTokenPosTag(previous, current, writtenForm) == Success(SubtypeTag(current.features[1], writtenForm).value)
    ensures current.features[1] == "数詞" ==> GetTokenPosTag(previous, current, writtenForm) == Success(NUM)
    ensures current.features[1] == "普通名詞" ==> GetTokenPosTag(previous, current, writtenForm) == Success(NOUN)
  {
  }

  /** 格助詞 is CCONJ for と and か, ADP for any other case particle. */
  lemma CaseParticle(previous: Option<KuroToken>, current: KuroToken, writtenForm: string)
    requires writtenForm !in PUNCTUATION_TOKENS && |current.features| >= 2 && current.features[1] == "格助詞"
    ensures GetTokenPosTag(previous, current, writtenForm) == Success(if writtenForm == "と" || writtenForm == "か" then CCONJ else ADP)
  {
    assert writtenForm in NOUN_CONJUNCTIONS <==> writtenForm == "と" || writtenForm == "か";
  }

  /** 連体詞 (with a subtype the first table does not have) is DET for その, どの, この, ADJ otherwise. */
  lemma PreNounAdjectival(previous: Option<KuroToken>, current: KuroToken, writtenForm: string)
    requires writtenForm !in PUNCTUATION_TOKENS && |current.features| >= 2
    requires !IsDecidingSubtype(current.features[1]) && current.features[0] == "連体詞"
    ensures GetTokenPosTag(previous, current, writtenForm) == Success(if writtenForm == "その" || writtenForm == "どの" || writtenForm == "この" then DET else ADJ)
  {
    assert writtenForm in RENTAISHI_DET <==> writtenForm == "その" || writtenForm == "どの" || writtenForm == "この";
  }

  /**
   * A 非自立可能 verb is AUX exactly when the token passed as previous is a verb, and a VERB
   * when there is none.
   */
  lemma DependentVerb(previous: Option<KuroToken>, current: KuroToken, writtenForm: string)
    requires writtenForm !in PUNCTUATION_TOKENS && |current.features| >= 2
    requires current.features[0] == "動詞" && current.features[1] == "非自立可能"
    requires previous.Some? ==> |previous.value.features| > 0
    ensures GetTokenPosTag(previous, current, writtenForm) == Success(if previous.Some? && previous.value.features[0] == "動詞" then AUX else VERB)
  {
  }

  /** A 非自立可能 adjective is AUX exactly when the token passed as previous is an adjective or 形状詞. */
  lemma DependentAdjective(previous: Option<KuroToken>, current: KuroToken, writtenForm: string)
    requires writtenForm !in PUNCTUATION_TOKENS && |current.features| >= 2
    requires current.features[0] == "形容詞" && current.features[1] == "非自立可能"
    requires previous.Some? ==> |previous.value.features| > 0
    ensures GetTokenPosTag(previous, current, writtenForm) ==
            Success(if previous.Some? && (previous.value.features[0] == "形容詞" || previous.value.features[0] == "形状詞") then AUX else ADJ)
  {
  }

  /** Features neither table knows give UNKNOWN. */
  lemma UnmatchedIsUnknown(previous: Option<KuroToken>, current: KuroToken, writtenForm: string)
    requires writtenForm !in PUNCTUATION_TOKENS && |current.features| >= 2
    requires !IsDecidingSubtype(current.features[1]) && !IsKnownType(current.features[0])
    ensures GetTokenPosTag(previous, current, writtenForm) == Success(UNKNOWN)
  {
  }

  // ---------------------------------------------------------------- syntaxicParse

  /**
   * The forms of a parsed token: a "*" written form falls back to the surface; a "*" base form or
   * lemma becomes null and so defaults to the lower-cased text form.
   */
  lemma ParsedForms(token: KuroToken, previous: Option<KuroToken>)
    requires ParseToken(token, previous).Success?
    ensures var t := ParseToken(token, previous).value;
            t.textForm == (if token.writtenForm == MISSING_FORM then token.surface else token.writtenForm)
            && t.firstCanonicalForm == (if token.writtenBaseForm == MISSING_FORM || token.writtenBaseForm == "" then ToLower(t.textForm) else token.writtenBaseForm)
            && t.secondCanonicalForm == (if token.lemmaForm == MISSING_FORM || token.lemmaForm == "" then ToLower(t.textForm) else token.lemmaForm)
  {
  }

  /** A token whose written form and surface are both empty cannot be built: IllegalArgumentException. */
  lemma EmptyFormRejected(token: KuroToken, previous: Option<KuroToken>)
    requires WrittenFormOf(token) == ""
    requires GetTokenPosTag(previous, token, "").Success?
    ensures ParseToken(token, previous) == Failure(IllegalArgument)
  {
  }

  /**
   * With syntaxicParse as written, the token passed as previous is the token itself: past the
   * first position a 非自立可能 verb is always AUX, and at the first position always VERB.
   */
  lemma {:induction false} AsWrittenDependentVerb(tokens: seq<KuroToken>, i: nat)
    requires SyntaxicParseAsWritten(tokens).Success? && i < |tokens|
    requires WrittenFormOf(tokens[i]) !in PUNCTUATION_TOKENS
    requires |tokens[i].features| >= 2 && tokens[i].features[0] == "動詞" && tokens[i].features[1] == "非自立可能"
    ensures SyntaxicParseAsWritten(tokens).value[i].posTag == if i == 0 then VERB else AUX
  {
    var previous := PreviousAsWritten(tokens);
    DependentVerb(previous[i], tokens[i], WrittenFormOf(tokens[i]));
  }

  /** Past the first position the previous token is really the one before. */
  lemma {:induction false} DependentVerbAfter(tokens: seq<KuroToken>, i: nat)
    requires SyntaxicParse(tokens).Success? && 0 < i < |tokens|
    requires WrittenFormOf(tokens[i]) !in PUNCTUATION_TOKENS && |tokens[i - 1].features| > 0
    requires |tokens[i].features| >= 2 && tokens[i].features[0] == "動詞" && tokens[i].features[1] == "非自立可能"
    ensures SyntaxicParse(tokens).value[i].posTag == if tokens[i - 1].features[0] == "動詞" then AUX else VERB
  {
    var previous := PreviousTokens(tokens);
    DependentVerb(previous[i], tokens[i], WrittenFormOf(tokens[i]));
  }

  /** A noun followed by a dependent verb: a witness that the two readings of "previous" differ. */
  const NounToken: KuroToken := KuroToken("本", "本", "本", "本", ["名詞", "普通名詞"])
  const DependentVerbToken: KuroToken := KuroToken("いる", "いる", "いる", "いる", ["動詞", "非自立可能"])

  /**
   * After a noun, a dependent verb comes out AUX as written but VERB with the previous token
   * being the one before.
   */
  lemma PreviousTokenIsCurrent()
    ensures SyntaxicParseAsWritten([NounToken, DependentVerbToken]).Success?
    ensures SyntaxicParseAsWritten([NounToken, DependentVerbToken]).value[1].posTag == AUX
    ensures SyntaxicParse([NounToken, DependentVerbToken]).Success?
    ensures SyntaxicParse([NounToken, DependentVerbToken]).value[1].posTag == VERB
  {
    var tokens := [NounToken, DependentVerbToken];
    assert "いる" !in PUNCTUATION_TOKENS && "本" !in PUNCTUATION_TOKENS;
    assert ParseToken(NounToken, None).Success?;
    assert ParseToken(DependentVerbToken, Some(DependentVerbToken)).Success?;
    assert ParseToken(DependentVerbToken, Some(NounToken)).Success?;
    AsWrittenDependentVerb(tokens, 1);
    DependentVerbAfter(tokens, 1);
  }
}
