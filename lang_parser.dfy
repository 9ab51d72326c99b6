/**
 * The parser interface of jijimaku.services.langparser: universal part-of-speech tags, the
 * immutable TextToken, the word separator of a language and the strict language-name lookup.
 */
module LangParser {
  import opened Wrappers
  import opened JavaLang
  import opened Languages

  /** Universal dependencies part-of-speech tags, plus UNKNOWN. */
  datatype PosTag =
    | ADJ | ADV | INTJ | NOUN | PROPN | VERB | ADP | AUX | CCONJ | DET
    | NUM | PART | PRON | SCONJ | PUNCT | SYM | X | UNKNOWN

  /** The constant name of a tag. */
  function PosTagName(t: PosTag): string {
    match t
    case ADJ => "ADJ"
    case ADV => "ADV"
    case INTJ => "INTJ"
    case NOUN => "NOUN"
    case PROPN => "PROPN"
    case VERB => "VERB"
    case ADP => "ADP"
    case AUX => "AUX"
    case CCONJ => "CCONJ"
    case DET => "DET"
    case NUM => "NUM"
    case PART => "PART"
    case PRON => "PRON"
    case SCONJ => "SCONJ"
    case PUNCT => "PUNCT"
    case SYM => "SYM"
    case X => "X"
    case UNKNOWN => "UNKNOWN"
  }

  /** PosTag.valueOf: the tag whose constant name is exactly s. */
  function PosTagValueOf(s: string): (r: Option<PosTag>)
    ensures r.Some? ==> PosTagName(r.value) == s
  {
    if s == "ADJ" then Some(ADJ)
    else if s == "ADV" then Some(ADV)
    else if s == "INTJ" then Some(INTJ)
    else if s == "NOUN" then Some(NOUN)
    else if s == "PROPN" then Some(PROPN)
    else if s == "VERB" then Some(VERB)
    else if s == "ADP" then Some(ADP)
    else if s == "AUX" then Some(AUX)
    else if s == "CCONJ" then Some(CCONJ)
    else if s == "DET" then Some(DET)
    else if s == "NUM" then Some(NUM)
    else if s == "PART" then Some(PART)
    else if s == "PRON" then Some(PRON)
    else if s == "SCONJ" then Some(SCONJ)
    else if s == "PUNCT" then Some(PUNCT)
    else if s == "SYM" then Some(SYM)
    else if s == "X" then Some(X)
    else if s == "UNKNOWN" then Some(UNKNOWN)
    else None
  }

  /** Every tag's own name resolves back to it. */
  lemma PosTagValueOfName(t: PosTag)
    ensures PosTagValueOf(PosTagName(t)) == Some(t)
  {
  }

  /**
   * A parsed word: its tag, its text as it appears in the sentence and two canonical forms used
   * for dictionary look-ups. All four fields are final in the source, hence a value here.
   */
  datatype TextToken = TextToken(posTag: PosTag, textForm: string, firstCanonicalForm: string, secondCanonicalForm: string)

  /** What the constructor guarantees of every token it builds. */
  predicate ValidToken(t: TextToken) {
    |t.textForm| > 0 && |t.firstCanonicalForm| > 0 && |t.secondCanonicalForm| > 0
  }

  /** A canonical form given to the constructor, or its default when null or empty. */
  function CanonicalOrDefault(form: Option<string>, textForm: string): string {
    if form.Some? && |form.value| > 0 then form.value else ToLower(textForm)
  }

  /**
   * The TextToken constructor: a null or empty text form is an IllegalArgumentException; a null
   * or empty canonical form defaults to the lower-cased text form.
   */
  function NewTextToken(posTag: PosTag, textForm: Option<string>, first: Option<string>, second: Option<string>): (r: Result<TextToken, Error>)
    ensures r.Failure? <==> textForm.None? || |textForm.value| == 0
    ensures r.Failure? ==> r.error == IllegalArgument
    ensures r.Success? ==> ValidToken(r.value)
    ensures r.Success? ==> r.value.posTag == posTag && r.value.textForm == textForm.value
    ensures r.Success? && first.Some? && |first.value| > 0 ==> r.value.firstCanonicalForm == first.value
    ensures r.Success? && second.Some? && |second.value| > 0 ==> r.value.secondCanonicalForm == second.value
    ensures r.Success? && (first.None? || |first.value| == 0) ==> r.value.firstCanonicalForm == ToLower(textForm.value)
    ensures r.Success? && (second.None? || |second.value| == 0) ==> r.value.secondCanonicalForm == ToLower(textForm.value)
  {
    if textForm.None? || |textForm.value| == 0 then Failure(IllegalArgument)
    else Success(TextToken(posTag, textForm.value, CanonicalOrDefault(first, textForm.value), CanonicalOrDefault(second, textForm.value)))
  }

  /** Rebuilding a constructed token from its own fields gives the same token: the defaults are stable. */
  lemma NewTextTokenStable(t: TextToken)
    requires ValidToken(t)
    ensures NewTextToken(t.posTag, Some(t.textForm), Some(t.firstCanonicalForm), Some(t.secondCanonicalForm)) == Success(t)
  {
  }

  /** Languages written without spaces between words. */
  predicate WithoutSpaces(l: Language) {
    l == Japanese || l == Chinese || l == Vietnamese
  }

  /** getWordSeparator: the empty string for Japanese, Chinese and Vietnamese, a space otherwise. */
  function WordSeparator(l: Language): (sep: string)
    ensures sep == "" <==> WithoutSpaces(l)
    ensures sep != "" ==> sep == " "
  {
    if WithoutSpaces(l) then "" else " "
  }

  /** getLanguageFromStr: the language whose constant name is exactly s, else UnexpectedCriticalError. */
  function GetLanguageFromStr(s: string): (r: Result<Language, Error>)
    ensures r.Success? <==> exists l :: ParserName(l) == s
    ensures r.Success? ==> ParserName(r.value) == s
    ensures r.Failure? ==> r.error == UnexpectedCriticalError
  {
    match ParserValueOf(s)
    case Some(l) => Success(l)
    case None => Failure(UnexpectedCriticalError)
  }

  /** Every language's own name resolves back to it, and nothing else does. */
  lemma GetLanguageFromStrName(l: Language)
    ensures GetLanguageFromStr(ParserName(l)) == Success(l)
  {
    var r := GetLanguageFromStr(ParserName(l));
    ParserNameInjective(r.value, l);
  }
}
