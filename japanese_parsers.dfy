/**
 * The kuromoji token as the three older Japanese parsers read it: whether the tokenizer knew the
 * word, its surface, written form, written base form and feature array (features[0] is the
 * grammatical type, features[1] the subtype). The tokenizer is a foreign library.
 */
module Kuromoji {
  datatype KuromojiToken = KuromojiToken(known: bool, surface: string, writtenForm: string, writtenBaseForm: string, features: seq<string>)

  /** What kuromoji writes for a form it does not know. */
  const MISSING_FORM: string := "*"
}

/**
 * The jijimaku.langparser snapshot of the LangParser interface: a smaller tag set and a token
 * with a current form and a canonical form, either of which may be null.
 */
module LegacyLangParser {
  import opened Wrappers

  datatype PosTag = PUNCTUATION | SYMBOL | NUMERAL | PARTICLE | DETERMINER | CONJUNCTION | AUXILIARY_VERB | SUFFIX | UNKNOWN

  datatype TextToken = TextToken(tag: PosTag, currentForm: string, canonicalForm: Option<string>)
}

/**
 * jijimaku/services/langparser/JapaneseParser.java. It refers to NUMERAL and to a three-argument
 * TextToken, which its own package does not define; it is modelled against the jijimaku.langparser
 * types, which have both.
 */
module ServicesJapaneseParser {
  import opened Wrappers
  import opened JavaLang
  import opened Kuromoji
  import opened LegacyLangParser

  /** The type table, consulted when the subtype is not 数詞. */
  function TypeTag(typeName: string): (r: PosTag)
    ensures r == UNKNOWN <==> typeName !in {"空白", "記号", "助詞", "助動詞", "接尾辞", "補助記号", "連体詞", "接続詞"}
    ensures r == PUNCTUATION <==> typeName == "空白" || typeName == "記号"
  {
    if typeName == "空白" || typeName == "記号" then PUNCTUATION
    else if typeName == "助詞" then PARTICLE
    else if typeName == "助動詞" then AUXILIARY_VERB
    else if typeName == "接尾辞" then SUFFIX
    else if typeName == "補助記号" then SYMBOL
    else if typeName == "連体詞" then DETERMINER
    else if typeName == "接続詞" then CONJUNCTION
    else UNKNOWN
  }

  /** The written forms forced to PUNCTUATION after classification. */
  predicate IsForcedPunctuation(writtenForm: string) {
    writtenForm == "｡" || writtenForm == "…｡"
  }

  function WrittenFormOf(token: KuromojiToken): string {
    if token.writtenForm != MISSING_FORM then token.writtenForm else token.surface
  }

  /**
   * The token one kuromoji token becomes, stated with the punctuation override first: a feature
   * array without a subtype is an ArrayIndexOutOfBoundsException.
   */
  function ParseToken(token: KuromojiToken): Result<TextToken, Error> {
    if |token.features| < 2 then Failure(IndexOutOfBounds)
    else
      var writtenForm := WrittenFormOf(token);
      var tag :=
        if IsForcedPunctuation(writtenForm) then PUNCTUATION
        else if token.features[1] == "数詞" then NUMERAL
        else TypeTag(token.features[0]);
      var base := if token.writtenBaseForm != MISSING_FORM then Some(token.writtenBaseForm) else None;
      Success(TextToken(tag, writtenForm, base))
  }

  /** syntaxicParse: one token per kuromoji token, in order, the tag set by two switches and an override. */
  method SyntaxicParse(tokens: seq<KuromojiToken>) returns (r: Result<seq<TextToken>, Error>)
    ensures r.Success? <==> forall i :: 0 <= i < |tokens| ==> |tokens[i].features| >= 2
    ensures r.Failure? ==> r.error == IndexOutOfBounds
    ensures r.Success? ==> |r.value| == |tokens| && forall i :: 0 <= i < |tokens| ==> r.value[i] == ParseToken(tokens[i]).value
  {
    var parsed: seq<TextToken> := [];
    for i := 0 to |tokens|
      invariant |parsed| == i
      invariant forall j :: 0 <= j < i ==> |tokens[j].features| >= 2 && parsed[j] == ParseToken(tokens[j]).value
    {
      var features := tokens[i].features;
      if |features| < 2 {
        return Failure(IndexOutOfBounds);
      }
      var tag := if features[1] == "数詞" then NUMERAL else UNKNOWN;
      if tag == UNKNOWN {
        tag := TypeTag(features[0]);
      }
      var writtenForm := if tokens[i].writtenForm != MISSING_FORM then tokens[i].writtenForm else tokens[i].surface;
      var writtenBaseForm := if tokens[i].writtenBaseForm != MISSING_FORM then Some(tokens[i].writtenBaseForm) else None;
      if writtenForm == "｡" || writtenForm == "…｡" {
        tag := PUNCTUATION;
      }
      parsed := parsed + [TextToken(tag, writtenForm, writtenBaseForm)];
    }
    return Success(parsed);
  }

  /** The subtype 数詞 gives NUMERAL before the type table is consulted, whatever the type. */
  lemma NumeralBeforeType(token: KuromojiToken)
    requires |token.features| >= 2 && token.features[1] == "数詞"
    requires !IsForcedPunctuation(WrittenFormOf(token))
    ensures ParseToken(token).value.tag == NUMERAL
  {
  }

  /** ｡ and …｡ are PUNCTUATION whatever the features say. */
  lemma ForcedPunctuation(token: KuromojiToken)
    requires |token.features| >= 2 && IsForcedPunctuation(WrittenFormOf(token))
    ensures ParseToken(token).value.tag == PUNCTUATION
  {
  }

  /** A "*" written form falls back to the surface form, and a "*" base form becomes null. */
  lemma FormFallbacks(token: KuromojiToken)
    requires |token.features| >= 2
    ensures ParseToken(token).value.currentForm == if token.writtenForm == MISSING_FORM then token.surface else token.writtenForm
    ensures ParseToken(token).value.canonicalForm.None? <==> token.writtenBaseForm == MISSING_FORM
  {
  }
}

/** jijimaku/langparser/JapaneseParser.java: unknown tokens pass through, no form fallbacks. */
module LegacyJapaneseParser {
  import opened Wrappers
  import opened JavaLang
  import opened Kuromoji
  import opened LegacyLangParser
  import ServicesJapaneseParser

  /** The type table: the services table without 空白. */
  function TypeTag(typeName: string): (r: PosTag)
    ensures typeName == "空白" ==> r == UNKNOWN
    ensures typeName != "空白" ==> r == ServicesJapaneseParser.TypeTag(typeName)
  {
    if typeName == "記号" then PUNCTUATION
    else if typeName == "助詞" then PARTICLE
    else if typeName == "助動詞" then AUXILIARY_VERB
    else if typeName == "接尾辞" then SUFFIX
    else if typeName == "補助記号" then SYMBOL
    else if typeName == "連体詞" then DETERMINER
    else if typeName == "接続詞" then CONJUNCTION
    else UNKNOWN
  }

  /**
   * The token one kuromoji token becomes: an unknown token is UNKNOWN with its written form as both
   * forms, before any feature is read.
   */
  function ParseToken(token: KuromojiToken): Result<TextToken, Error> {
    if !token.known then Success(TextToken(UNKNOWN, token.writtenForm, Some(token.writtenForm)))
    else if |token.features| < 2 then Failure(IndexOutOfBounds)
    else
      var tag := if token.features[1] == "数詞" then NUMERAL else TypeTag(token.features[0]);
      Success(TextToken(tag, token.writtenForm, Some(token.writtenBaseForm)))
  }

  /** syntaxicParse: one token per kuromoji token, in order. */
  method SyntaxicParse(tokens: seq<KuromojiToken>) returns (r: Result<seq<TextToken>, Error>)
    ensures r.Success? <==> forall i :: 0 <= i < |tokens| ==> !tokens[i].known || |tokens[i].features| >= 2
    ensures r.Failure? ==> r.error == IndexOutOfBounds
    ensures r.Success? ==> |r.value| == |tokens| && forall i :: 0 <= i < |tokens| ==> r.value[i] == ParseToken(tokens[i]).value
  {
    var parsed: seq<TextToken> := [];
    for i := 0 to |tokens|
      invariant |parsed| == i
      invariant forall j :: 0 <= j < i ==> (!tokens[j].known || |tokens[j].features| >= 2) && parsed[j] == ParseToken(tokens[j]).value
    {
      var token := tokens[i];
      if !token.known {
        parsed := parsed + [TextToken(UNKNOWN, token.writtenForm, Some(token.writtenForm))];
        continue;
      }
      var features := token.features;
      if |features| < 2 {
        return Failure(IndexOutOfBounds);
      }
      var tag := if features[1] == "数詞" then NUMERAL else UNKNOWN;
      if tag == UNKNOWN {
        tag := TypeTag(features[0]);
      }
      parsed := parsed + [TextToken(tag, token.writtenForm, Some(token.writtenBaseForm))];
    }
    return Success(parsed);
  }

  /** An unknown token is UNKNOWN, its written form used as both forms, whatever its features. */
  lemma UnknownToken(token: KuromojiToken)
    requires !token.known
    ensures ParseToken(token) == Success(TextToken(UNKNOWN, token.writtenForm, Some(token.writtenForm)))
  {
  }

  /** The subtype 数詞 gives NUMERAL before the type table. */
  lemma NumeralBeforeType(token: KuromojiToken)
    requires token.known && |token.features| >= 2 && token.features[1] == "数詞"
    ensures ParseToken(token).value.tag == NUMERAL
  {
  }

  /** Seven types have a tag; everything else, 空白 included, is UNKNOWN. */
  lemma TypeTable(typeName: string)
    ensures TypeTag(typeName) != UNKNOWN <==> typeName in {"記号", "助詞", "助動詞", "接尾辞", "補助記号", "連体詞", "接続詞"}
  {
  }

  /**
   * On a known token whose forms are not "*", whose type is not 空白 and whose written form is not
   * ｡ or …｡, this snapshot and the services one agree.
   */
  lemma AgreesWithServices(token: KuromojiToken)
    requires token.known && |token.features| >= 2 && token.features[0] != "空白"
    requires token.writtenForm != MISSING_FORM && token.writtenBaseForm != MISSING_FORM
    requires !ServicesJapaneseParser.IsForcedPunctuation(token.writtenForm)
    ensures ParseToken(token) == ServicesJapaneseParser.ParseToken(token)
  {
  }
}

/** The root langparser snapshot of the LangParser interface: the tag set also names ADJECTIVE and NOUN. */
module RootLangParser {
  datatype PosTag = PUNCTUATION | SYMBOL | NUMERAL | PARTICLE | DETERMINER | CONJUNCTION | AUXILIARY_VERB | SUFFIX | ADJECTIVE | NOUN | UNKNOWN

  datatype TextToken = TextToken(tag: PosTag, currentForm: string, canonicalForm: string)
}

/** langparser/JapaneseParser.java: the tag starts UNKNOWN and the switches only overwrite it on a case. */
module RootJapaneseParser {
  import opened Wrappers
  import opened JavaLang
  import opened Kuromoji
  import opened RootLangParser

  /** The cases of the type switch, which has no default. */
  function TypeCase(typeName: string): (r: Option<PosTag>)
    ensures r.Some? <==> typeName in {"記号", "助詞", "助動詞", "接尾辞", "補助記号", "連体詞", "接続詞"}
  {
    if typeName == "記号" then Some(PUNCTUATION)
    else if typeName == "助詞" then Some(PARTICLE)
    else if typeName == "助動詞" then Some(AUXILIARY_VERB)
    else if typeName == "接尾辞" then Some(SUFFIX)
    else if typeName == "補助記号" then Some(SYMBOL)
    else if typeName == "連体詞" then Some(DETERMINER)
    else if typeName == "接続詞" then Some(CONJUNCTION)
    else None
  }

  /** The tag of a known token with a subtype: NUMERAL for 数詞, else the type's case, else UNKNOWN. */
  function KnownTag(features: seq<string>): PosTag
    requires |features| >= 2
  {
    if features[1] == "数詞" then NUMERAL
    else match TypeCase(features[0])
      case Some(t) => t
      case None => UNKNOWN
  }

  function ParseToken(token: KuromojiToken): Result<TextToken, Error> {
    if !token.known then Success(TextToken(UNKNOWN, token.writtenForm, token.writtenForm))
    else if |token.features| < 2 then Failure(IndexOutOfBounds)
    else Success(TextToken(KnownTag(token.features), token.writtenForm, token.writtenBaseForm))
  }

  /** syntaxicParse: one token per kuromoji token, in order. */
  method SyntaxicParse(tokens: seq<KuromojiToken>) returns (r: Result<seq<TextToken>, Error>)
    ensures r.Success? <==> forall i :: 0 <= i < |tokens| ==> !tokens[i].known || |tokens[i].features| >= 2
    ensures r.Failure? ==> r.error == IndexOutOfBounds
    ensures r.Success? ==> |r.value| == |tokens| && forall i :: 0 <= i < |tokens| ==> r.value[i] == ParseToken(tokens[i]).value
  {
    var parsed: seq<TextToken> := [];
    for i := 0 to |tokens|
      invariant |parsed| == i
      invariant forall j :: 0 <= j < i ==> (!tokens[j].known || |tokens[j].features| >= 2) && parsed[j] == ParseToken(tokens[j]).value
    {
      var token := tokens[i];
      if !token.known {
        parsed := parsed + [TextToken(UNKNOWN, token.writtenForm, token.writtenForm)];
        continue;
      }
      var features := token.features;
      if |features| < 2 {
        return Failure(IndexOutOfBounds);
      }
      var tag := UNKNOWN;
      if features[1] == "数詞" {
        tag := NUMERAL;
      }
      if tag == UNKNOWN {
        var c := TypeCase(features[0]);
        if c.Some? {
          tag := c.value;
        }
      }
      parsed := parsed + [TextToken(tag, token.writtenForm, token.writtenBaseForm)];
    }
    return Success(parsed);
  }

  /** An unknown token is UNKNOWN, its written form used as both forms. */
  lemma UnknownToken(token: KuromojiToken)
    requires !token.known
    ensures ParseToken(token) == Success(TextToken(UNKNOWN, token.writtenForm, token.writtenForm))
  {
  }

  /** The subtype 数詞 gives NUMERAL before the type table. */
  lemma NumeralBeforeType(token: KuromojiToken)
    requires token.known && |token.features| >= 2 && token.features[1] == "数詞"
    ensures ParseToken(token).value.tag == NUMERAL
  {
  }

  /**
   * A known token is UNKNOWN exactly when neither its subtype nor its type is in the tables; the
   * tag set's ADJECTIVE and NOUN are never produced.
   */
  lemma KnownTagTable(features: seq<string>)
    requires |features| >= 2
    ensures KnownTag(features) == UNKNOWN <==> features[1] != "数詞" && features[0] !in {"記号", "助詞", "助動詞", "接尾辞", "補助記号", "連体詞", "接続詞"}
    ensures KnownTag(features) != ADJECTIVE && KnownTag(features) != NOUN
  {
  }
}
