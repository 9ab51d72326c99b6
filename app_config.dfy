/**
 * AppConfig: the user preferences read from the YAML configuration file. The loaded document is
 * an input (reading the file and parsing YAML are not modelled); the constructor casts each known
 * key once, and the getters apply the defaults and the checks. Java generics are erased, so a list
 * value passes its cast whatever its elements are: lists keep their elements as YAML values.
 */
module AppConfig {
  import opened Wrappers
  import opened JavaLang
  import opened Yaml
  import opened LangParser

  const DEFAULT_DEFINITION_SIZE: int := 8

  const DEFAULT_HIGHLIGHT_COLOR: string := "#FFFFFF"

  /** DEFAULT_ASS_STYLES up to its %d (the font size of the Definition style), and after it. */
  const STYLES_BEFORE_SIZE: string :=
    "[V4+ Styles]\n"
    + "Format: Name, Fontname, Fontsize, PrimaryColour, SecondaryColour, OutlineColour, BackColour, Bold, Italic, Underline, StrikeOut"
    + ", ScaleX, ScaleY, Spacing, Angle, BorderStyle, Outline, Shadow, Alignment, MarginL, MarginR, MarginV, Encoding\n"
    + "Style: Definition,Arial,"
  const STYLES_AFTER_SIZE: string :=
    ",16777215,16777215,0,2147483648,0,0,0,0,100,100,0,0,1,1,1,7,3,0,2,0\n"
    + "Style: Default,Arial,28,16777215,16777215,0,2147483648,0,0,0,0,100,100,0,0,1,2,2,2,20,20,15,0"

  /** The values the constructor keeps, each null when its key is missing. */
  datatype Config = Config(
    dictionary: Option<string>,
    definitionSize: Option<int>,
    highlightColors: Option<seq<YamlValue>>,
    displayOtherLemma: Option<bool>,
    ignoreFrequencies: Option<seq<YamlValue>>,
    ignoreWords: Option<seq<YamlValue>>,
    partOfSpeechToAnnotate: Option<seq<YamlValue>>,
    assStyles: Option<string>)

  /** Boolean.class.cast. */
  function AsBoolean(v: YamlValue): (r: Result<Option<bool>, Error>)
    ensures r.Failure? <==> !(v.YNull? || v.YBool?)
    ensures v.YBool? ==> r == Success(Some(v.b))
  {
    match v
    case YNull => Success(None)
    case YBool(b) => Success(Some(b))
    case _ => Failure(ClassCast)
  }

  /** ArrayList.class.cast: any list passes, its elements unchecked. */
  function AsList(v: YamlValue): (r: Result<Option<seq<YamlValue>>, Error>)
    ensures r.Failure? <==> !(v.YNull? || v.YList?)
    ensures v.YList? ==> r == Success(Some(v.items))
  {
    match v
    case YNull => Success(None)
    case YList(items) => Success(Some(items))
    case _ => Failure(ClassCast)
  }

  /**
   * getConfigValue: null for a missing key, the cast value otherwise, and UnexpectedError when the
   * cast fails.
   */
  function GetConfigValue<T>(entries: seq<(string, YamlValue)>, key: string, cast: YamlValue -> Result<Option<T>, Error>): (r: Result<Option<T>, Error>)
    ensures Get(entries, key).None? ==> r == Success(None)
    ensures Get(entries, key).Some? && cast(Get(entries, key).value).Success? ==> r == cast(Get(entries, key).value)
    ensures Get(entries, key).Some? && cast(Get(entries, key).value).Failure? ==> r == Failure(UnexpectedError)
  {
    match Get(entries, key)
    case None => Success(None)
    case Some(v) =>
      match cast(v)
      case Success(x) => Success(x)
      case Failure(_) => Failure(UnexpectedError)
  }

  /**
   * The constructor, from the loaded document: a document that is not a mapping is an
   * UnexpectedError, an empty one (null) a NullPointerException at the first lookup; then every
   * key is read in turn and the first failing cast is an UnexpectedError.
   */
  function Load(document: YamlValue): (r: Result<Config, Error>)
    ensures !(document.YMap? || document.YNull?) ==> r == Failure(UnexpectedError)
    ensures document.YNull? ==> r == Failure(NullPointer)
    ensures r.Failure? ==> r.error == UnexpectedError || r.error == NullPointer
  {
    match document
    case YNull => Failure(NullPointer)
    case YMap(es) =>
      var dictionary :- GetConfigValue(es, "dictionary", AsString);
      var definitionSize :- GetConfigValue(es, "definitionSize", AsInteger);
      var highlightColors :- GetConfigValue(es, "highlightColors", AsList);
      var displayOtherLemma :- GetConfigValue(es, "displayOtherLemma", AsBoolean);
      var ignoreFrequencies :- GetConfigValue(es, "ignoreFrequencies", AsList);
      var ignoreWords :- GetConfigValue(es, "ignoreWords", AsList);
      var partOfSpeechToAnnotate :- GetConfigValue(es, "partOfSpeechToAnnotate", AsList);
      var assStyles :- GetConfigValue(es, "assStyles", AsString);
      Success(Config(dictionary, definitionSize, highlightColors, displayOtherLemma, ignoreFrequencies, ignoreWords, partOfSpeechToAnnotate, assStyles))
    case _ => Failure(UnexpectedError)
  }

  function GetDictionary(c: Config): (r: Option<string>)
    ensures r == c.dictionary
  {
    c.dictionary
  }

  /** getDefinitionSize: 8 when the key is missing. */
  function GetDefinitionSize(c: Config): (r: int)
    ensures c.definitionSize.None? ==> r == DEFAULT_DEFINITION_SIZE
    ensures c.definitionSize.Some? ==> r == c.definitionSize.value
  {
    if c.definitionSize.Some? then c.definitionSize.value else DEFAULT_DEFINITION_SIZE
  }

  /** A list that, when present, must not hold null; a missing one is the given default. */
  function NonNullList(list: Option<seq<YamlValue>>, default: seq<YamlValue>): (r: Result<seq<YamlValue>, Error>)
    ensures r.Failure? <==> list.Some? && YNull in list.value
    ensures r.Failure? ==> r.error == JijimakuError
    ensures r.Success? ==> r.value == if list.Some? then list.value else default
  {
    if list.Some? && YNull in list.value then Failure(JijimakuError)
    else if list.Some? then Success(list.value)
    else Success(default)
  }

  /** getHighlightColors: ["#FFFFFF"] by default; a null element is a JijimakuError. */
  function GetHighlightColors(c: Config): Result<seq<YamlValue>, Error> {
    NonNullList(c.highlightColors, [YStr(DEFAULT_HIGHLIGHT_COLOR)])
  }

  /** getDisplayOtherLemma: no default, a missing key gives null. */
  function GetDisplayOtherLemma(c: Config): (r: Option<bool>)
    ensures r == c.displayOtherLemma
  {
    c.displayOtherLemma
  }

  /** getIgnoreFrequencies: the empty list by default; a null element is a JijimakuError. */
  function GetIgnoreFrequencies(c: Config): Result<seq<YamlValue>, Error> {
    NonNullList(c.ignoreFrequencies, [])
  }

  /** getIgnoreWords: the empty list by default; a null element is a JijimakuError. */
  function GetIgnoreWords(c: Config): Result<seq<YamlValue>, Error> {
    NonNullList(c.ignoreWords, [])
  }

  /**
   * The stream mapping each name to PosTag.valueOf, in order: an element that is not a string is a
   * ClassCastException (not caught), an unknown name an IllegalArgumentException, caught and
   * raised as a JijimakuError.
   */
  function PosTagsOf(items: seq<YamlValue>): (r: Result<seq<PosTag>, Error>)
    ensures r.Success? ==> |r.value| == |items| && forall i :: 0 <= i < |items| ==> items[i] == YStr(PosTagName(r.value[i]))
    ensures r.Failure? ==> r.error == ClassCast || r.error == JijimakuError
  {
    if |items| == 0 then Success([])
    else if !items[0].YStr? then Failure(ClassCast)
    else
      match PosTagValueOf(items[0].s)
      case None => Failure(JijimakuError)
      case Some(t) =>
        var rest :- PosTagsOf(items[1..]);
        assert forall i :: 1 <= i < |items| ==> items[i] == items[1..][i - 1];
        Success([t] + rest)
  }

  /** A list of the tags' own names maps back to those tags. */
  lemma {:induction false} PosTagsOfNames(tags: seq<PosTag>)
    ensures PosTagsOf(seq(|tags|, i requires 0 <= i < |tags| => YStr(PosTagName(tags[i])))) == Success(tags)
    decreases |tags|
  {
    var items := seq(|tags|, i requires 0 <= i < |tags| => YStr(PosTagName(tags[i])));
    if |tags| > 0 {
      PosTagValueOfName(tags[0]);
      PosTagsOfNames(tags[1..]);
      assert items[1..] == seq(|tags[1..]|, i requires 0 <= i < |tags[1..]| => YStr(PosTagName(tags[1..][i])));
      assert [tags[0]] + tags[1..] == tags;
    }
  }

  /**
   * getPartOfSpeechToAnnotate: a null element or an unknown name is a JijimakuError, and so is a
   * missing or empty list, which EnumSet.copyOf rejects; otherwise the set of the named tags.
   */
  function GetPartOfSpeechToAnnotate(c: Config): (r: Result<set<PosTag>, Error>)
    ensures c.partOfSpeechToAnnotate.None? ==> r == Failure(JijimakuError)
    ensures c.partOfSpeechToAnnotate == Some([]) ==> r == Failure(JijimakuError)
    ensures c.partOfSpeechToAnnotate.Some? && YNull in c.partOfSpeechToAnnotate.value ==> r == Failure(JijimakuError)
    ensures r.Success? ==> r.value != {} && c.partOfSpeechToAnnotate.Some?
    ensures r.Success? ==> forall t :: t in r.value <==> YStr(PosTagName(t)) in c.partOfSpeechToAnnotate.value
  {
    var list :- NonNullList(c.partOfSpeechToAnnotate, []);
    var tags :- PosTagsOf(list);
    if |tags| == 0 then Failure(JijimakuError)
    else
      var r := set t | t in tags;
      assert tags[0] in r;
      assert forall t :: t in r <==> YStr(PosTagName(t)) in list by {
        forall t
          ensures t in r <==> YStr(PosTagName(t)) in list
        {
          if YStr(PosTagName(t)) in list {
            var i :| 0 <= i < |list| && list[i] == YStr(PosTagName(t));
            PosTagNameInjective(tags[i], t);
          }
        }
      }
      Success(r)
  }

  lemma PosTagNameInjective(a: PosTag, b: PosTag)
    requires PosTagName(a) == PosTagName(b)
    ensures a == b
  {
    PosTagValueOfName(a);
    PosTagValueOfName(b);
  }

  /** getSubtitleStyles: the configured styles verbatim, else the template with the definition size. */
  function GetSubtitleStyles(c: Config): (r: string)
    ensures c.assStyles.Some? ==> r == c.assStyles.value
    ensures c.assStyles.None? ==> r == STYLES_BEFORE_SIZE + IntToString(GetDefinitionSize(c)) + STYLES_AFTER_SIZE
  {
    if c.assStyles.Some? then c.assStyles.value
    else STYLES_BEFORE_SIZE + IntToString(GetDefinitionSize(c)) + STYLES_AFTER_SIZE
  }

  /** getProperNouns: the constructor leaves the map empty. */
  function GetProperNouns(c: Config): (r: map<string, string>)
    ensures |r| == 0
  {
    map[]
  }

  // ---------------------------------------------------------------- loading, then reading

  /** A loaded configuration holds each key's cast value. */
  lemma LoadFields(es: seq<(string, YamlValue)>)
    requires Load(YMap(es)).Success?
    ensures var c := Load(YMap(es)).value;
            Success(c.definitionSize) == GetConfigValue(es, "definitionSize", AsInteger)
            && Success(c.highlightColors) == GetConfigValue(es, "highlightColors", AsList)
            && Success(c.assStyles) == GetConfigValue(es, "assStyles", AsString)
  {
  }

  /** A definition size in the file is what getDefinitionSize returns; without one it is 8. */
  lemma LoadedDefinitionSize(es: seq<(string, YamlValue)>)
    requires Load(YMap(es)).Success?
    ensures var size := GetDefinitionSize(Load(YMap(es)).value);
            (Get(es, "definitionSize").None? ==> size == DEFAULT_DEFINITION_SIZE)
            && (Get(es, "definitionSize") == Some(YNull) ==> size == DEFAULT_DEFINITION_SIZE)
            && (Get(es, "definitionSize").Some? && Get(es, "definitionSize").value.YInt? ==> size == Get(es, "definitionSize").value.i)
  {
    LoadFields(es);
  }

  /** A value of the wrong type under a known key makes loading fail with an UnexpectedError. */
  lemma WrongTypeRejected(es: seq<(string, YamlValue)>)
    requires Get(es, "definitionSize").Some? && Get(es, "definitionSize").value.YStr?
    requires GetConfigValue(es, "dictionary", AsString).Success?
    ensures Load(YMap(es)) == Failure(UnexpectedError)
  {
  }

  /** Without highlight colours in the file, the one default colour is used. */
  lemma LoadedHighlightColors(es: seq<(string, YamlValue)>)
    requires Load(YMap(es)).Success? && Get(es, "highlightColors").None?
    ensures GetHighlightColors(Load(YMap(es)).value) == Success([YStr(DEFAULT_HIGHLIGHT_COLOR)])
  {
    LoadFields(es);
  }

  /** The subtitle styles in the file are returned verbatim. */
  lemma LoadedStyles(es: seq<(string, YamlValue)>, styles: string)
    requires Load(YMap(es)).Success? && Get(es, "assStyles") == Some(YStr(styles))
    ensures GetSubtitleStyles(Load(YMap(es)).value) == styles
  {
    LoadFields(es);
  }

  /** A list of tag names in the file is read back as the set of those tags. */
  lemma LoadedPartOfSpeech(c: Config, tags: seq<PosTag>)
    requires |tags| > 0
    requires c.partOfSpeechToAnnotate == Some(seq(|tags|, i requires 0 <= i < |tags| => YStr(PosTagName(tags[i]))))
    ensures GetPartOfSpeechToAnnotate(c) == Success(set t | t in tags)
  {
    var items := c.partOfSpeechToAnnotate.value;
    PosTagsOfNames(tags);
    assert YNull !in items;
  }
}
