/**
 * jijimaku.services.dictionary.DictionaryJiji: a YAML dictionary whose keys are comma-separated
 * lemmas; the _about_this_dictionary key gives the title and the source language, every other key
 * becomes one entry of the shared lemma index.
 */
module DictionaryJiji {
  import opened Wrappers
  import opened JavaLang
  import opened Yaml
  import opened Languages
  import LanguageService
  import opened LemmaIndex
  import opened Dictionaries

  const DICT_INFO_KEY: string := "_about_this_dictionary"
  const DICT_TITLE_KEY: string := "title"
  const DICT_LANGUAGES_KEY: string := "languages"
  const DICT_LANGUAGES_FROM_KEY: string := "from"
  const SENSE_KEY: string := "sense"
  const SENSES_KEY: string := "senses"
  const PRONUNCIATION_KEY: string := "pronunciation"
  const TAGS_KEY: string := "tags"

  /** Map.get: the value under the key, null when the key is absent. */
  function GetOrNull(entries: seq<(string, YamlValue)>, key: string): YamlValue {
    match Get(entries, key)
    case Some(v) => v
    case None => YNull
  }

  /** (Map<String, Object>) v, then dereferenced: a null map is a NullPointerException. */
  function MapToUse(v: YamlValue): (r: Result<seq<(string, YamlValue)>, Error>)
    ensures v.YMap? ==> r == Success(v.entries)
    ensures v.YNull? ==> r == Failure(NullPointer)
    ensures !v.YMap? && !v.YNull? ==> r == Failure(ClassCast)
  {
    var m :- AsMap(v);
    if m.None? then Failure(NullPointer) else Success(m.value)
  }

  // ---------------------------------------------------------------- _about_this_dictionary

  /** The languages.from string of a well-shaped information block. */
  function FromString(info: YamlValue): Option<string> {
    if info.YMap? then
      match Get(info.entries, DICT_LANGUAGES_KEY)
      case Some(YMap(langs)) =>
        (match Get(langs, DICT_LANGUAGES_FROM_KEY)
         case Some(YStr(s)) => Some(s)
         case _ => None)
      case _ => None
    else None
  }

  /**
   * parseAboutThisDictionary: the title (possibly null) and the source language read from
   * languages.from by LanguageService.getLanguageFromStr; a language it does not recognise is an
   * UnexpectedCriticalError, a missing block a NullPointerException, a value of the wrong type a
   * ClassCastException.
   */
  function AboutThisDictionary(info: YamlValue): (r: Result<(Option<string>, Language), Error>)
    ensures r.Success? ==> FromString(info).Some? && LanguageService.GetLanguageFromStr(FromString(info).value) == Some(r.value.1)
    ensures r.Success? ==> r.value.0 == (match Get(info.entries, DICT_TITLE_KEY) case Some(YStr(t)) => Some(t) case _ => None)
    ensures FromString(info).Some? && LanguageService.GetLanguageFromStr(FromString(info).value).None? ==> r.Failure?
    ensures r.Failure? && r.error == UnexpectedCriticalError ==>
              FromString(info).Some? && LanguageService.GetLanguageFromStr(FromString(info).value).None?
    ensures info.YNull? ==> r == Failure(NullPointer)
  {
    var infoMap :- MapToUse(info);
    var title :- AsString(GetOrNull(infoMap, DICT_TITLE_KEY));
    var langMap :- MapToUse(GetOrNull(infoMap, DICT_LANGUAGES_KEY));
    var languageFromStr :- AsString(GetOrNull(langMap, DICT_LANGUAGES_FROM_KEY));
    if languageFromStr.None? then Failure(NullPointer)
    else
      match LanguageService.GetLanguageFromStr(languageFromStr.value)
      case None => Failure(UnexpectedCriticalError)
      case Some(l) => Success((title, l))
  }

  // ---------------------------------------------------------------- word entries

  /** new HashSet<>(list): every element once. The order of a HashSet is not modelled: first occurrences are kept. */
  function Dedup(xs: seq<string>): (r: seq<string>)
    ensures forall x :: x in r <==> x in xs
    ensures forall i, j :: 0 <= i < j < |r| ==> r[i] != r[j]
  {
    if |xs| == 0 then []
    else
      var d := Dedup(xs[..|xs| - 1]);
      if xs[|xs| - 1] in d then d else d + [xs[|xs| - 1]]
  }

  /** What one word contributes before addEntry: lemmas, raw senses, pronunciations and tags. */
  datatype EntryArgs = EntryArgs(lemmas: seq<string>, senses: seq<YamlValue>, pronunciations: Option<seq<string>>, tags: Option<seq<string>>)

  /** An optional comma-separated string field: absent is null, present but null dereferences null. */
  function CommaField(entryMap: seq<(string, YamlValue)>, key: string): (r: Result<Option<seq<string>>, Error>)
    ensures r.Success? ==> (r.value.Some? <==> Get(entryMap, key).Some?)
    ensures Get(entryMap, key).Some? && Get(entryMap, key).value.YStr? ==> r == Success(Some(SplitOnComma(Get(entryMap, key).value.s)))
  {
    match Get(entryMap, key)
    case None => Success(None)
    case Some(v) =>
      var s :- AsString(v);
      if s.None? then Failure(NullPointer) else Success(Some(SplitOnComma(s.value)))
  }

  /**
   * The senses of a word: "sense" wins over "senses"; with neither the word is skipped (None).
   * The elements are not checked here: the list is copied as it is.
   */
  function RawSenses(entryMap: seq<(string, YamlValue)>): (r: Result<Option<seq<YamlValue>>, Error>)
    ensures Get(entryMap, SENSE_KEY).None? && Get(entryMap, SENSES_KEY).None? ==> r == Success(None)
    ensures Get(entryMap, SENSE_KEY).Some? && Get(entryMap, SENSE_KEY).value.YStr? ==> r == Success(Some([Get(entryMap, SENSE_KEY).value]))
    ensures r.Success? && r.value.Some? && Get(entryMap, SENSE_KEY).None? ==> Get(entryMap, SENSES_KEY) == Some(YList(r.value.value))
  {
    match Get(entryMap, SENSE_KEY)
    case Some(v) =>
      var s :- AsString(v);
      Success(Some([v]))
    case None =>
      match Get(entryMap, SENSES_KEY)
      case Some(YNull) => Failure(NullPointer)
      case Some(YList(items)) => Success(Some(items))
      case Some(_) => Failure(ClassCast)
      case None => Success(None)
  }

  /**
   * One key of the file, up to the call of addEntry: None when it has no sense; lemmas are the key
   * split on commas, pronunciations a comma-split list and tags a comma-split set, each null when
   * its key is absent.
   */
  function WordEntryArgs(key: string, value: YamlValue): (r: Result<Option<EntryArgs>, Error>)
    ensures value.YMap? && Get(value.entries, SENSE_KEY).None? && Get(value.entries, SENSES_KEY).None? ==> r == Success(None)
    ensures r.Success? && r.value.Some? ==>
              value.YMap?
              && r.value.value.lemmas == SplitOnComma(key)
              && (r.value.value.pronunciations.Some? <==> Get(value.entries, PRONUNCIATION_KEY).Some?)
              && (r.value.value.tags.Some? <==> Get(value.entries, TAGS_KEY).Some?)
              && Success(Some(r.value.value.senses)) == RawSenses(value.entries)
    ensures r.Success? && r.value.Some? && Get(value.entries, TAGS_KEY).Some? && Get(value.entries, TAGS_KEY).value.YStr? ==>
              r.value.value.tags == Some(Dedup(SplitOnComma(Get(value.entries, TAGS_KEY).value.s)))
  {
    var entryMap :- MapToUse(value);
    var senses :- RawSenses(entryMap);
    if senses.None? then Success(None)
    else
      var pronunciations :- CommaField(entryMap, PRONUNCIATION_KEY);
      var tags :- CommaField(entryMap, TAGS_KEY);
      var tagSet := if tags.Some? then Some(Dedup(tags.value)) else None;
      Success(Some(EntryArgs(SplitOnComma(key), senses.value, pronunciations, tagSet)))
  }

  /** The senses as the strings cleanupSenses reads: null is a NullPointerException, a non-string a ClassCastException. */
  function SenseStrings(items: seq<YamlValue>): (r: Result<seq<string>, Error>)
    ensures (forall i :: 0 <= i < |items| ==> items[i].YStr?) <==> r.Success?
    ensures r.Success? ==> |r.value| == |items| && forall i :: 0 <= i < |items| ==> r.value[i] == items[i].s
  {
    if |items| == 0 then Success([])
    else if items[0].YNull? then Failure(NullPointer)
    else if !items[0].YStr? then Failure(ClassCast)
    else
      var rest := SenseStrings(items[1..]);
      if rest.Failure? then
        assert !forall i :: 0 <= i < |items[1..]| ==> items[1..][i].YStr?;
        rest
      else Success([items[0].s] + rest.value)
  }

  /** One iteration of the constructor's loop over the keys. */
  function AddWord(m: Index<DictionaryEntry>, word: (string, YamlValue), re: Option<string>,
                   removeMatches: (string, string) -> string): Result<Index<DictionaryEntry>, Error> {
    if word.0 == DICT_INFO_KEY then Success(m)
    else
      var args :- WordEntryArgs(word.0, word.1);
      if args.None? then Success(m)
      else
        var senses :- SenseStrings(args.value.senses);
        var e :- EntryToAdd(Some(args.value.lemmas), Some(senses), args.value.pronunciations, args.value.tags, re, removeMatches);
        Success(AppendUnder(m, args.value.lemmas, e))
  }

  /**
   * The index after the keys of the document, in document order, and the exception that stopped
   * the loop if any: the index is shared, so the keys handled before the exception stay indexed.
   */
  function LoadWords(m: Index<DictionaryEntry>, doc: seq<(string, YamlValue)>, re: Option<string>,
                     removeMatches: (string, string) -> string): (Index<DictionaryEntry>, Option<Error>)
    decreases |doc|
  {
    if |doc| == 0 then (m, None)
    else
      match AddWord(m, doc[0], re, removeMatches)
      case Failure(e) => (m, Some(e))
      case Success(m') => LoadWords(m', doc[1..], re, removeMatches)
  }

  /** Loading a concatenation: the second part starts from where the first stopped, unless it failed. */
  lemma {:induction false} LoadWordsAppend(m: Index<DictionaryEntry>, a: seq<(string, YamlValue)>, b: seq<(string, YamlValue)>,
                                           re: Option<string>, removeMatches: (string, string) -> string)
    ensures var first := LoadWords(m, a, re, removeMatches);
            LoadWords(m, a + b, re, removeMatches) == if first.1.Some? then first else LoadWords(first.0, b, re, removeMatches)
    decreases |a|
  {
    if |a| > 0 {
      assert (a + b)[0] == a[0] && (a + b)[1..] == a[1..] + b;
      match AddWord(m, a[0], re, removeMatches)
      case Failure(_) =>
      case Success(m') => LoadWordsAppend(m', a[1..], b, re, removeMatches);
    } else {
      assert a + b == b;
    }
  }

  /** The information key is never turned into an entry: wherever it stands, removing it changes nothing. */
  lemma InfoKeyNotIndexed(m: Index<DictionaryEntry>, a: seq<(string, YamlValue)>, info: YamlValue, b: seq<(string, YamlValue)>,
                          re: Option<string>, removeMatches: (string, string) -> string)
    ensures LoadWords(m, a + [(DICT_INFO_KEY, info)] + b, re, removeMatches) == LoadWords(m, a + b, re, removeMatches)
  {
    LoadWordsAppend(m, a + [(DICT_INFO_KEY, info)], b, re, removeMatches);
    LoadWordsAppend(m, a, [(DICT_INFO_KEY, info)], re, removeMatches);
    LoadWordsAppend(m, a, b, re, removeMatches);
    var first := LoadWords(m, a, re, removeMatches);
    assert [(DICT_INFO_KEY, info)][1..] == [];
  }

  /** A word with one sense string and no tags is found under each of its lemmas, last in their lists. */
  lemma SingleSenseWordIndexed(m: Index<DictionaryEntry>, key: string, entryMap: seq<(string, YamlValue)>, w: string,
                               re: Option<string>, removeMatches: (string, string) -> string)
    requires key != DICT_INFO_KEY
    requires Get(entryMap, SENSE_KEY).Some? && Get(entryMap, SENSE_KEY).value.YStr?
    requires Get(entryMap, PRONUNCIATION_KEY).None? && Get(entryMap, TAGS_KEY).None?
    requires w in SplitOnComma(key)
    ensures AddWord(m, (key, YMap(entryMap)), re, removeMatches).Success?
    ensures var after := LemmaIndex.Search(AddWord(m, (key, YMap(entryMap)), re, removeMatches).value, w);
            |after| > 0 && after[|after| - 1].lemmas == SplitOnComma(key)
            && after[|after| - 1].senses == [CleanSense(Get(entryMap, SENSE_KEY).value.s, re, removeMatches)]
            && after[|after| - 1].frequency.None?
  {
    var lemmas := SplitOnComma(key);
    var e := SingleSenseEntry(m, key, entryMap, re, removeMatches);
    AppendUnderSearch(m, lemmas, e, w);
    CountZero(lemmas, w);
  }

  /** The entry a one-sense, untagged word adds, and the index it gives. */
  lemma SingleSenseEntry(m: Index<DictionaryEntry>, key: string, entryMap: seq<(string, YamlValue)>,
                         re: Option<string>, removeMatches: (string, string) -> string) returns (e: DictionaryEntry)
    requires key != DICT_INFO_KEY
    requires Get(entryMap, SENSE_KEY).Some? && Get(entryMap, SENSE_KEY).value.YStr?
    requires Get(entryMap, PRONUNCIATION_KEY).None? && Get(entryMap, TAGS_KEY).None?
    ensures e == DictionaryEntry(SplitOnComma(key), [CleanSense(Get(entryMap, SENSE_KEY).value.s, re, removeMatches)], None, None, None)
    ensures AddWord(m, (key, YMap(entryMap)), re, removeMatches) == Success(AppendUnder(m, SplitOnComma(key), e))
  {
    var sense := Get(entryMap, SENSE_KEY).value;
    var lemmas := SplitOnComma(key);
    assert WordEntryArgs(key, YMap(entryMap)) == Success(Some(EntryArgs(lemmas, [sense], None, None))) by {
      assert RawSenses(entryMap) == Success(Some([sense]));
      assert CommaField(entryMap, PRONUNCIATION_KEY) == Success(None);
      assert CommaField(entryMap, TAGS_KEY) == Success(None);
    }
    assert SenseStrings([sense]) == Success([sense.s]) by {
      assert [sense][1..] == [] && SenseStrings([]) == Success([]);
      assert [sense.s] + [] == [sense.s];
    }
    var cleaned := CleanupSenses([sense.s], re, removeMatches);
    assert cleaned == [CleanSense(sense.s, re, removeMatches)];
    e := DictionaryEntry(lemmas, cleaned, None, None, None);
    assert EntryToAdd(Some(lemmas), Some([sense.s]), None, None, re, removeMatches) == Success(e) by {
      assert FrequencyFromTags(None) == Success(None);
    }
  }

  /** A Jiji dictionary: its title and source language; its entries live in the shared index. */
  class DictionaryJiji {
    const title: Option<string>
    const languageFrom: Language
    const entriesByLemma: EntriesByLemma

    constructor(title: Option<string>, languageFrom: Language, entriesByLemma: EntriesByLemma)
      ensures this.title == title && this.languageFrom == languageFrom && this.entriesByLemma == entriesByLemma
    {
      this.title := title;
      this.languageFrom := languageFrom;
      this.entriesByLemma := entriesByLemma;
    }
  }

  /** One turn of the constructor's loop: the key handed to addEntry unless it is the information key or has no sense. */
  method LoadWord(store: EntriesByLemma, word: (string, YamlValue), re: Option<string>, removeMatches: (string, string) -> string)
    returns (r: Result<(), Error>)
    modifies store
    ensures var added := AddWord(old(store.index), word, re, removeMatches);
            (r.Success? <==> added.Success?)
            && (r.Success? ==> store.index == added.value)
            && (r.Failure? ==> r.error == added.error && store.index == old(store.index))
  {
    var (key, value) := word;
    if key != DICT_INFO_KEY {
      var args := WordEntryArgs(key, value);
      if args.Failure? {
        return Failure(args.error);
      }
      if args.value.Some? {
        var a := args.value.value;
        var senses := SenseStrings(a.senses);
        if senses.Failure? {
          return Failure(senses.error);
        }
        var added := store.AddEntry(Some(a.lemmas), Some(senses.value), a.pronunciations, a.tags, re, removeMatches);
        if added.Failure? {
          return Failure(added.error);
        }
      }
    }
    return Success(());
  }

  /**
   * The constructor: read the information block, then hand every other key to addEntry in
   * document order. An exception stops the loading and leaves what was indexed so far.
   */
  method Load(store: EntriesByLemma, root: YamlValue, re: Option<string>, removeMatches: (string, string) -> string)
    returns (r: Result<DictionaryJiji, Error>)
    modifies store
    ensures !root.YMap? ==> r.Failure? && store.index == old(store.index)
    ensures root.YMap? && AboutThisDictionary(GetOrNull(root.entries, DICT_INFO_KEY)).Failure? ==>
              r == Failure(AboutThisDictionary(GetOrNull(root.entries, DICT_INFO_KEY)).error) && store.index == old(store.index)
    ensures root.YMap? && AboutThisDictionary(GetOrNull(root.entries, DICT_INFO_KEY)).Success? ==>
              var loaded := LoadWords(old(store.index), root.entries, re, removeMatches);
              var about := AboutThisDictionary(GetOrNull(root.entries, DICT_INFO_KEY)).value;
              store.index == loaded.0
              && (r.Failure? <==> loaded.1.Some?)
              && (r.Failure? ==> r.error == loaded.1.value)
              && (r.Success? ==> fresh(r.value) && r.value.title == about.0 && r.value.languageFrom == about.1
                                 && r.value.entriesByLemma == store)
  {
    var yamlMap :- MapToUse(root);
    var about :- AboutThisDictionary(GetOrNull(yamlMap, DICT_INFO_KEY));
    var i := 0;
    while i < |yamlMap|
      invariant 0 <= i <= |yamlMap|
      invariant LoadWords(old(store.index), yamlMap, re, removeMatches) == LoadWords(store.index, yamlMap[i..], re, removeMatches)
    {
      ghost var before := store.index;
      assert yamlMap[i..][0] == yamlMap[i] && yamlMap[i..][1..] == yamlMap[i + 1..];
      var added := LoadWord(store, yamlMap[i], re, removeMatches);
      if added.Failure? {
        return Failure(added.error);
      }
      i := i + 1;
    }
    var dict := new DictionaryJiji(about.0, about.1, store);
    return Success(dict);
  }
}
