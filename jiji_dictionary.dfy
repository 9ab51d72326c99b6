/**
 * The Jiji dictionary of jijimaku.services.jijidictionary: YAML entries keyed by their
 * comma-separated lemmas, indexed under every lemma.
 */
module JijiDictionary {
  import opened Wrappers
  import opened JavaLang
  import opened Yaml
  import opened LemmaIndex

  /** JijiDictionaryEntry: a plain holder of its four constructor arguments. */
  datatype JijiDictionaryEntry = JijiDictionaryEntry(
    lemmas: seq<string>,
    frequency: Option<int>,
    senses: seq<YamlValue>,
    pronounciation: Option<seq<string>>)

  const DICTIONARY_INFO_KEY: string := "about_this_dictionary"
  const SENSE_KEY: string := "sense"
  const SENSES_KEY: string := "senses"
  const PRONOUNCIATION_KEY: string := "pronounciation"
  const FREQUENCY_KEY: string := "frequency"

  /**
   * The senses of an entry mapping: "sense" (one String) wins over "senses" (a list); with
   * neither key the entry is skipped (None). The senses are kept as loaded: the list cast
   * checks only the list, so its elements are not checked here.
   */
  function ParseSenses(entryMap: seq<(string, YamlValue)>): (r: Result<Option<seq<YamlValue>>, Error>)
    ensures Get(entryMap, SENSE_KEY).None? && Get(entryMap, SENSES_KEY).None? ==> r == Success(None)
    ensures Get(entryMap, SENSE_KEY).Some? ==>
              r == if AsString(Get(entryMap, SENSE_KEY).value).Success? then Success(Some([Get(entryMap, SENSE_KEY).value]))
                   else Failure(ClassCast)
    ensures Get(entryMap, SENSE_KEY).None? && Get(entryMap, SENSES_KEY).Some? ==>
              r == match SenseList(Get(entryMap, SENSES_KEY).value)
                   case Success(items) => Success(Some(items))
                   case Failure(e) => Failure(e)
  {
    match Get(entryMap, SENSE_KEY)
    case Some(v) =>
      var _ :- AsString(v);
      Success(Some([v]))
    case None =>
      match Get(entryMap, SENSES_KEY)
      case Some(v) =>
        var items :- SenseList(v);
        Success(Some(items))
      case None => Success(None)
  }

  /**
   * senses.addAll((ArrayList<String>) v): a null list is a NullPointerException and a value that
   * is not a list a ClassCastException; the erased cast lets every element of a list through.
   */
  function SenseList(v: YamlValue): (r: Result<seq<YamlValue>, Error>)
    ensures r.Success? <==> v.YList?
    ensures r.Success? ==> r.value == v.items
    ensures v.YNull? ==> r == Failure(NullPointer)
    ensures !v.YList? && !v.YNull? ==> r == Failure(ClassCast)
  {
    match v
    case YNull => Failure(NullPointer)
    case YList(items) => Success(items)
    case _ => Failure(ClassCast)
  }

  /**
   * What String.join writes for the senses of an entry: a null sense reads "null", and an element
   * that is not a String is a ClassCastException there, when the entry is displayed.
   */
  function SenseTexts(senses: seq<YamlValue>): (r: Result<seq<string>, Error>)
    ensures r.Success? <==> forall i :: 0 <= i < |senses| ==> senses[i].YStr? || senses[i].YNull?
    ensures r.Failure? ==> r.error == ClassCast
    ensures r.Success? ==> |r.value| == |senses|
    ensures r.Success? ==>
              forall i :: 0 <= i < |senses| ==> r.value[i] == if senses[i].YStr? then senses[i].s else "null"
  {
    var texts := seq(|senses|, i requires 0 <= i < |senses| => if senses[i].YNull? then YStr("null") else senses[i]);
    assert forall i :: 0 <= i < |senses| ==> (texts[i].YStr? <==> senses[i].YStr? || senses[i].YNull?);
    Strings(texts)
  }

  /** A "senses" list loads whatever its elements are: a non-String element is kept as it is. */
  lemma SensesListUnchecked(entryMap: seq<(string, YamlValue)>, items: seq<YamlValue>)
    requires Get(entryMap, SENSE_KEY).None? && Get(entryMap, SENSES_KEY) == Some(YList(items))
    ensures ParseSenses(entryMap) == Success(Some(items))
  {
  }

  /** The entry built from one word of the dictionary file, None when it has no sense. */
  function ParseWordEntry(key: string, value: YamlValue): (r: Result<Option<JijiDictionaryEntry>, Error>)
    ensures r.Success? && r.value.Some? ==> r.value.value.lemmas == SplitOnComma(key)
    ensures value.YMap? && Get(value.entries, SENSE_KEY).None? && Get(value.entries, SENSES_KEY).None? ==> r == Success(None)
    ensures r.Success? && r.value.Some? && value.YMap? ==>
              (r.value.value.pronounciation.Some? <==> Get(value.entries, PRONOUNCIATION_KEY).Some?)
    ensures r.Success? && r.value.Some? && value.YMap? ==>
              (r.value.value.frequency.Some? ==> Get(value.entries, FREQUENCY_KEY).Some?)
  {
    var entryMap :- AsMap(value);
    if entryMap.None? then Failure(NullPointer)
    else
      var senses :- ParseSenses(entryMap.value);
      if senses.None? then Success(None)
      else
        var pronounciation :- match Get(entryMap.value, PRONOUNCIATION_KEY)
          case None => Success(None)
          case Some(v) =>
            var s :- AsString(v);
            if s.None? then Failure(NullPointer) else Success(Some(SplitOnComma(s.value)));
        var frequency :- match Get(entryMap.value, FREQUENCY_KEY)
          case None => Success(None)
          case Some(v) => AsInteger(v);
        Success(Some(JijiDictionaryEntry(SplitOnComma(key), frequency, senses.value, pronounciation)))
  }

  /** The index the constructor builds from the words of the file, in document order. */
  function IndexDocument(doc: seq<(string, YamlValue)>): (r: Result<Index<JijiDictionaryEntry>, Error>)
  {
    if |doc| == 0 then Success(map[])
    else
      var m :- IndexDocument(doc[..|doc| - 1]);
      IndexWord(m, doc[|doc| - 1])
  }

  /** One iteration of the constructor's loop. */
  function IndexWord(m: Index<JijiDictionaryEntry>, word: (string, YamlValue)): Result<Index<JijiDictionaryEntry>, Error> {
    if word.0 == DICTIONARY_INFO_KEY then Success(m)
    else
      var e :- ParseWordEntry(word.0, word.1);
      if e.None? then Success(m) else Success(AppendUnder(m, e.value.lemmas, e.value))
  }

  /** The about_this_dictionary key is never turned into an entry: removing it changes nothing. */
  lemma {:induction false} InfoKeyNotIndexed(doc: seq<(string, YamlValue)>, info: YamlValue)
    ensures IndexDocument(doc + [(DICTIONARY_INFO_KEY, info)]) == IndexDocument(doc)
  {
    assert (doc + [(DICTIONARY_INFO_KEY, info)])[..|doc|] == doc;
  }

  /** A word whose mapping has neither sense nor senses adds nothing. */
  lemma {:induction false} SenselessWordSkipped(doc: seq<(string, YamlValue)>, key: string, entryMap: seq<(string, YamlValue)>)
    requires Get(entryMap, SENSE_KEY).None? && Get(entryMap, SENSES_KEY).None?
    ensures IndexDocument(doc + [(key, YMap(entryMap))]) == IndexDocument(doc)
  {
    assert (doc + [(key, YMap(entryMap))])[..|doc|] == doc;
  }

  /** A word with a single sense string is found under each of its lemmas, last in their lists. */
  lemma IndexedUnderEachLemma(doc: seq<(string, YamlValue)>, key: string, entryMap: seq<(string, YamlValue)>, w: string)
    requires key != DICTIONARY_INFO_KEY
    requires IndexDocument(doc).Success?
    requires IndexDocument(doc + [(key, YMap(entryMap))]).Success?
    requires Get(entryMap, SENSE_KEY).Some? && Get(entryMap, SENSE_KEY).value.YStr?
    requires w in SplitOnComma(key)
    ensures var after := Search(IndexDocument(doc + [(key, YMap(entryMap))]).value, w);
            |after| > 0 && after[|after| - 1].lemmas == SplitOnComma(key)
            && after[|after| - 1].senses == [Get(entryMap, SENSE_KEY).value]
  {
    var m := IndexDocument(doc).value;
    var e := SingleSenseEntry(doc, key, entryMap);
    AppendUnderSearch(m, e.lemmas, e, w);
    CountZero(e.lemmas, w);
  }

  /** The entry a single-sense word makes, and the index after it. */
  lemma SingleSenseEntry(doc: seq<(string, YamlValue)>, key: string, entryMap: seq<(string, YamlValue)>)
    returns (e: JijiDictionaryEntry)
    requires key != DICTIONARY_INFO_KEY
    requires IndexDocument(doc).Success?
    requires IndexDocument(doc + [(key, YMap(entryMap))]).Success?
    requires Get(entryMap, SENSE_KEY).Some? && Get(entryMap, SENSE_KEY).value.YStr?
    ensures IndexDocument(doc + [(key, YMap(entryMap))]) == Success(AppendUnder(IndexDocument(doc).value, e.lemmas, e))
    ensures e.lemmas == SplitOnComma(key) && e.senses == [Get(entryMap, SENSE_KEY).value]
  {
    IndexDocumentSnoc(doc, (key, YMap(entryMap)));
    e := ParseWordEntry(key, YMap(entryMap)).value.value;
  }

  lemma IndexDocumentSnoc(doc: seq<(string, YamlValue)>, word: (string, YamlValue))
    requires IndexDocument(doc).Success?
    ensures IndexDocument(doc + [word]) == IndexWord(IndexDocument(doc).value, word)
  {
    assert (doc + [word])[..|doc|] == doc;
  }

  class JijiDictionary {
    var entries: Index<JijiDictionaryEntry>

    constructor Empty()
      ensures entries == map[]
    {
      entries := map[];
    }

    /** getEntriesForWord: the list indexed under w, the empty list on a miss. */
    function GetEntriesForWord(w: string): (r: seq<JijiDictionaryEntry>)
      reads this
      ensures w !in entries ==> r == []
      ensures w in entries ==> r == entries[w]
    {
      Search(entries, w)
    }

    /** The constructor's inner loop: append the entry under each of its lemmas. */
    method AddUnderLemmas(e: JijiDictionaryEntry)
      modifies this
      ensures entries == AppendUnder(old(entries), e.lemmas, e)
    {
      var i := 0;
      while i < |e.lemmas|
        invariant 0 <= i <= |e.lemmas|
        invariant entries == AppendUnder(old(entries), e.lemmas[..i], e)
      {
        var l := e.lemmas[i];
        ghost var prev := entries;
        AppendUnderSnoc(old(entries), e.lemmas, i, e);
        if l !in entries {
          entries := entries[l := []];
        }
        entries := entries[l := entries[l] + [e]];
        assert entries == AppendOne(prev, l, e);
        i := i + 1;
      }
      assert e.lemmas[..i] == e.lemmas;
    }
  }

  /**
   * The constructor: load the YAML document and index every word entry. A document that is not a
   * mapping, or a word whose value has the wrong shape, raises the corresponding exception.
   */
  method Load(root: YamlValue) returns (r: Result<JijiDictionary, Error>)
    ensures root.YMap? ==> (r.Success? <==> IndexDocument(root.entries).Success?)
    ensures root.YMap? && r.Success? ==> fresh(r.value) && r.value.entries == IndexDocument(root.entries).value
    ensures root.YNull? ==> r == Failure(NullPointer)
    ensures !root.YMap? && !root.YNull? ==> r == Failure(ClassCast)
  {
    if root.YNull? {
      return Failure(NullPointer);
    }
    if !root.YMap? {
      return Failure(ClassCast);
    }
    var doc := root.entries;
    var dict := new JijiDictionary.Empty();
    var i := 0;
    while i < |doc|
      invariant 0 <= i <= |doc|
      invariant IndexDocument(doc[..i]) == Success(dict.entries)
      invariant fresh(dict)
    {
      assert doc[..i + 1][..i] == doc[..i];
      var (key, value) := doc[i];
      if key != DICTIONARY_INFO_KEY {
        var e := ParseWordEntry(key, value);
        if e.Failure? {
          assert IndexDocument(doc[..i + 1]).Failure?;
          PrefixFailure(doc, i + 1);
          return Failure(e.error);
        }
        if e.value.Some? {
          dict.AddUnderLemmas(e.value.value);
        }
      }
      i := i + 1;
    }
    assert doc[..i] == doc;
    return Success(dict);
  }

  /** Once a prefix of the document fails, the whole document fails. */
  lemma {:induction false} PrefixFailure(doc: seq<(string, YamlValue)>, n: nat)
    requires n <= |doc| && IndexDocument(doc[..n]).Failure?
    ensures IndexDocument(doc).Failure?
    decreases |doc| - n
  {
    if n < |doc| {
      assert doc[..n + 1][..n] == doc[..n];
      PrefixFailure(doc, n + 1);
    } else {
      assert doc[..n] == doc;
    }
  }
}
