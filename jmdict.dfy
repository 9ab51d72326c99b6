/**
 * JmDict: the SAX handler that loads the JMdict XML into a map from each kanji or kana form to
 * the subtitle text that annotates it (jijimaku/langdictionary/JmDict.java; the root
 * langdictionary/JMDict.java is the same handler line for line). The XML parser is a foreign
 * library: its output is given as the sequence of characters and endElement events it delivers.
 * Forms are Option<string> because a form element ending before any character data stores null.
 */
module JmDict {
  import opened Wrappers
  import opened JavaLang

  /** The subtitle style code in front of each indexed word, and the one after it. */
  const HEADER: string := "{\\fs9\\c&FFFFFF&}"
  const WORD_END: string := "{\\r}"

  /** Put between the texts of two entries indexed under the same form. */
  const ENTRY_SEPARATOR: string := "\\N\\n　"

  const PRONUNCIATION_SEPARATOR: string := ",  "

  const USUALLY_KANA: string := "word usually written using kana alone"

  /** The SAX events the handler reacts to. */
  datatype SaxEvent = Characters(text: string) | EndElement(name: string)

  /** Java string concatenation of a possibly null String. */
  function StringOf(s: Option<string>): string {
    if s.Some? then s.value else "null"
  }

  /** The kana forms, each separated from the text so far by ",  " unless that text is still empty. */
  function Pronunciation(kanaForms: seq<Option<string>>): string {
    if |kanaForms| == 0 then ""
    else
      var p := Pronunciation(kanaForms[..|kanaForms| - 1]);
      (if p == "" then "" else p + PRONUNCIATION_SEPARATOR) + StringOf(kanaForms[|kanaForms| - 1])
  }

  /** When no kana form is empty, the pronunciation is the kana forms joined by ",  ". */
  lemma {:induction false} PronunciationJoins(kanaForms: seq<Option<string>>)
    requires forall i :: 0 <= i < |kanaForms| ==> kanaForms[i].Some? && kanaForms[i].value != ""
    ensures Pronunciation(kanaForms) == Join(seq(|kanaForms|, i requires 0 <= i < |kanaForms| => kanaForms[i].value), PRONUNCIATION_SEPARATOR)
    decreases |kanaForms|
  {
    var values := seq(|kanaForms|, i requires 0 <= i < |kanaForms| => kanaForms[i].value);
    if |kanaForms| > 1 {
      var init := kanaForms[..|kanaForms| - 1];
      PronunciationJoins(init);
      var initValues := seq(|init|, i requires 0 <= i < |init| => init[i].value);
      assert values == initValues + [kanaForms[|kanaForms| - 1].value];
      JoinSnoc(initValues, kanaForms[|kanaForms| - 1].value, PRONUNCIATION_SEPARATOR);
      assert Pronunciation(init) != "" by {
        JoinStartsWithFirst(initValues, PRONUNCIATION_SEPARATOR);
      }
    }
  }

  /** The pronunciation is recorded only for a word that is itself a kana form. */
  function PronunciationFor(word: Option<string>, kanaForms: seq<Option<string>>): (r: string)
    ensures word !in kanaForms ==> r == ""
  {
    if word in kanaForms then Pronunciation(kanaForms) else ""
  }

  /** Meaning i followed by a space, numbered "(i+1) " when there is more than one meaning. */
  function MeaningPiece(meanings: seq<string>, i: nat): string
    requires i < |meanings|
  {
    (if |meanings| > 1 then "(" + IntToString(i + 1) + ") " else "") + meanings[i] + " "
  }

  /** The first n meanings, each as its piece. */
  function MeaningsText(meanings: seq<string>, n: nat): string
    requires n <= |meanings|
  {
    if n == 0 then "" else MeaningsText(meanings, n - 1) + MeaningPiece(meanings, n - 1)
  }

  /** The two appends of the meanings loop add one piece. */
  lemma AppendPiece(before: string, meanings: seq<string>, i: nat)
    requires i < |meanings|
    ensures (if |meanings| > 1 then before + "(" + IntToString(i + 1) + ") " else before) + meanings[i] + " " == before + MeaningPiece(meanings, i)
  {
  }

  lemma AppendAssoc(a: string, b: string, c: string)
    ensures a + b + c == a + (b + c)
  {
  }

  lemma InitLast(s: seq<Option<string>>)
    requires |s| > 0
    ensures s == s[..|s| - 1] + [s[|s| - 1]]
  {
  }

  lemma PrefixStep(s: seq<Option<string>>, i: nat)
    requires i < |s|
    ensures s[..i + 1][..i] == s[..i] && s[..i + 1][i] == s[i] && |s[..i + 1]| == i + 1
  {
  }

  /** A single meaning is not numbered. */
  lemma SingleMeaning(meanings: seq<string>)
    requires |meanings| == 1
    ensures MeaningsText(meanings, 1) == meanings[0] + " "
  {
  }

  /** With several meanings the first is numbered (1). */
  lemma {:induction false} SeveralMeaningsNumbered(meanings: seq<string>, n: nat)
    requires |meanings| > 1 && 0 < n <= |meanings|
    ensures IsPrefix("(1) " + meanings[0] + " ", MeaningsText(meanings, n))
  {
    if n > 1 {
      SeveralMeaningsNumbered(meanings, n - 1);
      var p := "(1) " + meanings[0] + " ";
      var a := MeaningsText(meanings, n - 1);
      var b := MeaningPiece(meanings, n - 1);
      assert MeaningsText(meanings, n) == a + b;
      assert (a + b)[..|p|] == a[..|p|];
    } else {
      assert IntToString(1) == "1";
    }
  }

  /** The styled word, the pronunciation in 【】 when there is one, and a space. */
  function EntryHead(word: Option<string>, kanaForms: seq<Option<string>>): string {
    var pronunciation := PronunciationFor(word, kanaForms);
    HEADER + StringOf(word) + WORD_END + (if pronunciation != "" then "【" + pronunciation + "】" else "") + " "
  }

  /** The text stored for one form of an entry. */
  function EntryText(word: Option<string>, kanaForms: seq<Option<string>>, meanings: seq<string>): string {
    EntryHead(word, kanaForms) + MeaningsText(meanings, |meanings|)
  }

  /** Every entry text starts with the header and the word. */
  lemma EntryTextStarts(word: Option<string>, kanaForms: seq<Option<string>>, meanings: seq<string>)
    ensures IsPrefix(HEADER + StringOf(word) + WORD_END, EntryText(word, kanaForms, meanings))
  {
    var p := HEADER + StringOf(word) + WORD_END;
    var pronunciation := PronunciationFor(word, kanaForms);
    var rest := (if pronunciation != "" then "【" + pronunciation + "】" else "") + " ";
    assert EntryHead(word, kanaForms) == p + rest;
    PrefixExtend(p, p + rest, MeaningsText(meanings, |meanings|));
  }

  lemma EntryTextHeader(word: Option<string>, kanaForms: seq<Option<string>>, meanings: seq<string>)
    ensures IsPrefix(HEADER, EntryText(word, kanaForms, meanings))
  {
    EntryTextStarts(word, kanaForms, meanings);
    HeaderPrefix(StringOf(word) + WORD_END, EntryText(word, kanaForms, meanings));
    assert HEADER + StringOf(word) + WORD_END == HEADER + (StringOf(word) + WORD_END);
  }

  /** Indexing one more text that starts with the header keeps every text starting with it. */
  lemma IndexOneHeader(dict: map<Option<string>, string>, word: Option<string>, entry: string)
    requires AllStartWithHeader(dict) && IsPrefix(HEADER, entry)
    ensures AllStartWithHeader(IndexOne(dict, word, entry))
  {
    if word in dict {
      HeaderAppend(dict[word], ENTRY_SEPARATOR + entry);
      assert dict[word] + ENTRY_SEPARATOR + entry == dict[word] + (ENTRY_SEPARATOR + entry);
    }
  }

  /** A string starting with the header still does after anything is appended. */
  lemma HeaderAppend(a: string, b: string)
    requires IsPrefix(HEADER, a)
    ensures IsPrefix(HEADER, a + b)
  {
    assert (a + b)[..|HEADER|] == a[..|HEADER|];
  }

  predicate AllStartWithHeader(dict: map<Option<string>, string>) {
    forall k :: k in dict ==> IsPrefix(HEADER, dict[k])
  }

  /** The text stored under a word once one more form of an entry is indexed. */
  function IndexOne(dict: map<Option<string>, string>, word: Option<string>, entry: string): map<Option<string>, string> {
    dict[word := if word in dict then dict[word] + ENTRY_SEPARATOR + entry else entry]
  }

  /**
   * The map after the forms of one entry are indexed in order: each form becomes a key, an existing
   * key gets the new text appended after the separator, and no other key changes.
   */
  function IndexWords(dict: map<Option<string>, string>, words: seq<Option<string>>, kanaForms: seq<Option<string>>, meanings: seq<string>): (r: map<Option<string>, string>)
    ensures r.Keys == dict.Keys + set w | w in words
    ensures forall w :: w in dict && w !in words ==> r[w] == dict[w]
    decreases |words|
  {
    if |words| == 0 then dict
    else
      var prev := IndexWords(dict, words[..|words| - 1], kanaForms, meanings);
      var w := words[|words| - 1];
      InitLast(words);
      IndexOne(prev, w, EntryText(w, kanaForms, meanings))
  }

  /** Indexing an entry keeps every stored text starting with the header. */
  lemma {:induction false} IndexWordsHeader(dict: map<Option<string>, string>, words: seq<Option<string>>, kanaForms: seq<Option<string>>, meanings: seq<string>)
    requires AllStartWithHeader(dict)
    ensures AllStartWithHeader(IndexWords(dict, words, kanaForms, meanings))
    decreases |words|
  {
    if |words| > 0 {
      var w := words[|words| - 1];
      IndexWordsHeader(dict, words[..|words| - 1], kanaForms, meanings);
      EntryTextHeader(w, kanaForms, meanings);
      IndexOneHeader(IndexWords(dict, words[..|words| - 1], kanaForms, meanings), w, EntryText(w, kanaForms, meanings));
    }
  }

  lemma HeaderPrefix(rest: string, s: string)
    requires IsPrefix(HEADER + rest, s)
    ensures IsPrefix(HEADER, s)
  {
    assert s[..|HEADER|] == (HEADER + rest)[..|HEADER|];
  }

  /** The last form of the words is indexed last. */
  lemma IndexWordsLast(dict: map<Option<string>, string>, words: seq<Option<string>>, kanaForms: seq<Option<string>>, meanings: seq<string>)
    requires |words| > 0
    ensures IndexWords(dict, words, kanaForms, meanings)
            == IndexOne(IndexWords(dict, words[..|words| - 1], kanaForms, meanings), words[|words| - 1], EntryText(words[|words| - 1], kanaForms, meanings))
  {
  }

  /** Indexing one text under a word changes that word only, appending after the separator when it was there. */
  lemma IndexOneAt(dict: map<Option<string>, string>, word: Option<string>, entry: string, w: Option<string>)
    ensures w == word && w in dict ==> IndexOne(dict, word, entry)[w] == dict[w] + (ENTRY_SEPARATOR + entry)
    ensures w == word && w !in dict ==> IndexOne(dict, word, entry)[w] == entry
    ensures w != word && w in dict ==> IndexOne(dict, word, entry)[w] == dict[w]
  {
    if w == word && w in dict {
      assert dict[w] + ENTRY_SEPARATOR + entry == dict[w] + (ENTRY_SEPARATOR + entry);
    }
  }

  lemma PrefixOfAppend(a: string, sep: string, t: string)
    ensures IsPrefix(a, a + (sep + t)) && IsPrefix(a + sep, a + (sep + t))
  {
    assert (a + (sep + t))[..|a|] == a;
    assert a + (sep + t) == (a + sep) + t;
    assert ((a + sep) + t)[..|a + sep|] == a + sep;
  }

  /** A text already stored under a form stays at the front of it, followed by the separator when the form is indexed again. */
  lemma {:induction false} IndexWordsExtends(dict: map<Option<string>, string>, words: seq<Option<string>>, kanaForms: seq<Option<string>>, meanings: seq<string>, w: Option<string>)
    requires w in dict
    ensures IsPrefix(dict[w], IndexWords(dict, words, kanaForms, meanings)[w])
    ensures w in words ==> IsPrefix(dict[w] + ENTRY_SEPARATOR, IndexWords(dict, words, kanaForms, meanings)[w])
    decreases |words|
  {
    if |words| > 0 {
      var init := words[..|words| - 1];
      var last := words[|words| - 1];
      InitLast(words);
      IndexWordsExtends(dict, init, kanaForms, meanings, w);
      var prev := IndexWords(dict, init, kanaForms, meanings);
      var entry := EntryText(last, kanaForms, meanings);
      IndexWordsLast(dict, words, kanaForms, meanings);
      IndexOneAt(prev, last, entry, w);
      if last == w {
        if w in init {
          PrefixExtend(dict[w], prev[w], ENTRY_SEPARATOR + entry);
          PrefixExtend(dict[w] + ENTRY_SEPARATOR, prev[w], ENTRY_SEPARATOR + entry);
        } else {
          PrefixOfAppend(dict[w], ENTRY_SEPARATOR, entry);
        }
      } else {
        assert w in words ==> w in init;
      }
    }
  }

  lemma PrefixExtend(p: string, s: string, t: string)
    requires IsPrefix(p, s)
    ensures IsPrefix(p, s + t)
  {
    assert (s + t)[..|p|] == s[..|p|];
  }

  /** A form new to the map is stored with its own entry text at the front. */
  lemma {:induction false} IndexWordsFresh(dict: map<Option<string>, string>, words: seq<Option<string>>, kanaForms: seq<Option<string>>, meanings: seq<string>, w: Option<string>)
    requires w !in dict && w in words
    ensures IsPrefix(EntryText(w, kanaForms, meanings), IndexWords(dict, words, kanaForms, meanings)[w])
    decreases |words|
  {
    var init := words[..|words| - 1];
    var last := words[|words| - 1];
    InitLast(words);
    var prev := IndexWords(dict, init, kanaForms, meanings);
    var entry := EntryText(last, kanaForms, meanings);
    IndexWordsLast(dict, words, kanaForms, meanings);
    IndexOneAt(prev, last, entry, w);
    if w in init {
      IndexWordsFresh(dict, init, kanaForms, meanings, w);
      if last == w {
        PrefixExtend(entry, prev[w], ENTRY_SEPARATOR + entry);
      }
    } else {
      assert w !in prev && last == w;
      assert entry[..|entry|] == entry;
    }
  }

  /** The pronunciation loop. */
  method BuildPronunciation(kanaForms: seq<Option<string>>) returns (pronunciation: string)
    ensures pronunciation == Pronunciation(kanaForms)
  {
    pronunciation := "";
    for i := 0 to |kanaForms|
      invariant pronunciation == Pronunciation(kanaForms[..i])
    {
      PrefixStep(kanaForms, i);
      if pronunciation != "" {
        pronunciation := pronunciation + PRONUNCIATION_SEPARATOR;
      }
      pronunciation := pronunciation + StringOf(kanaForms[i]);
    }
    assert kanaForms[..|kanaForms|] == kanaForms;
  }

  /** The text built for one form, with the meanings loop. */
  method BuildEntryText(word: Option<string>, kanaForms: seq<Option<string>>, meanings: seq<string>) returns (entry: string)
    ensures entry == EntryText(word, kanaForms, meanings)
  {
    var pronunciation := "";
    if word in kanaForms {
      pronunciation := BuildPronunciation(kanaForms);
    }
    entry := HEADER + StringOf(word) + WORD_END;
    if pronunciation != "" {
      entry := entry + "【" + pronunciation + "】";
    }
    entry := entry + " ";
    assert entry == EntryHead(word, kanaForms);
    entry := AppendMeanings(entry, meanings);
  }

  /** The meanings loop of the entry text. */
  method AppendMeanings(head: string, meanings: seq<string>) returns (entry: string)
    ensures entry == head + MeaningsText(meanings, |meanings|)
  {
    entry := head;
    for i := 0 to |meanings|
      invariant entry == head + MeaningsText(meanings, i)
    {
      ghost var before := entry;
      if |meanings| > 1 {
        entry := entry + "(" + IntToString(i + 1) + ") ";
      }
      entry := entry + meanings[i] + " ";
      assert entry == head + MeaningsText(meanings, i + 1) by {
        AppendPiece(before, meanings, i);
        AppendAssoc(head, MeaningsText(meanings, i), MeaningPiece(meanings, i));
      }
    }
  }

  /** The loop over the forms of an entry. */
  method IndexEntry(dict: map<Option<string>, string>, words: seq<Option<string>>, kanaForms: seq<Option<string>>, meanings: seq<string>) returns (r: map<Option<string>, string>)
    ensures r == IndexWords(dict, words, kanaForms, meanings)
  {
    r := dict;
    for i := 0 to |words|
      invariant r == IndexWords(dict, words[..i], kanaForms, meanings)
    {
      ghost var prev := r;
      var word := words[i];
      var entry := BuildEntryText(word, kanaForms, meanings);
      if word in r {
        r := r[word := r[word] + ENTRY_SEPARATOR + entry];
      } else {
        r := r[word := entry];
      }
      assert r == IndexWords(dict, words[..i + 1], kanaForms, meanings) by {
        PrefixStep(words, i);
        IndexWordsLast(dict, words[..i + 1], kanaForms, meanings);
        assert r == IndexOne(prev, word, entry);
      }
    }
    assert words[..|words|] == words;
  }

  /** The anonymous DefaultHandler: its fields are the state between events. */
  class Handler {
    var count: int
    var xmlText: Option<string>
    var meaningText: string
    var kanjiForms: seq<Option<string>>
    var kanaForms: seq<Option<string>>
    var meanings: seq<string>
    var isUsuallyKana: bool
    /** The enclosing JmDict's map, which the handler fills. */
    var dict: map<Option<string>, string>

    /** Only non-empty meanings are kept, and every stored text starts with the header. */
    predicate Valid()
      reads this
    {
      (forall i :: 0 <= i < |meanings| ==> meanings[i] != "") && AllStartWithHeader(dict)
    }

    constructor()
      ensures Valid()
      ensures count == 0 && xmlText == None && meaningText == "" && !isUsuallyKana
      ensures kanjiForms == [] && kanaForms == [] && meanings == [] && dict == map[]
    {
      count := 0;
      xmlText := None;
      meaningText := "";
      kanjiForms := [];
      kanaForms := [];
      meanings := [];
      isUsuallyKana := false;
      dict := map[];
    }

    /** characters keeps only the latest chunk of text. */
    method Characters(text: string)
      modifies this
      ensures xmlText == Some(text)
      ensures count == old(count) && meaningText == old(meaningText) && kanjiForms == old(kanjiForms)
      ensures kanaForms == old(kanaForms) && meanings == old(meanings) && isUsuallyKana == old(isUsuallyKana) && dict == old(dict)
    {
      xmlText := Some(text);
    }

    /**
     * endElement. An entry end indexes every kanji and kana form and resets the per-entry state; a
     * keb or reb end records a form; a sense end keeps the gloss text when it is not empty; a gloss
     * end accumulates its text; a misc end with null text is a NullPointerException.
     */
    method EndElement(name: string) returns (r: Result<(), Error>)
      requires Valid()
      modifies this
      ensures Valid()
      ensures r.Failure? <==> name == "misc" && old(xmlText).None?
      ensures r.Failure? ==> r.error == NullPointer
      ensures xmlText == old(xmlText)
      ensures name == "entry" ==>
                count == old(count) + 1
                && dict == IndexWords(old(dict), old(kanjiForms) + old(kanaForms), old(kanaForms), old(meanings))
                && kanjiForms == [] && kanaForms == [] && meanings == [] && !isUsuallyKana && meaningText == old(meaningText)
      ensures name != "entry" ==> count == old(count) && dict == old(dict)
      ensures kanjiForms == if name == "keb" then old(kanjiForms) + [old(xmlText)] else if name == "entry" then [] else old(kanjiForms)
      ensures kanaForms == if name == "reb" then old(kanaForms) + [old(xmlText)] else if name == "entry" then [] else old(kanaForms)
      ensures name == "sense" ==> meaningText == "" && meanings == old(meanings) + (if old(meaningText) != "" then [old(meaningText)] else [])
      ensures name == "gloss" ==> meaningText == old(meaningText) + StringOf(old(xmlText)) + "; "
      ensures name !in {"entry", "sense"} ==> meanings == old(meanings)
      ensures name !in {"sense", "gloss"} ==> meaningText == old(meaningText)
      ensures isUsuallyKana == if name == "entry" then false
                               else if name == "misc" && old(xmlText) == Some(USUALLY_KANA) then true
                               else old(isUsuallyKana)
    {
      r := Success(());
      if name == "entry" {
        count := count + 1;
        kanjiForms := kanjiForms + kanaForms;
        IndexWordsHeader(dict, kanjiForms, kanaForms, meanings);
        dict := IndexEntry(dict, kanjiForms, kanaForms, meanings);
        kanjiForms := [];
        kanaForms := [];
        meanings := [];
        isUsuallyKana := false;
      } else if name == "keb" {
        kanjiForms := kanjiForms + [xmlText];
      } else if name == "reb" {
        kanaForms := kanaForms + [xmlText];
      } else if name == "sense" {
        if meaningText != "" {
          meanings := meanings + [meaningText];
        }
        meaningText := "";
      } else if name == "gloss" {
        meaningText := meaningText + StringOf(xmlText) + "; ";
      } else if name == "misc" {
        if xmlText.None? {
          r := Failure(NullPointer);
        } else if xmlText.value == USUALLY_KANA {
          isUsuallyKana := true;
        }
      }
    }
  }

  /** The dictionary: the map the handler filled while the XML was parsed. */
  class JmDictionary {
    var dict: map<Option<string>, string>

    predicate Valid()
      reads this
    {
      AllStartWithHeader(dict)
    }

    /**
     * The constructor: the events are delivered to the handler in order; an exception stops the
     * parse and is swallowed, keeping what was indexed so far.
     */
    constructor(events: seq<SaxEvent>)
      ensures Valid()
    {
      var handler := new Handler();
      var i := 0;
      while i < |events|
        invariant 0 <= i <= |events|
        invariant handler.Valid()
        decreases |events| - i
      {
        if events[i].Characters? {
          handler.Characters(events[i].text);
        } else {
          var r := handler.EndElement(events[i].name);
          if r.Failure? {
            break;
          }
        }
        i := i + 1;
      }
      dict := handler.dict;
    }

    /** getMeaning: the stored text, or "" for a word not in the map. */
    function GetMeaning(w: string): (r: string)
      reads this
      ensures Some(w) in dict ==> r == dict[Some(w)]
      ensures Valid() ==> (r != "" <==> Some(w) in dict)
    {
      if Some(w) in dict then dict[Some(w)] else ""
    }
  }

  /** A null input stream is an IllegalArgumentException before any parsing. */
  method Open(input: Option<seq<SaxEvent>>) returns (r: Result<JmDictionary, Error>)
    ensures r.Failure? <==> input.None?
    ensures r.Failure? ==> r.error == IllegalArgument
    ensures r.Success? ==> fresh(r.value) && r.value.Valid()
  {
    if input.None? {
      return Failure(IllegalArgument);
    }
    var d := new JmDictionary(input.value);
    return Success(d);
  }
}
