/**
 * jijimaku.services.dictionary: the DictionaryEntry value, with its frequency derived from the
 * tags, and the lemma index that every Dictionary implementation shares (entriesByLemma is a
 * constant of the interface, so there is one index for the whole program).
 */
module Dictionaries {
  import opened Wrappers
  import opened JavaLang
  import opened LemmaIndex

  const FREQUENCY_TAG_PREFIX: string := "freq"

  /**
   * A dictionary entry: lemmas and senses are never null, pronunciations and tags may be, and the
   * frequency is computed once from the tags by the constructor.
   */
  datatype DictionaryEntry = DictionaryEntry(
    lemmas: seq<string>,
    senses: seq<string>,
    pronunciations: Option<seq<string>>,
    tags: Option<seq<string>>,
    frequency: Option<int>)

  // ---------------------------------------------------------------- frequency

  predicate IsFrequencyTag(t: string) {
    IsPrefix(FREQUENCY_TAG_PREFIX, t)
  }

  /** The tags that start with "freq", in their order. */
  function FrequencyTags(tags: seq<string>): (r: seq<string>)
    ensures |r| <= |tags|
    ensures forall t :: t in r <==> t in tags && IsFrequencyTag(t)
    ensures forall i :: 0 <= i < |r| ==> IsFrequencyTag(r[i])
  {
    if |tags| == 0 then []
    else (if IsFrequencyTag(tags[0]) then [tags[0]] else []) + FrequencyTags(tags[1..])
  }

  lemma {:induction false} FrequencyTagsAppend(a: seq<string>, b: seq<string>)
    ensures FrequencyTags(a + b) == FrequencyTags(a) + FrequencyTags(b)
  {
    if |a| > 0 {
      assert (a + b)[1..] == a[1..] + b;
      FrequencyTagsAppend(a[1..], b);
    } else {
      assert a + b == b;
    }
  }

  lemma {:induction false} FrequencyTagsNone(tags: seq<string>)
    requires forall i :: 0 <= i < |tags| ==> !IsFrequencyTag(tags[i])
    ensures FrequencyTags(tags) == []
  {
    if |tags| > 0 {
      FrequencyTagsNone(tags[1..]);
    }
  }

  /**
   * getFrequencyFromTags: null without tags, null when no tag or more than one tag starts with
   * "freq" (the second case is logged as a data error); otherwise the integer after the prefix,
   * and a NumberFormatException when that suffix is not an int.
   */
  function FrequencyFromTags(tags: Option<seq<string>>): (r: Result<Option<int>, Error>)
    ensures tags.None? || |FrequencyTags(tags.value)| != 1 ==> r == Success(None)
    ensures r.Success? && r.value.Some? ==>
              tags.Some? && |FrequencyTags(tags.value)| == 1
              && ParseInt(FrequencyTags(tags.value)[0][|FREQUENCY_TAG_PREFIX|..]) == Success(r.value.value)
    ensures r.Failure? ==>
              r.error == NumberFormat && tags.Some? && |FrequencyTags(tags.value)| == 1
              && ParseInt(FrequencyTags(tags.value)[0][|FREQUENCY_TAG_PREFIX|..]).Failure?
  {
    if tags.None? then Success(None)
    else
      var frequencyTags := FrequencyTags(tags.value);
      if |frequencyTags| != 1 then Success(None)
      else
        var n :- ParseInt(frequencyTags[0][|FREQUENCY_TAG_PREFIX|..]);
        Success(Some(n))
  }

  /** One "freq<n>" tag among tags that are not frequency tags gives frequency n. */
  lemma SingleFrequencyTag(before: seq<string>, after: seq<string>, n: int)
    requires InInt32(n)
    requires forall i :: 0 <= i < |before| ==> !IsFrequencyTag(before[i])
    requires forall i :: 0 <= i < |after| ==> !IsFrequencyTag(after[i])
    ensures FrequencyFromTags(Some(before + [FREQUENCY_TAG_PREFIX + IntToString(n)] + after)) == Success(Some(n))
  {
    var t := FREQUENCY_TAG_PREFIX + IntToString(n);
    FrequencyTagsAppend(before + [t], after);
    FrequencyTagsAppend(before, [t]);
    FrequencyTagsNone(before);
    FrequencyTagsNone(after);
    assert IsFrequencyTag(t) by {
      assert t[..|FREQUENCY_TAG_PREFIX|] == FREQUENCY_TAG_PREFIX;
    }
    assert FrequencyTags([t]) == [t];
    assert t[|FREQUENCY_TAG_PREFIX|..] == IntToString(n);
    ParseIntToString(n);
  }

  /** Two frequency tags are a data error that leaves the frequency null, never an exception. */
  lemma TwoFrequencyTags(tags: seq<string>, i: nat, j: nat)
    requires i < j < |tags| && IsFrequencyTag(tags[i]) && IsFrequencyTag(tags[j])
    ensures FrequencyFromTags(Some(tags)) == Success(None)
  {
    FrequencyTagsAppend(tags[..j], tags[j..]);
    assert tags == tags[..j] + tags[j..];
    assert tags[i] in tags[..j];
    assert tags[j] in tags[j..];
    var fa, fb := FrequencyTags(tags[..j]), FrequencyTags(tags[j..]);
    assert tags[i] in fa && tags[j] in fb;
    assert |fa| >= 1 && |fb| >= 1;
  }

  // ---------------------------------------------------------------- the entry

  /**
   * The constructor: a null lemma list or sense list is a NullPointerException (lemmas checked
   * first); the fields are stored as given and the frequency is derived from the tags.
   */
  function NewDictionaryEntry(lemmas: Option<seq<string>>, senses: Option<seq<string>>,
                              pronunciations: Option<seq<string>>, tags: Option<seq<string>>): (r: Result<DictionaryEntry, Error>)
    ensures lemmas.None? || senses.None? ==> r == Failure(NullPointer)
    ensures lemmas.Some? && senses.Some? ==> (r.Success? <==> FrequencyFromTags(tags).Success?)
    ensures r.Failure? && lemmas.Some? && senses.Some? ==> r.error == NumberFormat
    ensures r.Success? ==> r.value.lemmas == lemmas.value && r.value.senses == senses.value
                           && r.value.pronunciations == pronunciations && r.value.tags == tags
                           && Success(r.value.frequency) == FrequencyFromTags(tags)
  {
    if lemmas.None? || senses.None? then Failure(NullPointer)
    else
      var frequency :- FrequencyFromTags(tags);
      Success(DictionaryEntry(lemmas.value, senses.value, pronunciations, tags, frequency))
  }

  /** What the constructor guarantees of every entry: its frequency is the one its tags give. */
  predicate Built(e: DictionaryEntry) {
    FrequencyFromTags(e.tags) == Success(e.frequency)
  }

  /** equals: lemmas, senses, pronunciations and tags, a null field equal only to a null field. */
  predicate Equals(a: DictionaryEntry, b: DictionaryEntry) {
    a.lemmas == b.lemmas && a.senses == b.senses && a.pronunciations == b.pronunciations && a.tags == b.tags
  }

  /**
   * Since the frequency is a function of the tags, equals on constructed entries is exactly
   * equality of the whole value.
   */
  lemma EqualsIsValueEquality(a: DictionaryEntry, b: DictionaryEntry)
    requires Built(a) && Built(b)
    ensures Equals(a, b) <==> a == b
  {
    if Equals(a, b) {
      assert FrequencyFromTags(a.tags) == FrequencyFromTags(b.tags);
    }
  }

  // ---------------------------------------------------------------- hashCode

  /** The UTF-16 code units of a character. */
  function CodeUnits(c: char): (r: seq<int>)
    ensures |r| == (if c as int > 0xFFFF then 2 else 1)
  {
    if c as int > 0xFFFF then [0xD800 + (c as int - 0x10000) / 0x400, 0xDC00 + (c as int - 0x10000) % 0x400]
    else [c as int]
  }

  function HashUnits(h: int, units: seq<int>): int
    decreases |units|
  {
    if |units| == 0 then h else HashUnits(Wrap32(31 * h + units[0]), units[1..])
  }

  /** String.hashCode: h = 31 * h + unit over the UTF-16 code units, in int arithmetic. */
  function StringHash(s: string): (r: int)
    ensures InInt32(r)
  {
    if |s| == 0 then 0 else Wrap32(HashUnits(StringHash(s[..|s| - 1]), CodeUnits(s[|s| - 1])))
  }

  /** List.hashCode: h = 31 * h + element hash, starting from 1. */
  function ListHash(xs: seq<string>): (r: int)
    ensures InInt32(r)
  {
    if |xs| == 0 then 1 else Wrap32(31 * ListHash(xs[..|xs| - 1]) + StringHash(xs[|xs| - 1]))
  }

  function NullableListHash(xs: Option<seq<string>>): int {
    if xs.Some? then ListHash(xs.value) else 0
  }

  /** hashCode: the four fields equals compares, combined with 31. */
  function HashCode(e: DictionaryEntry): (r: int)
    ensures InInt32(r)
  {
    var result := ListHash(e.lemmas);
    var result := Wrap32(31 * result + ListHash(e.senses));
    var result := Wrap32(31 * result + NullableListHash(e.pronunciations));
    Wrap32(31 * result + NullableListHash(e.tags))
  }

  /** Equal entries have equal hash codes, as collections require. */
  lemma EqualsHashCode(a: DictionaryEntry, b: DictionaryEntry)
    requires Equals(a, b)
    ensures HashCode(a) == HashCode(b)
  {
  }

  /** Two entries that differ only in their frequency are equal and hash alike. */
  lemma FrequencyIgnoredByEquals(a: DictionaryEntry, f: Option<int>)
    ensures Equals(a, a.(frequency := f)) && HashCode(a) == HashCode(a.(frequency := f))
  {
  }

  // ---------------------------------------------------------------- sense cleanup

  /** DEFAULT_CLEANUP_RE: example sentences of Japanese dictionaries. */
  const DEFAULT_CLEANUP_RE: seq<string> := ["【例】.*", "\\(用例\\).*"]

  /**
   * One sense after cleanup: every default expression, then the configured one if any, each
   * removed with replaceAll(re, ""). The regular-expression engine is the function removeMatches.
   */
  function CleanSense(s: string, dictionaryCleanupRegexp: Option<string>, removeMatches: (string, string) -> string): string {
    var s := removeMatches(removeMatches(s, DEFAULT_CLEANUP_RE[0]), DEFAULT_CLEANUP_RE[1]);
    if dictionaryCleanupRegexp.Some? then removeMatches(s, dictionaryCleanupRegexp.value) else s
  }

  /** cleanupSenses: as many senses as given, in the same order, each cleaned on its own. */
  function CleanupSenses(senses: seq<string>, dictionaryCleanupRegexp: Option<string>,
                         removeMatches: (string, string) -> string): (r: seq<string>)
    ensures |r| == |senses|
    ensures forall i :: 0 <= i < |senses| ==> r[i] == CleanSense(senses[i], dictionaryCleanupRegexp, removeMatches)
  {
    seq(|senses|, i requires 0 <= i < |senses| => CleanSense(senses[i], dictionaryCleanupRegexp, removeMatches))
  }

  /** Cleanup commutes with concatenation of sense lists: each sense is cleaned independently. */
  lemma CleanupSensesAppend(a: seq<string>, b: seq<string>, re: Option<string>, removeMatches: (string, string) -> string)
    ensures CleanupSenses(a + b, re, removeMatches) == CleanupSenses(a, re, removeMatches) + CleanupSenses(b, re, removeMatches)
  {
  }

  // ---------------------------------------------------------------- the shared index

  /** The entry addEntry builds: the senses are cleaned before the constructor runs. */
  function EntryToAdd(lemmas: Option<seq<string>>, senses: Option<seq<string>>, pronunciations: Option<seq<string>>,
                      tags: Option<seq<string>>, dictionaryCleanupRegexp: Option<string>,
                      removeMatches: (string, string) -> string): Result<DictionaryEntry, Error> {
    if senses.None? then Failure(NullPointer)
    else NewDictionaryEntry(lemmas, Some(CleanupSenses(senses.value, dictionaryCleanupRegexp, removeMatches)), pronunciations, tags)
  }

  /** entriesByLemma, the one index shared by every Dictionary. */
  class EntriesByLemma {
    var index: Index<DictionaryEntry>

    constructor()
      ensures index == map[]
    {
      index := map[];
    }

    /** search: the list indexed under w, or the empty list on a miss. */
    function Search(w: string): (r: seq<DictionaryEntry>)
      reads this
      ensures w in index ==> r == index[w]
      ensures w !in index ==> r == []
    {
      LemmaIndex.Search(index, w)
    }

    /**
     * addEntry: clean the senses, build the entry and append that same entry under each of its
     * lemmas, creating a lemma's list on first use. An exception leaves the index as it was.
     */
    method AddEntry(lemmas: Option<seq<string>>, senses: Option<seq<string>>, pronunciations: Option<seq<string>>,
                    tags: Option<seq<string>>, dictionaryCleanupRegexp: Option<string>,
                    removeMatches: (string, string) -> string) returns (r: Result<(), Error>)
      modifies this
      ensures var e := EntryToAdd(lemmas, senses, pronunciations, tags, dictionaryCleanupRegexp, removeMatches);
              (r.Success? <==> e.Success?)
              && (r.Failure? ==> r.error == e.error && index == old(index))
              && (r.Success? ==> index == AppendUnder(old(index), lemmas.value, e.value))
    {
      var e := EntryToAdd(lemmas, senses, pronunciations, tags, dictionaryCleanupRegexp, removeMatches);
      if e.Failure? {
        return Failure(e.error);
      }
      AppendUnderLemmas(e.value);
      return Success(());
    }

    /** The indexing loop of addEntry, on its own. */
    method AppendUnderLemmas(dictEntry: DictionaryEntry)
      modifies this
      ensures index == AppendUnder(old(index), dictEntry.lemmas, dictEntry)
    {
      var ls := dictEntry.lemmas;
      var i := 0;
      while i < |ls|
        invariant 0 <= i <= |ls|
        invariant index == AppendUnder(old(index), ls[..i], dictEntry)
      {
        var l := ls[i];
        ghost var prev := index;
        AppendUnderSnoc(old(index), ls, i, dictEntry);
        if l !in index {
          index := index[l := []];
        }
        index := index[l := index[l] + [dictEntry]];
        assert index == AppendOne(prev, l, dictEntry);
        i := i + 1;
      }
      assert ls[..i] == ls;
    }
  }

  /**
   * After a successful addEntry, a key that is not a lemma of the entry keeps its list, and with
   * distinct lemmas each lemma's list is its old list with the new entry last.
   */
  lemma AddEntryIndexes(before: Index<DictionaryEntry>, lemmas: seq<string>, e: DictionaryEntry, w: string)
    requires forall i, j :: 0 <= i < j < |lemmas| ==> lemmas[i] != lemmas[j]
    ensures w !in lemmas ==> LemmaIndex.Search(AppendUnder(before, lemmas, e), w) == LemmaIndex.Search(before, w)
    ensures w in lemmas ==> LemmaIndex.Search(AppendUnder(before, lemmas, e), w) == LemmaIndex.Search(before, w) + [e]
  {
    if w in lemmas {
      AppendUnderDistinct(before, lemmas, e, w);
    } else {
      AppendUnderOthers(before, lemmas, e, w);
    }
  }
}
