/**
 * jijimaku.services.dictionary.DictionaryLingoesLd2: a dictionary read from a Lingoes LD2 file.
 * Every definition of the extracted map becomes one entry with one lemma (the key without a
 * leading and a trailing comma) and one sense (the value, or the value of the key it names,
 * without example sentences), appended to the shared index. The source language comes from the
 * configuration, else from the file name, else from the five longest keys.
 */
module DictionaryLingoesLd2 {
  import opened Wrappers
  import opened JavaLang
  import opened Languages
  import LanguageService
  import opened LemmaIndex
  import opened Dictionaries

  // ---------------------------------------------------------------- regular-expression details

  /**
   * A line terminator of java.util.regex without UNIX_LINES: `.` does not match it, and `$`
   * also matches just before a final one.
   */
  predicate IsLineTerminator(c: char) {
    c == '\n' || c == '\r' || c == '\U{85}' || c == '\U{2028}' || c == '\U{2029}'
  }

  // ---------------------------------------------------------------- lemma cleanup

  /**
   * Where the alternative `,$` matches: the last character when it is a comma, else a comma
   * just before a final "\r\n" or a final single line terminator; -1 when there is none.
   */
  function TrailingComma(s: string): (r: int)
    ensures -1 <= r < |s|
    ensures r >= 0 ==> s[r] == ','
    ensures |s| > 0 && s[|s| - 1] == ',' ==> r == |s| - 1
  {
    var n := |s|;
    if n >= 1 && s[n - 1] == ',' then n - 1
    else if n >= 3 && s[n - 3] == ',' && s[n - 2] == '\r' && s[n - 1] == '\n' then n - 3
    else if n >= 2 && s[n - 2] == ',' && IsLineTerminator(s[n - 1]) then n - 2
    else -1
  }

  /**
   * lemma.replaceAll("^,|,$", ""): a leading comma goes, then a trailing one that the leading
   * match did not already take.
   */
  function StripCommas(s: string): string
  {
    var start := if |s| > 0 && s[0] == ',' then 1 else 0;
    var t := TrailingComma(s);
    if t >= start then s[start..t] + s[t + 1..] else s[start..]
  }

  /** Exactly one comma goes at each end, whatever lies between. */
  lemma StripCommasWrapped(x: string)
    ensures StripCommas("," + x + ",") == x
  {
    var s := "," + x + ",";
    assert s[0] == ',' && s[|s| - 1] == ',';
    assert s[1..|s| - 1] == x;
  }

  /** A lemma that neither starts nor ends with a comma, and has no line terminator, is kept as it is. */
  lemma StripCommasUntouched(s: string)
    requires |s| > 0 ==> s[0] != ',' && s[|s| - 1] != ','
    requires forall i :: 0 <= i < |s| ==> !IsLineTerminator(s[i])
    ensures StripCommas(s) == s
  {
    if |s| >= 2 {
      assert !IsLineTerminator(s[|s| - 1]);
    }
    if |s| >= 3 {
      assert s[|s| - 1] != '\n';
    }
  }

  /** The result lacks at most one character at each end of the lemma, and each of them is a comma. */
  lemma StripCommasDropsCommas(s: string) returns (start: nat, t: int)
    ensures start <= 1 && (start == 1 ==> |s| > 0 && s[0] == ',')
    ensures t < start ==> StripCommas(s) == s[start..]
    ensures t >= start ==> t < |s| && s[t] == ',' && StripCommas(s) == s[start..t] + s[t + 1..]
  {
    start := if |s| > 0 && s[0] == ',' then 1 else 0;
    t := TrailingComma(s);
  }

  // ---------------------------------------------------------------- example removal

  const EXAMPLE_MARK: string := "【例】"

  /** What `.*` leaves of t: t from its first line terminator on, empty when it has none. */
  function FromLineEnd(t: string): (r: string)
    ensures |r| <= |t|
    ensures |r| > 0 ==> IsLineTerminator(r[0])
  {
    if |t| == 0 || IsLineTerminator(t[0]) then t else FromLineEnd(t[1..])
  }

  /** `.*` takes exactly the characters before the first line terminator: the rest is a suffix of t. */
  lemma {:induction false} FromLineEndRestOfLine(t: string)
    ensures var r := FromLineEnd(t);
      && r == t[|t| - |r|..]
      && forall i :: 0 <= i < |t| - |r| ==> !IsLineTerminator(t[i])
  {
    if |t| > 0 && !IsLineTerminator(t[0]) {
      FromLineEndRestOfLine(t[1..]);
      var r := FromLineEnd(t);
      assert t[1..][|t| - 1 - |r|..] == t[|t| - |r|..];
      forall i | 1 <= i < |t| - |r|
        ensures !IsLineTerminator(t[i])
      {
        assert t[i] == t[1..][i - 1];
      }
    }
  }

  /**
   * value.replaceAll("【例】.*", ""): scanning left to right, each example marker is removed
   * with the rest of its line; the line terminator and what follows it are scanned on.
   */
  function RemoveExamples(s: string): string
    decreases |s|
  {
    if |s| == 0 then ""
    else if IsPrefix(EXAMPLE_MARK, s) then RemoveExamples(FromLineEnd(s[|EXAMPLE_MARK|..]))
    else [s[0]] + RemoveExamples(s[1..])
  }

  /** A first character other than the marker's own is kept and the scan goes on after it. */
  lemma KeepFirst(c: char, rest: string)
    requires c != EXAMPLE_MARK[0]
    ensures RemoveExamples([c] + rest) == [c] + RemoveExamples(rest)
  {
    var s := [c] + rest;
    assert s[1..] == rest;
  }

  /** One character other than '【' before text whose first marker is removed. */
  lemma MarkLater(c: char, more: string, y: string, cleaned: string)
    requires c != EXAMPLE_MARK[0]
    requires RemoveExamples(more + EXAMPLE_MARK + y) == more + cleaned
    ensures RemoveExamples([c] + more + EXAMPLE_MARK + y) == [c] + more + cleaned
  {
    var after := more + EXAMPLE_MARK + y;
    assert [c] + more + EXAMPLE_MARK + y == [c] + after;
    KeepFirst(c, after);
  }

  /** Text up to the first marker is kept, the marker and the rest of its line are removed. */
  lemma {:induction false} RemoveExamplesAtMark(x: string, y: string)
    requires forall i :: 0 <= i < |x| ==> x[i] != '【'
    ensures RemoveExamples(x + EXAMPLE_MARK + y) == x + RemoveExamples(FromLineEnd(y))
    decreases |x|
  {
    if |x| == 0 {
      var s := x + EXAMPLE_MARK + y;
      assert s == EXAMPLE_MARK + y;
      assert IsPrefix(EXAMPLE_MARK, s);
      assert s[|EXAMPLE_MARK|..] == y;
    } else {
      RemoveExamplesAtMark(x[1..], y);
      assert x == [x[0]] + x[1..];
      MarkLater(x[0], x[1..], y, RemoveExamples(FromLineEnd(y)));
    }
  }

  /** A value without any '【' is left as it is. */
  lemma {:induction false} RemoveExamplesNoMark(s: string)
    requires forall i :: 0 <= i < |s| ==> s[i] != '【'
    ensures RemoveExamples(s) == s
    decreases |s|
  {
    if |s| > 0 {
      assert s[0] != EXAMPLE_MARK[0];
      RemoveExamplesNoMark(s[1..]);
      assert [s[0]] + s[1..] == s;
    }
  }

  /** What follows a removed example starts with a line terminator, so it cannot start another marker. */
  lemma MarkedHead(s: string)
    requires IsPrefix(EXAMPLE_MARK, s)
    ensures var r := RemoveExamples(s); |r| > 0 ==> IsLineTerminator(r[0])
  {
    var f := FromLineEnd(s[|EXAMPLE_MARK|..]);
    if |f| > 0 {
      assert f[0] != EXAMPLE_MARK[0];
      assert RemoveExamples(f) == [f[0]] + RemoveExamples(f[1..]);
    }
  }

  /** A string starts with the marker exactly when its first three characters are the marker's. */
  lemma MarkChars(s: string)
    ensures IsPrefix(EXAMPLE_MARK, s) <==>
      |s| >= 3 && s[0] == EXAMPLE_MARK[0] && s[1] == EXAMPLE_MARK[1] && s[2] == EXAMPLE_MARK[2]
  {
    if |s| >= 3 {
      assert s[..3] == [s[0], s[1], s[2]];
    }
  }

  /** A value that does not start with a marker does not yield one at its start either. */
  lemma NoMarkAtStart(s: string)
    requires |s| > 0 && !IsPrefix(EXAMPLE_MARK, s)
    ensures !OccursAt(RemoveExamples(s), EXAMPLE_MARK, 0)
  {
    var r := RemoveExamples(s);
    var t1 := s[1..];
    var tail := RemoveExamples(t1);
    assert r == [s[0]] + tail;
    MarkChars(s);
    if s[0] == EXAMPLE_MARK[0] && |tail| >= 2 {
      assert r[1] == tail[0] && r[2] == tail[1];
      if IsPrefix(EXAMPLE_MARK, t1) {
        MarkedHead(t1);
        assert r[1] != EXAMPLE_MARK[1];
      } else {
        var t2 := t1[1..];
        var tail2 := RemoveExamples(t2);
        assert tail == [t1[0]] + tail2;
        if t1[0] == EXAMPLE_MARK[1] {
          assert |t2| > 0;
          if IsPrefix(EXAMPLE_MARK, t2) {
            MarkedHead(t2);
          } else {
            assert tail2 == [t2[0]] + RemoveExamples(t2[1..]);
            assert t2[0] == s[2];
          }
          assert r[2] != EXAMPLE_MARK[2];
        } else {
          assert r[1] != EXAMPLE_MARK[1];
        }
      }
    }
  }

  /** No example marker is left in a cleaned value. */
  lemma {:induction false} RemoveExamplesLeavesNoMark(s: string)
    ensures !Contains(RemoveExamples(s), EXAMPLE_MARK)
    decreases |s|
  {
    var r := RemoveExamples(s);
    if |s| > 0 {
      if IsPrefix(EXAMPLE_MARK, s) {
        RemoveExamplesLeavesNoMark(FromLineEnd(s[|EXAMPLE_MARK|..]));
      } else {
        var tail := RemoveExamples(s[1..]);
        RemoveExamplesLeavesNoMark(s[1..]);
        assert r == [s[0]] + tail;
        NoMarkAtStart(s);
        forall j | 1 <= j <= |r|
          ensures !OccursAt(r, EXAMPLE_MARK, j)
        {
          if j + 3 <= |r| {
            assert r[j..j + 3] == tail[j - 1..j + 2];
            assert !OccursAt(tail, EXAMPLE_MARK, j - 1);
          }
        }
      }
    }
  }

  // ---------------------------------------------------------------- one definition

  /** new DictionaryEntry([headword], [value], null, null): one lemma, one sense, no pronunciation, no tags. */
  function LingoesEntry(headword: string, value: string): DictionaryEntry {
    DictionaryEntry([headword], [value], None, None, None)
  }

  /** The entry is the one the DictionaryEntry constructor builds: without tags it has no frequency. */
  lemma LingoesEntryConstructed(headword: string, value: string)
    ensures NewDictionaryEntry(Some([headword]), Some([value]), None, None) == Success(LingoesEntry(headword, value))
    ensures Built(LingoesEntry(headword, value))
  {
  }

  /** The sense of a definition: its value, replaced by the value of the key it names (once), then cleaned. */
  function Sense(definitions: map<string, string>, value: string): string {
    RemoveExamples(if value in definitions then definitions[value] else value)
  }

  /** A reference is followed one level only: a value naming a key that names a key stops at the first. */
  lemma SenseOneLevel(definitions: map<string, string>, value: string)
    requires value in definitions && definitions[value] in definitions
    ensures Sense(definitions, value) == RemoveExamples(definitions[value])
  {
  }

  /** A lemma that keeps a comma or a semicolon after the cleanup is skipped. */
  predicate Kept(headword: string) {
    !Contains(headword, ",") && !Contains(headword, ";")
  }

  /** What one turn of the constructor's loop does to the index with the definition of key. */
  function AddDefinition(m: Index<DictionaryEntry>, definitions: map<string, string>, key: string): Index<DictionaryEntry>
    requires key in definitions
  {
    var headword := StripCommas(key);
    if Kept(headword) then AppendOne(m, headword, LingoesEntry(headword, Sense(definitions, definitions[key])))
    else m
  }

  /** The loop over the keys in iteration order. */
  function AddDefinitions(m: Index<DictionaryEntry>, definitions: map<string, string>, keys: seq<string>): Index<DictionaryEntry>
    requires forall k :: k in keys ==> k in definitions
  {
    if |keys| == 0 then m
    else AddDefinition(AddDefinitions(m, definitions, keys[..|keys| - 1]), definitions, keys[|keys| - 1])
  }

  /** The entries the keys contribute under w, in iteration order: one per kept key whose lemma is w. */
  function EntriesFor(definitions: map<string, string>, keys: seq<string>, w: string): seq<DictionaryEntry>
    requires forall k :: k in keys ==> k in definitions
  {
    if |keys| == 0 then []
    else
      EntriesFor(definitions, keys[..|keys| - 1], w) + Contribution(definitions, keys[|keys| - 1], w)
  }

  /** The entry the definition of key puts under w, if any. */
  function Contribution(definitions: map<string, string>, key: string, w: string): seq<DictionaryEntry>
    requires key in definitions
  {
    if StripCommas(key) == w && Kept(w) then [LingoesEntry(w, Sense(definitions, definitions[key]))] else []
  }

  /** One definition appends its contribution under w and nothing else. */
  lemma AddDefinitionSearch(m: Index<DictionaryEntry>, definitions: map<string, string>, key: string, w: string)
    requires key in definitions
    ensures Search(AddDefinition(m, definitions, key), w) == Search(m, w) + Contribution(definitions, key, w)
  {
  }

  /**
   * After the loop, the list under w is the list it had before followed by one entry for each
   * kept key whose lemma is w, in iteration order; every other key keeps its list.
   */
  lemma {:induction false} AddDefinitionsSearch(m: Index<DictionaryEntry>, definitions: map<string, string>, keys: seq<string>, w: string)
    requires forall k :: k in keys ==> k in definitions
    ensures Search(AddDefinitions(m, definitions, keys), w) == Search(m, w) + EntriesFor(definitions, keys, w)
  {
    if |keys| > 0 {
      var init, key := keys[..|keys| - 1], keys[|keys| - 1];
      var before := AddDefinitions(m, definitions, init);
      AddDefinitionsSearch(m, definitions, init, w);
      AddDefinitionSearch(before, definitions, key, w);
      var earlier, added := EntriesFor(definitions, init, w), Contribution(definitions, key, w);
      assert Search(m, w) + earlier + added == Search(m, w) + (earlier + added);
    }
  }

  /** Every entry of a lemma has that lemma alone, one sense, and neither pronunciations nor tags. */
  lemma {:induction false} EntriesForShape(definitions: map<string, string>, keys: seq<string>, w: string)
    requires forall k :: k in keys ==> k in definitions
    ensures forall e :: e in EntriesFor(definitions, keys, w) ==>
      e.lemmas == [w] && |e.senses| == 1 && e.pronunciations.None? && e.tags.None? && Built(e)
    ensures !Kept(w) ==> EntriesFor(definitions, keys, w) == []
  {
    if |keys| > 0 {
      EntriesForShape(definitions, keys[..|keys| - 1], w);
    }
  }

  /** A definition whose value is itself a key contributes the sense of that key's value. */
  lemma {:induction false} EntriesForReference(definitions: map<string, string>, keys: seq<string>, i: nat)
    requires forall k :: k in keys ==> k in definitions
    requires i < |keys| && Kept(StripCommas(keys[i])) && definitions[keys[i]] in definitions
    ensures LingoesEntry(StripCommas(keys[i]), RemoveExamples(definitions[definitions[keys[i]]]))
              in EntriesFor(definitions, keys, StripCommas(keys[i]))
    decreases |keys|
  {
    if i < |keys| - 1 {
      EntriesForReference(definitions, keys[..|keys| - 1], i);
    }
  }

  // ---------------------------------------------------------------- language detection

  /** The language the configuration names, when it is set and not empty. */
  function Configured(dictLanguageConfig: Option<string>): Option<Language> {
    if dictLanguageConfig.Some? && |dictLanguageConfig.value| > 0 then LanguageService.GetLanguageFromStr(dictLanguageConfig.value)
    else None
  }

  /** The language whose name occurs first in the file name, the earlier-declared one on a tie. */
  predicate EarliestNamed(dictFileName: string, l: Language) {
    && LanguageService.NameIndex(dictFileName, l) >= 0
    && forall l' :: LanguageService.NameIndex(dictFileName, l') >= 0 ==>
         LanguageService.NameIndex(dictFileName, l) < LanguageService.NameIndex(dictFileName, l')
         || (LanguageService.NameIndex(dictFileName, l) == LanguageService.NameIndex(dictFileName, l')
             && Ordinal(l) <= Ordinal(l'))
  }

  /** detectFromList applied to the samples. */
  function ListLanguage(samples: seq<string>, classify: string -> string, order: seq<string>): Option<Language> {
    var q := LanguageService.FirstQualifying(order, LanguageService.Classify(samples, classify));
    if q.Some? then LanguageService.GetLanguageFromStr(q.value) else None
  }

  /** Stable insertion of k among keys ordered by decreasing UTF-16 length: after the keys as long as it. */
  function InsertByLength(k: string, sorted: seq<string>): (r: seq<string>)
    ensures |r| == |sorted| + 1
    ensures multiset(r) == multiset(sorted) + multiset{k}
  {
    if |sorted| == 0 then [k]
    else if Utf16Length(k) > Utf16Length(sorted[0]) then [k] + sorted
    else
      assert sorted == [sorted[0]] + sorted[1..];
      [sorted[0]] + InsertByLength(k, sorted[1..])
  }

  predicate LongestFirst(s: seq<string>) {
    forall i, j :: 0 <= i < j < |s| ==> Utf16Length(s[i]) >= Utf16Length(s[j])
  }

  /** Inserting a key no longer than a bound among keys no longer than it keeps every key within it. */
  lemma {:induction false} InsertByLengthBounded(k: string, sorted: seq<string>, bound: nat)
    requires Utf16Length(k) <= bound
    requires forall x :: x in sorted ==> Utf16Length(x) <= bound
    ensures forall x :: x in InsertByLength(k, sorted) ==> Utf16Length(x) <= bound
    decreases |sorted|
  {
    var r := InsertByLength(k, sorted);
    if |sorted| > 0 && Utf16Length(k) <= Utf16Length(sorted[0]) {
      var rest := InsertByLength(k, sorted[1..]);
      InsertByLengthBounded(k, sorted[1..], bound);
      assert r == [sorted[0]] + rest;
      forall i | 0 < i < |r|
        ensures Utf16Length(r[i]) <= bound
      {
        assert r[i] == rest[i - 1];
      }
    } else if |sorted| > 0 {
      assert r == [k] + sorted;
      forall i | 0 < i < |r|
        ensures Utf16Length(r[i]) <= bound
      {
        assert r[i] == sorted[i - 1];
      }
    }
  }

  /** A key no shorter than every key of a list ordered longest first can go before it. */
  lemma ConsLongestFirst(head: string, rest: seq<string>)
    requires LongestFirst(rest)
    requires forall x :: x in rest ==> Utf16Length(x) <= Utf16Length(head)
    ensures LongestFirst([head] + rest)
  {
    var r := [head] + rest;
    forall i, j | 0 <= i < j < |r|
      ensures Utf16Length(r[i]) >= Utf16Length(r[j])
    {
      assert r[j] == rest[j - 1];
      if i > 0 {
        assert r[i] == rest[i - 1];
      } else {
        assert rest[j - 1] in rest;
      }
    }
  }

  lemma {:induction false} InsertByLengthSorted(k: string, sorted: seq<string>)
    requires LongestFirst(sorted)
    ensures LongestFirst(InsertByLength(k, sorted))
    decreases |sorted|
  {
    if |sorted| > 0 && Utf16Length(k) <= Utf16Length(sorted[0]) {
      var head, tail := sorted[0], sorted[1..];
      var rest := InsertByLength(k, tail);
      InsertByLengthSorted(k, tail);
      forall x | x in tail
        ensures Utf16Length(x) <= Utf16Length(head)
      {
        var i :| 0 <= i < |tail| && tail[i] == x;
        assert x == sorted[i + 1];
      }
      InsertByLengthBounded(k, tail, Utf16Length(head));
      ConsLongestFirst(head, rest);
    }
  }

  /** The keys in iteration order, stably sorted by decreasing UTF-16 length. */
  function SortByLength(keys: seq<string>): (r: seq<string>)
    ensures multiset(r) == multiset(keys)
  {
    if |keys| == 0 then []
    else
      assert keys == keys[..|keys| - 1] + [keys[|keys| - 1]];
      InsertByLength(keys[|keys| - 1], SortByLength(keys[..|keys| - 1]))
  }

  lemma {:induction false} SortByLengthSorted(keys: seq<string>)
    ensures LongestFirst(SortByLength(keys))
  {
    if |keys| > 0 {
      SortByLengthSorted(keys[..|keys| - 1]);
      InsertByLengthSorted(keys[|keys| - 1], SortByLength(keys[..|keys| - 1]));
    }
  }

  /** sorted by decreasing length, then limit(5). */
  function LongestKeys(keys: seq<string>): (r: seq<string>)
    ensures |r| == if |keys| < 5 then |keys| else 5
  {
    var sorted := SortByLength(keys);
    assert |sorted| == |multiset(sorted)| == |keys|;
    sorted[..if |sorted| < 5 then |sorted| else 5]
  }

  /**
   * The samples are keys, longest first, and no key left out is longer than one that was taken.
   */
  lemma LongestKeysAreLongest(keys: seq<string>)
    ensures var r := LongestKeys(keys);
      && (forall x :: x in r ==> x in keys)
      && LongestFirst(r)
      && (forall k, x :: k in keys && k !in r && x in r ==> Utf16Length(k) <= Utf16Length(x))
  {
    var sorted := SortByLength(keys);
    var r := LongestKeys(keys);
    SortByLengthSorted(keys);
    assert |sorted| == |multiset(sorted)| == |keys|;
    assert r == sorted[..|r|];
    forall x | x in r
      ensures x in keys
    {
      assert x in multiset(sorted);
    }
    forall k, x | k in keys && k !in r && x in r
      ensures Utf16Length(k) <= Utf16Length(x)
    {
      assert k in multiset(keys);
      assert k in sorted;
      var p :| 0 <= p < |sorted| && sorted[p] == k;
      var q :| 0 <= q < |r| && r[q] == x;
      if p < |r| {
        assert false;
      }
    }
  }

  /**
   * What detectLanguage returns: the configured language if the configuration names one; else
   * the language named earliest in the file name if there is one; else detectFromList on the
   * five longest keys.
   */
  predicate DetectedAs(dictLanguageConfig: Option<string>, dictFileName: string, keys: seq<string>,
                       classify: string -> string, order: seq<string>, detected: Option<Language>) {
    if Configured(dictLanguageConfig).Some? then detected == Configured(dictLanguageConfig)
    else if exists l :: LanguageService.NameIndex(dictFileName, l) >= 0 then detected.Some? && EarliestNamed(dictFileName, detected.value)
    else detected == ListLanguage(LongestKeys(keys), classify, order)
  }

  /** Detection fails exactly when all three sources fail. */
  lemma DetectedNone(dictLanguageConfig: Option<string>, dictFileName: string, keys: seq<string>,
                     classify: string -> string, order: seq<string>)
    ensures DetectedAs(dictLanguageConfig, dictFileName, keys, classify, order, None) <==>
      && Configured(dictLanguageConfig).None?
      && (forall l :: LanguageService.NameIndex(dictFileName, l) < 0)
      && ListLanguage(LongestKeys(keys), classify, order).None?
  {
  }

  /** detectLanguage. */
  method DetectLanguage(dictLanguageConfig: Option<string>, dictFileName: string, keys: seq<string>,
                        classify: string -> string, order: seq<string>) returns (detected: Option<Language>)
    ensures DetectedAs(dictLanguageConfig, dictFileName, keys, classify, order, detected)
  {
    detected := None;
    if dictLanguageConfig.Some? && |dictLanguageConfig.value| > 0 {
      detected := LanguageService.GetLanguageFromStr(dictLanguageConfig.value);
    }
    if detected.None? {
      detected := LanguageService.DetectFromFilename(dictFileName);
    }
    if detected.None? {
      var longestWords := LongestKeys(keys);
      detected := LanguageService.DetectFromList(longestWords, classify, order);
    }
  }

  // ---------------------------------------------------------------- the dictionary

  /** An LD2 dictionary: its title (the file name) and source language; its entries live in the shared index. */
  class DictionaryLingoesLd2 {
    const title: string
    const languageFrom: Language
    const entriesByLemma: EntriesByLemma

    constructor(title: string, languageFrom: Language, entriesByLemma: EntriesByLemma)
      ensures this.title == title && this.languageFrom == languageFrom && this.entriesByLemma == entriesByLemma
    {
      this.title := title;
      this.languageFrom := languageFrom;
      this.entriesByLemma := entriesByLemma;
    }
  }

  /** One turn of the constructor's loop, on the shared index. */
  method AddDefinitionTo(store: EntriesByLemma, definitions: map<string, string>, key: string)
    requires key in definitions
    modifies store
    ensures store.index == AddDefinition(old(store.index), definitions, key)
  {
    var headword := StripCommas(key);
    if Contains(headword, ",") || Contains(headword, ";") {
      return;
    }
    if headword !in store.index {
      store.index := store.index[headword := []];
    }
    var value := definitions[key];
    if value in definitions {
      value := definitions[value];
    }
    value := RemoveExamples(value);
    var dictEntry := LingoesEntry(headword, value);
    store.index := store.index[headword := store.index[headword] + [dictEntry]];
  }

  /**
   * The constructor. extracted is what extractLd2ToMap gave, keys its key set in iteration order (each key once);
   * classify and order stand for the language classifier of detectFromList. A failed extraction
   * is an UnexpectedCriticalError before anything is indexed; an undetected language is one after
   * the definitions were indexed.
   */
  method Load(store: EntriesByLemma, dictFileName: string, extracted: Result<map<string, string>, Error>, keys: seq<string>,
              dictLanguageConfig: Option<string>, classify: string -> string, order: seq<string>)
    returns (r: Result<DictionaryLingoesLd2, Error>)
    requires extracted.Success? ==> forall k :: k in keys <==> k in extracted.value
    requires forall i, j :: 0 <= i < j < |keys| ==> keys[i] != keys[j]
    modifies store
    ensures extracted.Failure? ==> r == Failure(UnexpectedCriticalError) && store.index == old(store.index)
    ensures extracted.Success? ==> store.index == AddDefinitions(old(store.index), extracted.value, keys)
    ensures r.Failure? ==> r.error == UnexpectedCriticalError
    ensures extracted.Success? && r.Failure? ==> DetectedAs(dictLanguageConfig, dictFileName, keys, classify, order, None)
    ensures r.Success? ==> && fresh(r.value) && r.value.title == dictFileName && r.value.entriesByLemma == store
                           && DetectedAs(dictLanguageConfig, dictFileName, keys, classify, order, Some(r.value.languageFrom))
  {
    if extracted.Failure? {
      return Failure(UnexpectedCriticalError);
    }
    var definitions := extracted.value;
    var i := 0;
    while i < |keys|
      invariant 0 <= i <= |keys|
      invariant store.index == AddDefinitions(old(store.index), definitions, keys[..i])
    {
      assert keys[..i + 1][..i] == keys[..i];
      AddDefinitionTo(store, definitions, keys[i]);
      i := i + 1;
    }
    assert keys[..i] == keys;
    var languageFrom := DetectLanguage(dictLanguageConfig, dictFileName, keys, classify, order);
    if languageFrom.None? {
      return Failure(UnexpectedCriticalError);
    }
    var dict := new DictionaryLingoesLd2(dictFileName, languageFrom.value, store);
    return Success(dict);
  }
}
