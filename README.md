# jijimaku, modelled in Dafny

jijimaku annotates the subtitles of a foreign-language video. For each caption it:

- splits the caption into part-of-speech-tagged tokens;
- covers the tokens greedily with the longest runs the dictionary knows;
- keeps the matches the user wants annotated;
- highlights each defined word in the caption with a colour from a rotating palette;
- writes the dictionary definitions into an extra caption shown at the same time.

This project models the deterministic core of that program and proves what it promises.

The repository holds several historical snapshots side by side, in the packages `jijimaku.services.*`, `jijimaku.*` and the root packages. They do not compile against one another, so each snapshot is modelled against its own package's types. Where a class calls a collaborator that is not shown, or one that is a foreign library, the collaborator is a function parameter. This covers:

- the dictionary's lemma lookup, the tags of a match and the ignored tags;
- the kuromoji feature arrays;
- the regex search of a caption;
- the LD2 definition decoder;
- the language classifier;
- the XML and YAML parsers, whose output is the input of the model.

## Layout

One module per source file or component:

| file | module | source |
|---|---|---|
| `common.dfy` | `Wrappers`, `JavaLang` | `Option`/`Result` for Java's null and exceptions; the `java.lang` behaviour the code relies on: 32-bit wrap-around, `indexOf`, `replace`, `trim`, `split`, `toLowerCase` (ASCII), `String.length()` in UTF-16 units, `Integer.parseInt` |
| `yaml.dfy` | `Yaml` | loaded YAML values and the casts the loaders apply to them |
| `languages.dfy` | `Languages` | the 50 languages of the two `Language` enums, their constant names, ordinals and `valueOf` |
| `lang_parser.dfy` | `LangParser` | `services/langparser/LangParser.java`: `PosTag`, `TextToken`, `getWordSeparator`, `getLanguageFromStr` |
| `lang_parser_kuromoji.dfy` | `LangParserKuromoji` | `getTokenPosTag` and `syntaxicParse` |
| `japanese_parsers.dfy` | `ServicesJapaneseParser`, `LegacyJapaneseParser`, `RootJapaneseParser` | the three older `JapaneseParser` snapshots |
| `lang_rules_japanese.dfy` | `LangRulesJapanese` | `filterTokens`, `isValidMatch`, `isIgnoredMatch` |
| `lemma_index.dfy`, `dictionary.dfy` | `LemmaIndex`, `Dictionaries` | `Dictionary.search`/`addEntry` over the shared `entriesByLemma` index; `DictionaryEntry` |
| `jiji_dictionary.dfy` | `JijiDictionary` | `services/jijidictionary/JijiDictionary.java` |
| `dictionary_jiji.dfy` | `DictionaryJiji` | `services/dictionary/DictionaryJiji.java` |
| `dictionary_lingoes_ld2.dfy` | `DictionaryLingoesLd2` | `services/dictionary/DictionaryLingoesLd2.java` |
| `lingoes_ld2_extractor.dfy` | `LingoesLd2Extractor` | `cn/kk/extractor/lingoes/LingoesLd2Extractor.java` |
| `dictionary_match.dfy` | `DictionaryMatches` | `models/DictionaryMatch.java` |
| `annotation_service.dfy` | `AnnotationService` | matching, filtering and rendering in `AnnotationService.java` |
| `caption_annotation.dfy` | `CaptionAnnotation` | the per-caption loop of `annotateSubtitleFile` |
| `language_service.dfy` | `LanguageService` | `LanguageService.java` |
| `captions.dfy` | `Captions` | what the three subtitle classes share: captions, the free-key search, the merge before export, the `<br>` rewrite |
| `subtitle_file.dfy` | `Subtitles` | `jijimaku/utils/SubtitleFile.java` |
| `subtitle_service.dfy` | `SubtitleServices` | `jijimaku/services/SubtitleService.java` |
| `legacy_subtitle_file.dfy` | `LegacySubtitles` | the root `utils/SubtitleFile.java` |
| `jmdict.dfy` | `JmDict` | `jijimaku/langdictionary/JmDict.java`. The root `langdictionary/JMDict.java` is the same handler and differs only in layout, so this module models both. |
| `app_config.dfy` | `AppConfig` | `AppConfig.java` |

Classes model the objects whose fields the source updates in place. Their methods carry `modifies` clauses and state the whole new state:

- the subtitle files and the subtitle service;
- the shared lemma index and the dictionaries that fill it;
- the JMdict SAX handler;
- the LD2 `ByteBuffer`.

Code that only computes a value is modelled as functions, which are proved against lemmas. Loops of the source are methods with loop invariants, proved against those functions. Java exceptions are `Failure` values of the exception's kind. A `null` is `None`.

## Model

| member | source | states |
|---|---|---|
| AnnotationService.HasLangRulesOnlyJapanese | src/main/java/jijimaku/services/AnnotationService.java:61-72 | language rules are loaded exactly when the parser language is Japanese (the only LangRules class) |
| AnnotationService.LowerTextForms | src/main/java/jijimaku/services/AnnotationService.java:114 | one lower-cased text form per token, in order |
| AnnotationService.DictionaryMatchOf | src/main/java/jijimaku/services/AnnotationService.java:101-128 | no match iff the run is empty or all three keys (first canonical, lower-cased text, second canonical) look up nothing; otherwise the match holds the run and the entries of the first key with a non-empty lookup |
| AnnotationService.LongestMatch | src/main/java/jijimaku/services/AnnotationService.java:158-163 | the result is the longest prefix of at most n tokens with a match, and every longer prefix up to n has none; no result means no prefix up to n matches |
| AnnotationService.LongestKnownRun | src/main/java/jijimaku/services/AnnotationService.java:158-163 | the shrinking loop returns the longest known prefix of the remaining tokens |
| AnnotationService.LongestMatchStep | src/main/java/jijimaku/services/AnnotationService.java:160-162 | a prefix without a match hands the search to the prefix one token shorter |
| AnnotationService.NextMatch | src/main/java/jijimaku/services/AnnotationService.java:150-172 | one outer turn removes at least one token and emits at most the head match of the remaining tokens |
| AnnotationService.GetDictionaryMatches | src/main/java/jijimaku/services/AnnotationService.java:137-176 | the loop's result is the match sequence of the parsed tokens, merged by the language rules when they are loaded |
| AnnotationService.MatchesTiled | src/main/java/jijimaku/services/AnnotationService.java:148-174 | emitted matches are disjoint runs of the tokens in input order, each headed by a word token, valid, and the longest known run at its start; and every token outside them is one the loop skipped: a non-word, a token from which no run is known, or one whose longest run is invalid |
| AnnotationService.MatchesTokenCount | src/main/java/jijimaku/services/AnnotationService.java:148-174 | there are never more matches than tokens |
| AnnotationService.InvalidMatchDropsOneToken | src/main/java/jijimaku/services/AnnotationService.java:165-168 | a longest run rejected by isValidMatch drops exactly one token and no shorter run is tried |
| AnnotationService.MatchedLemmaIsContained | src/main/java/jijimaku/services/AnnotationService.java:78-87 | a string equal to a matched form also contains a matched form |
| AnnotationService.FilterMatches | src/main/java/jijimaku/services/AnnotationService.java:183-211 | a match is kept iff one token has an annotatable POS, the language rules do not ignore it, none of its tags is ignored and none of its three forms is an ignored word |
| AnnotationService.FilterMatchesAppend | src/main/java/jijimaku/services/AnnotationService.java:183-211 | the filter keeps order: filtering a concatenation concatenates the filtered parts |
| AnnotationService.GetFilteredMatches | src/main/java/jijimaku/services/AnnotationService.java:181-212 | the result is the filter applied to getDictionaryMatches of the caption |
| AnnotationService.LemmaTexts | src/main/java/jijimaku/services/AnnotationService.java:220-228 | the rendered lemmas are never more than the entry's lemmas |
| AnnotationService.MatchedLemmas | src/main/java/jijimaku/services/AnnotationService.java:221 | a lemma is listed iff it is one of the entry's lemmas and equals a matched form |
| AnnotationService.AllLemmasShown | src/main/java/jijimaku/services/AnnotationService.java:220-228 | with displayOtherLemma true every lemma is shown in order, the matched ones colour-wrapped |
| AnnotationService.OnlyMatchedLemmasShown | src/main/java/jijimaku/services/AnnotationService.java:220-228 | with displayOtherLemma false exactly the matched lemmas are shown, in order and colour-wrapped |
| AnnotationService.MissingDisplaySettingFails | src/main/java/jijimaku/services/AnnotationService.java:215-228 | with displayOtherLemma null, rendering succeeds iff every lemma is matched, and otherwise fails with a NullPointerException |
| AnnotationService.LevelCharCircled | src/main/java/jijimaku/services/AnnotationService.java:235 | frequencies 1 to 20 give the circled digits U+2460 to U+2473 |
| AnnotationService.LevelText | src/main/java/jijimaku/services/AnnotationService.java:233-237 | one space without frequency; otherwise the bold level glyph between two spaces |
| AnnotationService.PronunciationText | src/main/java/jijimaku/services/AnnotationService.java:239-250 | empty without pronunciations or when one occurs in the lemma string; otherwise " [p1, p2] ", colour-wrapped exactly when the lemma string contains no matched form |
| AnnotationService.DefinitionLines | src/main/java/jijimaku/services/AnnotationService.java:216-254 | on success there is one line per entry |
| AnnotationService.DefinitionLinesInOrder | src/main/java/jijimaku/services/AnnotationService.java:216-254 | rendering succeeds iff every entry's line does, and line i is the definition line of entry i |
| AnnotationService.LinesPrefixFailure | src/main/java/jijimaku/services/AnnotationService.java:217-253 | the first entry whose line fails decides the failure of the whole call |
| AnnotationService.AnnotateDictionaryMatch | src/main/java/jijimaku/services/AnnotationService.java:214-255 | the loop returns the definition lines of the match's entries |
| AnnotationService.DefinitionLineShape | src/main/java/jijimaku/services/AnnotationService.java:252 | a line exists only when every sense is a String or null; it starts with "★ " and ends with the sense texts joined by " --- " |
| AnnotationService.NonStringSenseFails | src/main/java/jijimaku/services/AnnotationService.java:231-252 | a sense that is neither a String nor null makes the line a ClassCastException at the join |
| CaptionAnnotation.RotateLeftStep | src/main/java/jijimaku/services/AnnotationService.java:296-302 | the queue after k rotations starts with palette entry k mod n, and one more Collections.rotate(colors, -1) moves that head to the end |
| CaptionAnnotation.Step | src/main/java/jijimaku/services/AnnotationService.java:295-304 | with an empty colour list the turn fails with NoSuchElementException (colors.iterator().next()) |
| CaptionAnnotation.StepConsistent | src/main/java/jijimaku/services/AnnotationService.java:295-304 | one turn keeps the caption state consistent: one distinct highlight per defined word, the i-th defined word coloured with palette entry i mod n, and the queue rotated once per definition |
| CaptionAnnotation.PlanConsistent | src/main/java/jijimaku/services/AnnotationService.java:283-305 | after all matches of a caption, defined words are pairwise distinct, coloured in palette order cyclically, and annotations are empty iff nothing was highlighted |
| CaptionAnnotation.EmptyPaletteFails | src/main/java/jijimaku/services/AnnotationService.java:283-296 | with no highlight colours configured, a caption with at least one match fails with NoSuchElementException |
| CaptionAnnotation.PlanStep | src/main/java/jijimaku/services/AnnotationService.java:295-305 | handling one more match is one more turn on the state of the prefix |
| CaptionAnnotation.PlanPrefixFailure | src/main/java/jijimaku/services/AnnotationService.java:295-305 | a failing turn ends the caption with that failure |
| CaptionAnnotation.PlanHighlightsGrow | src/main/java/jijimaku/services/AnnotationService.java:295-305 | later matches only append highlights: earlier highlights are never undone |
| CaptionAnnotation.PlanPrefixSuccess | src/main/java/jijimaku/services/AnnotationService.java:295-305 | a caption that succeeds after n+1 matches succeeded after n, and the last turn continues from there |
| CaptionAnnotation.StepHighlightsGrow | src/main/java/jijimaku/services/AnnotationService.java:298-303 | one turn keeps the existing highlights as a prefix |
| CaptionAnnotation.StepDefines | src/main/java/jijimaku/services/AnnotationService.java:297-303 | one turn keeps the defined words and adds the match's text form exactly when the match has dictionary entries |
| CaptionAnnotation.DefinesSnoc | src/main/java/jijimaku/services/AnnotationService.java:295-305 | the defined words stay exactly the text forms of matches with entries when one more match is handled |
| CaptionAnnotation.PlanDefinesEveryWord | src/main/java/jijimaku/services/AnnotationService.java:295-305 | every match with dictionary entries has its text form defined once the caption is done, and every defined word comes from such a match |
| CaptionAnnotation.PlanAnnotations | src/main/java/jijimaku/services/AnnotationService.java:283-305 | the annotations gathered are, in match order, the definition lines of the first match of each word that has entries, the t-th such word in palette colour t round-robin; those matches are exactly the highlighted words, and later matches of a defined word add nothing |
| CaptionAnnotation.ColorizeAllSnoc | src/main/java/jijimaku/services/AnnotationService.java:301 | the caption content after one more highlight is colorizeCaptionWord applied to the content after the previous ones |
| CaptionAnnotation.ColorizeAllPrefixFailure | src/main/java/jijimaku/services/AnnotationService.java:301 | a colorizeCaptionWord that fails makes the whole caption fail |
| CaptionAnnotation.AnnotateMatch | src/main/java/jijimaku/services/AnnotationService.java:295-305 | one turn of the match loop: the new state is the next plan step and the caption content is the colorization of all highlights so far; only the current caption's content changes |
| CaptionAnnotation.AnnotateCaption | src/main/java/jijimaku/services/AnnotationService.java:283-306 | the match loop of a caption succeeds exactly when MatchesOutcome does, i.e. the plan over the matches and then the colorization of the caption content with the plan's highlights; on success it returns the plan's annotations and the caption holds the highlighted content; only the current caption's content changes |
| CaptionAnnotation.ColorizedPlanFails | src/main/java/jijimaku/services/AnnotationService.java:295-305 | a failing colorization on a prefix of the matches means the caption cannot succeed |
| CaptionAnnotation.AnnotateNextCaption | src/main/java/jijimaku/services/AnnotationService.java:281-307 | one caption turn succeeds exactly when the caption's outcome does (its cleaned text matched, filtered and planned, its content highlighted); the cursor moves by one and no other caption changes; on success the caption holds its highlighted content, annotate adds the plan's lines joined by `\N` as one caption in the Definition style (null when the styles lack it) with the caption's times under the first free key after it, and the count grows exactly when there were lines |
| CaptionAnnotation.AnnotateCurrent | src/main/java/jijimaku/services/AnnotationService.java:283-306 | the loop body after nextCaption succeeds exactly when the matches' plan and the highlighting of the current caption do; the caption then holds the highlighted content and annotate adds the plan's lines as one Definition caption under the first free key after it, counting the caption exactly when there were lines |
| CaptionAnnotation.PlannedSnoc | src/main/java/jijimaku/services/AnnotationService.java:281-307 | after one more caption, no caption has annotations iff none had before and the new one has none |
| CaptionAnnotation.PlannedKeys | src/main/java/jijimaku/services/AnnotationService.java:281-309 | once every key of the order is handled, every caption of the file succeeded, and none got lines exactly when no caption of the file has any |
| CaptionAnnotation.AnnotateCaptions | src/main/java/jijimaku/services/AnnotationService.java:281-307 | the caption loop in key order succeeds exactly when every caption's outcome does; a failure is the first failing caption, all before it having succeeded; on success every caption holds its highlighted content in the Default style, the annotation captions are those already there plus one definition caption per caption with lines, added in key order, and the count is zero exactly when no caption got lines |
| CaptionAnnotation.AnnotateCaptionStep | src/main/java/jijimaku/services/AnnotationService.java:281-307 | one caption turn fails exactly when the caption it takes does, every earlier caption having succeeded; on success the loop state (captions handled and highlighted, annotation captions, count) moves one caption on |
| CaptionAnnotation.LoopStep | src/main/java/jijimaku/services/AnnotationService.java:281-307 | a handled caption moves the loop state one caption on: it joins the highlighted captions, its definition caption joins the annotation captions, and the count stays zero exactly when no handled caption got lines |
| CaptionAnnotation.AnnotateSubtitleFile | src/main/java/jijimaku/services/AnnotationService.java:276-310 | a file without captions fails with NoSuchElementException when the mark is added; otherwise it succeeds exactly when every caption's outcome does, and a failure names the first failing caption; on success the result is null exactly when no caption got definition lines, and otherwise every caption highlighted in the Default style merged with the mark and, in key order, one Definition caption per caption with lines under the first free key after it |
| DictionaryLingoesLd2.TrailingComma | src/main/java/jijimaku/services/dictionary/DictionaryLingoesLd2.java:51 | the trailing-comma alternative matches the last character exactly when it is a comma |
| DictionaryLingoesLd2.StripCommasWrapped | src/main/java/jijimaku/services/dictionary/DictionaryLingoesLd2.java:51 | exactly one comma is removed at each end, whatever the lemma holds between them |
| DictionaryLingoesLd2.StripCommasUntouched | src/main/java/jijimaku/services/dictionary/DictionaryLingoesLd2.java:51 | a lemma with no comma at either end is kept unchanged |
| DictionaryLingoesLd2.StripCommasDropsCommas | src/main/java/jijimaku/services/dictionary/DictionaryLingoesLd2.java:51 | the cleaned lemma lacks at most one character at each end, and each removed character is a comma |
| DictionaryLingoesLd2.FromLineEnd | src/main/java/jijimaku/services/dictionary/DictionaryLingoesLd2.java:29-31 | after a marker, the text kept starts at a line terminator or is empty |
| DictionaryLingoesLd2.FromLineEndRestOfLine | src/main/java/jijimaku/services/dictionary/DictionaryLingoesLd2.java:29-31 | the example pattern removes exactly the characters before the first line terminator, which is a regex dot's reach |
| DictionaryLingoesLd2.KeepFirst | src/main/java/jijimaku/services/dictionary/DictionaryLingoesLd2.java:29-31 | a first character other than '【' is kept and the scan continues after it |
| DictionaryLingoesLd2.MarkLater | src/main/java/jijimaku/services/dictionary/DictionaryLingoesLd2.java:29-31 | text before the first marker is kept |
| DictionaryLingoesLd2.RemoveExamplesAtMark | src/main/java/jijimaku/services/dictionary/DictionaryLingoesLd2.java:29-31 | text up to the first example marker is kept, and the marker and the rest of its line are removed |
| DictionaryLingoesLd2.RemoveExamplesNoMark | src/main/java/jijimaku/services/dictionary/DictionaryLingoesLd2.java:29-31 | a definition without any '【' is left unchanged |
| DictionaryLingoesLd2.MarkedHead | src/main/java/jijimaku/services/dictionary/DictionaryLingoesLd2.java:29-31 | what follows a removed example starts with a line terminator |
| DictionaryLingoesLd2.MarkChars | src/main/java/jijimaku/services/dictionary/DictionaryLingoesLd2.java:29 | a string starts with the example marker iff its first three characters are 【, 例 and 】 |
| DictionaryLingoesLd2.NoMarkAtStart | src/main/java/jijimaku/services/dictionary/DictionaryLingoesLd2.java:29-31 | a definition that does not start with a marker does not start with one once examples are removed |
| DictionaryLingoesLd2.RemoveExamplesLeavesNoMark | src/main/java/jijimaku/services/dictionary/DictionaryLingoesLd2.java:29-31 | no example marker is left anywhere in a cleaned definition |
| DictionaryLingoesLd2.LingoesEntryConstructed | src/main/java/jijimaku/services/dictionary/DictionaryLingoesLd2.java:72-74 | the entry is the one the DictionaryEntry constructor builds from one lemma and one sense, with no pronunciation, no tags and no frequency |
| DictionaryLingoesLd2.SenseOneLevel | src/main/java/jijimaku/services/dictionary/DictionaryLingoesLd2.java:61-65 | a reference is followed one level only: a value naming a key whose value names a key stops at the first |
| DictionaryLingoesLd2.AddDefinitionSearch | src/main/java/jijimaku/services/dictionary/DictionaryLingoesLd2.java:50-75 | one turn of the loop appends the key's entry under its lemma and changes nothing else |
| DictionaryLingoesLd2.AddDefinitionsSearch | src/main/java/jijimaku/services/dictionary/DictionaryLingoesLd2.java:48-76 | after the loop, the entries under a lemma are those it had before followed by one entry per kept key whose cleaned lemma it is, in iteration order |
| DictionaryLingoesLd2.EntriesForShape | src/main/java/jijimaku/services/dictionary/DictionaryLingoesLd2.java:53-75 | every added entry has the lemma alone, one sense, no pronunciations and no tags; a lemma that keeps a comma or semicolon gets no entry |
| DictionaryLingoesLd2.EntriesForReference | src/main/java/jijimaku/services/dictionary/DictionaryLingoesLd2.java:61-75 | a definition whose value is another key gets the cleaned value of that key as its sense |
| DictionaryLingoesLd2.InsertByLength | src/main/java/jijimaku/services/dictionary/DictionaryLingoesLd2.java:104-105 | sorting one more key adds exactly that key |
| DictionaryLingoesLd2.InsertByLengthBounded | src/main/java/jijimaku/services/dictionary/DictionaryLingoesLd2.java:104-105 | inserting keeps every key within a length bound that all keys meet |
| DictionaryLingoesLd2.ConsLongestFirst | src/main/java/jijimaku/services/dictionary/DictionaryLingoesLd2.java:104-105 | a key at least as long as every key of a longest-first list can go before it |
| DictionaryLingoesLd2.InsertByLengthSorted | src/main/java/jijimaku/services/dictionary/DictionaryLingoesLd2.java:104-105 | inserting keeps the keys ordered by decreasing UTF-16 length |
| DictionaryLingoesLd2.SortByLength | src/main/java/jijimaku/services/dictionary/DictionaryLingoesLd2.java:104-105 | the sort is a permutation of the keys |
| DictionaryLingoesLd2.SortByLengthSorted | src/main/java/jijimaku/services/dictionary/DictionaryLingoesLd2.java:104-105 | the sorted keys are ordered by decreasing UTF-16 length |
| DictionaryLingoesLd2.LongestKeys | src/main/java/jijimaku/services/dictionary/DictionaryLingoesLd2.java:101-106 | at most five samples, and five whenever there are at least five keys |
| DictionaryLingoesLd2.LongestKeysAreLongest | src/main/java/jijimaku/services/dictionary/DictionaryLingoesLd2.java:101-106 | the samples are keys ordered longest first, and no key left out is longer than a sample |
| DictionaryLingoesLd2.DetectedNone | src/main/java/jijimaku/services/dictionary/DictionaryLingoesLd2.java:87-111 | detection gives null iff no language is configured, the file name names none and the longest keys classify as none |
| DictionaryLingoesLd2.DetectLanguage | src/main/java/jijimaku/services/dictionary/DictionaryLingoesLd2.java:87-111 | the language the configuration names, if it names one; else the language whose name occurs earliest in the file name, else the language of the five longest keys |
| DictionaryLingoesLd2.DictionaryLingoesLd2.constructor | src/main/java/jijimaku/services/dictionary/DictionaryLingoesLd2.java:36-85 | the dictionary keeps its title, source language and index |
| DictionaryLingoesLd2.AddDefinitionTo | src/main/java/jijimaku/services/dictionary/DictionaryLingoesLd2.java:50-75 | one turn of the loop on the shared index: the index becomes what the one-turn function gives for the old index |
| DictionaryLingoesLd2.Load | src/main/java/jijimaku/services/dictionary/DictionaryLingoesLd2.java:36-85 | a failed extraction raises UnexpectedCriticalException and adds nothing; otherwise every key is indexed as AddDefinitions gives, and the dictionary is built iff detection finds a language, with the file name as title |
| Dictionaries.FrequencyTags | src/main/java/jijimaku/services/dictionary/DictionaryEntry.java:46-47 | the frequency tags are exactly the tags starting with "freq", kept in order |
| Dictionaries.FrequencyTagsAppend | src/main/java/jijimaku/services/dictionary/DictionaryEntry.java:46-47 | filtering the frequency tags keeps order: filtering a concatenation concatenates the filtered parts |
| Dictionaries.FrequencyTagsNone | src/main/java/jijimaku/services/dictionary/DictionaryEntry.java:46-47 | tags none of which starts with "freq" have no frequency tag |
| Dictionaries.FrequencyFromTags | src/main/java/jijimaku/services/dictionary/DictionaryEntry.java:42-57 | null without tags or unless exactly one tag starts with "freq"; otherwise the integer after the prefix, or a NumberFormatException when that text does not parse |
| Dictionaries.SingleFrequencyTag | src/main/java/jijimaku/services/dictionary/DictionaryEntry.java:42-57 | one "freq<n>" tag among other tags gives frequency n for every 32-bit n |
| Dictionaries.TwoFrequencyTags | src/main/java/jijimaku/services/dictionary/DictionaryEntry.java:48-54 | two frequency tags leave the frequency null and raise nothing |
| Dictionaries.NewDictionaryEntry | src/main/java/jijimaku/services/dictionary/DictionaryEntry.java:32-40 | a null lemma or sense list is a NullPointerException; otherwise the entry keeps its four lists and its frequency is the one its tags give, or construction fails with the tag parse error |
| Dictionaries.EqualsIsValueEquality | src/main/java/jijimaku/services/dictionary/DictionaryEntry.java:80-100 | on constructed entries equals is exactly value equality, since the frequency is a function of the tags |
| Dictionaries.CodeUnits | src/main/java/jijimaku/services/dictionary/DictionaryEntry.java:103-109 | a character has two UTF-16 code units above U+FFFF and one otherwise |
| Dictionaries.StringHash | src/main/java/jijimaku/services/dictionary/DictionaryEntry.java:103-109 | String.hashCode stays within 32-bit int range |
| Dictionaries.ListHash | src/main/java/jijimaku/services/dictionary/DictionaryEntry.java:103-109 | List.hashCode stays within 32-bit int range |
| Dictionaries.HashCode | src/main/java/jijimaku/services/dictionary/DictionaryEntry.java:102-109 | the entry hash stays within 32-bit int range |
| Dictionaries.EqualsHashCode | src/main/java/jijimaku/services/dictionary/DictionaryEntry.java:80-109 | entries that are equal have equal hash codes |
| Dictionaries.FrequencyIgnoredByEquals | src/main/java/jijimaku/services/dictionary/DictionaryEntry.java:80-109 | two entries that differ only in frequency are equal and hash alike |
| Dictionaries.CleanupSenses | src/main/java/jijimaku/services/dictionary/Dictionary.java:72-84 | as many senses as given, in the same order, each cleaned by the default expressions and then the configured one if any |
| Dictionaries.CleanupSensesAppend | src/main/java/jijimaku/services/dictionary/Dictionary.java:72-84 | each sense is cleaned independently: cleaning a concatenation concatenates the cleaned parts |
| Dictionaries.EntriesByLemma.constructor | src/main/java/jijimaku/services/dictionary/Dictionary.java:37 | the shared index starts empty |
| Dictionaries.EntriesByLemma.Search | src/main/java/jijimaku/services/dictionary/Dictionary.java:43-49 | the list indexed under w, or the empty list on a miss |
| Dictionaries.EntriesByLemma.AddEntry | src/main/java/jijimaku/services/dictionary/Dictionary.java:54-66 | addEntry fails iff building the entry from the cleaned senses fails, and then leaves the index unchanged; otherwise the entry is appended under each of its lemmas |
| Dictionaries.EntriesByLemma.AppendUnderLemmas | src/main/java/jijimaku/services/dictionary/Dictionary.java:60-65 | the indexing loop appends the entry under each of its lemmas, in order |
| Dictionaries.AddEntryIndexes | src/main/java/jijimaku/services/dictionary/Dictionary.java:54-66 | after addEntry with distinct lemmas, a lemma of the entry has the entry appended to its list and any other word keeps its list |
| DictionaryJiji.MapToUse | src/main/java/jijimaku/services/dictionary/DictionaryJiji.java:53 | the cast to a map: a map is used as it is, a null one fails with NullPointerException on first use and anything else with ClassCastException |
| DictionaryJiji.AboutThisDictionary | src/main/java/jijimaku/services/dictionary/DictionaryJiji.java:52-62 | succeeds only when languages.from names a language, and then yields it with the title (null when absent or not a string); a from string naming no language raises UnexpectedCriticalError; a missing block is a NullPointerException |
| DictionaryJiji.Dedup | src/main/java/jijimaku/services/dictionary/DictionaryJiji.java:102 | the tag set holds exactly the split tags, each once |
| DictionaryJiji.CommaField | src/main/java/jijimaku/services/dictionary/DictionaryJiji.java:93-103 | an optional field is null iff absent, and a present string is split on commas with surrounding blanks |
| DictionaryJiji.RawSenses | src/main/java/jijimaku/services/dictionary/DictionaryJiji.java:82-91 | "sense" wins over "senses"; with neither the word is skipped; a single sense string gives a one-element list |
| DictionaryJiji.WordEntryArgs | src/main/java/jijimaku/services/dictionary/DictionaryJiji.java:74-107 | a word without a sense is skipped; otherwise lemmas are the key split on commas, pronunciations and tags are present iff their keys are, and the tags are deduplicated |
| DictionaryJiji.SenseStrings | src/main/java/jijimaku/services/dictionary/DictionaryJiji.java:83-87 | the senses are usable iff every one is a string, and then they are those strings in order |
| DictionaryJiji.LoadWordsAppend | src/main/java/jijimaku/services/dictionary/DictionaryJiji.java:74-108 | loading keys in sequence: the second part continues from the index the first left, unless the first raised |
| DictionaryJiji.InfoKeyNotIndexed | src/main/java/jijimaku/services/dictionary/DictionaryJiji.java:75-77 | the information key is never turned into an entry, wherever it stands |
| DictionaryJiji.SingleSenseWordIndexed | src/main/java/jijimaku/services/dictionary/DictionaryJiji.java:79-107 | a word with one sense string and no tags is found last under each of its lemmas, with the cleaned sense and no frequency |
| DictionaryJiji.SingleSenseEntry | src/main/java/jijimaku/services/dictionary/DictionaryJiji.java:79-107 | a one-sense untagged word adds exactly the entry of its split key and cleaned sense under each lemma |
| DictionaryJiji.DictionaryJiji.constructor | src/main/java/jijimaku/services/dictionary/DictionaryJiji.java:48-49 | the dictionary keeps its title, source language and index |
| DictionaryJiji.LoadWord | src/main/java/jijimaku/services/dictionary/DictionaryJiji.java:74-108 | one turn of the key loop changes the index as the one-word function gives, and leaves it unchanged on an exception |
| DictionaryJiji.Load | src/main/java/jijimaku/services/dictionary/DictionaryJiji.java:65-116 | a non-map document or a bad information block fails before any indexing; otherwise the keys are indexed in document order, an exception stops the loading and is raised, and on success the dictionary has the parsed title and language |
| DictionaryMatches.TextForms | src/main/java/jijimaku/models/DictionaryMatch.java:26-28 | one text form per token, in token order |
| DictionaryMatches.FirstForms | src/main/java/jijimaku/models/DictionaryMatch.java:30-32 | one first canonical form per token, in token order |
| DictionaryMatches.SecondForms | src/main/java/jijimaku/models/DictionaryMatch.java:34-36 | one second canonical form per token, in token order |
| DictionaryMatches.Frequency | src/main/java/jijimaku/models/DictionaryMatch.java:54-60 | null iff no entry has a frequency; otherwise the frequency of some entry and no larger than any entry's frequency |
| DictionaryMatches.MinFrequency | src/main/java/jijimaku/models/DictionaryMatch.java:55-58 | the minimum over the entries that have a frequency, null when none has |
| DictionaryMatches.TextFormsSnoc | src/main/java/jijimaku/models/DictionaryMatch.java:26-28 | one more token adds its text form at the end |
| DictionaryMatches.SingleTokenForms | src/main/java/jijimaku/models/DictionaryMatch.java:26-36 | a one-token match reads as its token in all three forms, whatever the separator |
| DictionaryMatches.TextFormAppend | src/main/java/jijimaku/models/DictionaryMatch.java:26-28 | with an empty separator, the text form of a concatenated run is the concatenation of the runs' text forms |
| ServicesJapaneseParser.TypeTag | src/main/java/jijimaku/services/langparser/JapaneseParser.java:69-97 | a type has a tag iff it is one of the eight listed, 空白 and 記号 both giving PUNCTUATION |
| ServicesJapaneseParser.SyntaxicParse | src/main/java/jijimaku/services/langparser/JapaneseParser.java:48-114 | one token per kuromoji token, in order, each as the per-token function gives; a token with fewer than two features raises ArrayIndexOutOfBoundsException |
| ServicesJapaneseParser.NumeralBeforeType | src/main/java/jijimaku/services/langparser/JapaneseParser.java:61-64 | the subtype 数詞 gives NUMERAL whatever the type, unless the punctuation override applies |
| ServicesJapaneseParser.ForcedPunctuation | src/main/java/jijimaku/services/langparser/JapaneseParser.java:106-109 | the written forms ｡ and …｡ are PUNCTUATION whatever the features |
| ServicesJapaneseParser.FormFallbacks | src/main/java/jijimaku/services/langparser/JapaneseParser.java:99-104 | a "*" written form falls back to the surface, and the canonical form is null iff the base form is "*" |
| LegacyJapaneseParser.TypeTag | src/main/java/jijimaku/langparser/JapaneseParser.java:75-99 | the table of the services snapshot without 空白, which is UNKNOWN here |
| LegacyJapaneseParser.SyntaxicParse | src/main/java/jijimaku/langparser/JapaneseParser.java:46-105 | one token per kuromoji token, in order; only a known token with fewer than two features raises ArrayIndexOutOfBoundsException |
| LegacyJapaneseParser.UnknownToken | src/main/java/jijimaku/langparser/JapaneseParser.java:56-60 | an unknown token is UNKNOWN with its written form as both forms, whatever its features |
| LegacyJapaneseParser.NumeralBeforeType | src/main/java/jijimaku/langparser/JapaneseParser.java:67-70 | the subtype 数詞 gives NUMERAL before the type table |
| LegacyJapaneseParser.TypeTable | src/main/java/jijimaku/langparser/JapaneseParser.java:75-99 | seven types have a tag and everything else is UNKNOWN |
| LegacyJapaneseParser.AgreesWithServices | src/main/java/jijimaku/langparser/JapaneseParser.java:46-105 | on a known token with proper forms, a type other than 空白 and no forced punctuation, this snapshot gives the same token as the services one |
| RootJapaneseParser.TypeCase | src/main/java/langparser/JapaneseParser.java:69-77 | the type switch has a case for exactly seven types |
| RootJapaneseParser.SyntaxicParse | src/main/java/langparser/JapaneseParser.java:44-83 | one token per kuromoji token, in order; only a known token with fewer than two features raises ArrayIndexOutOfBoundsException |
| RootJapaneseParser.UnknownToken | src/main/java/langparser/JapaneseParser.java:54-58 | an unknown token is UNKNOWN with its written form as both forms |
| RootJapaneseParser.NumeralBeforeType | src/main/java/langparser/JapaneseParser.java:65-67 | the subtype 数詞 gives NUMERAL before the type table |
| RootJapaneseParser.KnownTagTable | src/main/java/langparser/JapaneseParser.java:61-80 | a known token is UNKNOWN iff neither its subtype is 数詞 nor its type is in the table, and never ADJECTIVE or NOUN |
| JijiDictionary.ParseSenses | src/main/java/jijimaku/services/jijidictionary/JijiDictionary.java:62-72 | "sense" wins over "senses" and gives its one value (String or null, else ClassCastException); else the "senses" list is taken as loaded; with neither the word is skipped |
| JijiDictionary.SenseList | src/main/java/jijimaku/services/jijidictionary/JijiDictionary.java:68 | the ArrayList cast: a list is taken element for element with no element checked, null is a NullPointerException and any other value a ClassCastException |
| JijiDictionary.SensesListUnchecked | src/main/java/jijimaku/services/jijidictionary/JijiDictionary.java:68 | a "senses" list whose elements are not Strings still loads, unchanged |
| JijiDictionary.SenseTexts | src/main/java/jijimaku/services/AnnotationService.java:252 | String.join over the senses succeeds iff each is a String or null; a null reads "null", and anything else is a ClassCastException |
| JijiDictionary.ParseWordEntry | src/main/java/jijimaku/services/jijidictionary/JijiDictionary.java:59-86 | a word without a sense is skipped; otherwise the lemmas are the key split on commas, a pronunciation list exists iff its key does, and a frequency only when its key exists |
| JijiDictionary.InfoKeyNotIndexed | src/main/java/jijimaku/services/jijidictionary/JijiDictionary.java:57 | the about_this_dictionary key is never turned into an entry |
| JijiDictionary.SenselessWordSkipped | src/main/java/jijimaku/services/jijidictionary/JijiDictionary.java:69-72 | a word with neither sense nor senses adds nothing |
| JijiDictionary.IndexedUnderEachLemma | src/main/java/jijimaku/services/jijidictionary/JijiDictionary.java:84-92 | a single-sense word is found last under each of its lemmas, with that sense value |
| JijiDictionary.SingleSenseEntry | src/main/java/jijimaku/services/jijidictionary/JijiDictionary.java:84-92 | the entry a single-sense word makes, appended under each of its lemmas |
| JijiDictionary.IndexDocumentSnoc | src/main/java/jijimaku/services/jijidictionary/JijiDictionary.java:56-94 | indexing one more word continues from the index of the words before |
| JijiDictionary.JijiDictionary.Empty | src/main/java/jijimaku/services/jijidictionary/JijiDictionary.java:48 | the index starts empty |
| JijiDictionary.JijiDictionary.GetEntriesForWord | src/main/java/jijimaku/services/jijidictionary/JijiDictionary.java:102-108 | the list indexed under w, or the empty list on a miss |
| JijiDictionary.JijiDictionary.AddUnderLemmas | src/main/java/jijimaku/services/jijidictionary/JijiDictionary.java:87-92 | the inner loop appends the entry under each of its lemmas, in order |
| JijiDictionary.Load | src/main/java/jijimaku/services/jijidictionary/JijiDictionary.java:51-100 | a document that is not a map fails (null: NullPointerException, other: ClassCastException); otherwise loading succeeds iff every word parses, and the index is the one the words build in document order |
| JijiDictionary.PrefixFailure | src/main/java/jijimaku/services/jijidictionary/JijiDictionary.java:56-94 | an exception on some word makes the whole load fail |
| JmDict.PronunciationJoins | src/main/java/jijimaku/langdictionary/JmDict.java:116-126 | with no empty kana form, the pronunciation is the kana forms joined by ",  " |
| JmDict.PronunciationFor | src/main/java/jijimaku/langdictionary/JmDict.java:117-126 | a form that is not itself a kana form gets no pronunciation |
| JmDict.SingleMeaning | src/main/java/jijimaku/langdictionary/JmDict.java:136-141 | a single meaning is written unnumbered, followed by a space |
| JmDict.SeveralMeaningsNumbered | src/main/java/jijimaku/langdictionary/JmDict.java:136-141 | with several meanings the text starts with "(1) " and the first meaning |
| JmDict.EntryTextStarts | src/main/java/jijimaku/langdictionary/JmDict.java:128-141 | every stored entry text starts with the style header, the word and the reset code |
| JmDict.IndexOneHeader | src/main/java/jijimaku/langdictionary/JmDict.java:143-148 | storing one more text that starts with the header keeps every stored text starting with it |
| JmDict.IndexWords | src/main/java/jijimaku/langdictionary/JmDict.java:113-149 | after an entry, the keys are the old keys plus every form of the entry, and forms not in the entry keep their text |
| JmDict.IndexWordsHeader | src/main/java/jijimaku/langdictionary/JmDict.java:113-149 | indexing an entry keeps every stored text starting with the style header |
| JmDict.IndexWordsLast | src/main/java/jijimaku/langdictionary/JmDict.java:113-149 | the last form of the entry is stored last |
| JmDict.IndexOneAt | src/main/java/jijimaku/langdictionary/JmDict.java:143-148 | storing under a form changes that form only: appended after the separator when present, stored as it is otherwise |
| JmDict.IndexWordsExtends | src/main/java/jijimaku/langdictionary/JmDict.java:143-148 | a text already stored under a form stays at its front, followed by the separator when the entry indexes that form again |
| JmDict.IndexWordsFresh | src/main/java/jijimaku/langdictionary/JmDict.java:143-148 | a form new to the map is stored with its own entry text at the front |
| JmDict.BuildPronunciation | src/main/java/jijimaku/langdictionary/JmDict.java:116-126 | the pronunciation loop computes the kana forms separated by ",  " |
| JmDict.BuildEntryText | src/main/java/jijimaku/langdictionary/JmDict.java:128-141 | the text built for one form is its header, pronunciation in 【】 and the meanings |
| JmDict.AppendMeanings | src/main/java/jijimaku/langdictionary/JmDict.java:136-141 | the meanings loop appends each meaning, numbered when there are several |
| JmDict.IndexEntry | src/main/java/jijimaku/langdictionary/JmDict.java:113-149 | the loop over the kanji and kana forms stores the text of each form, in order |
| JmDict.Handler.constructor | src/main/java/jijimaku/langdictionary/JmDict.java:93-99 | the handler starts with no text, no forms, no meanings, an empty map and a zero count |
| JmDict.Handler.Characters | src/main/java/jijimaku/langdictionary/JmDict.java:172-175 | characters keeps only the latest chunk of text and changes nothing else |
| JmDict.Handler.EndElement | src/main/java/jijimaku/langdictionary/JmDict.java:101-170 | entry indexes the kanji then kana forms, counts the entry and resets the per-entry state; keb and reb record the text; sense keeps a non-empty meaning; gloss appends the text and "; "; misc with a null text is a NullPointerException; the usually-kana flag is set by its misc text |
| JmDict.JmDictionary.constructor | src/main/java/jijimaku/langdictionary/JmDict.java:77-185 | the events are delivered to the handler in order, an exception stops the parsing but not the construction, and every stored text starts with the style header |
| JmDict.JmDictionary.GetMeaning | src/main/java/jijimaku/langdictionary/JmDict.java:33-39 | the stored text of the word, or "" when it is not in the map, and stored texts are never empty |
| JmDict.Open | src/main/java/jijimaku/langdictionary/JmDict.java:80-82 | a null input stream is an IllegalArgumentException; otherwise a dictionary is built |
| LangParser.PosTagValueOf | src/main/java/jijimaku/services/langparser/LangParser.java:74-93 | PosTag.valueOf yields only the tag whose constant name is exactly the string |
| LangParser.PosTagValueOfName | src/main/java/jijimaku/services/langparser/LangParser.java:74-93 | every tag's own name resolves back to it |
| LangParser.NewTextToken | src/main/java/jijimaku/services/langparser/LangParser.java:102-114 | a null or empty text form is an IllegalArgumentException; otherwise the token keeps its tag and text, and each canonical form is the one given or, when null or empty, the lower-cased text; every built token has three non-empty forms |
| LangParser.NewTextTokenStable | src/main/java/jijimaku/services/langparser/LangParser.java:102-114 | rebuilding a built token from its own fields gives the same token: the defaults are stable |
| LangParser.WordSeparator | src/main/java/jijimaku/services/langparser/LangParser.java:151-156 | the separator is empty iff the language is Japanese, Chinese or Vietnamese, and a single space otherwise |
| LangParser.GetLanguageFromStr | src/main/java/jijimaku/services/langparser/LangParser.java:158-168 | succeeds iff some language's constant name is exactly the string, and yields that language; otherwise UnexpectedCriticalError |
| LangParser.GetLanguageFromStrName | src/main/java/jijimaku/services/langparser/LangParser.java:158-168 | every language's own constant name resolves back to it |
| LangParserKuromoji.SubtypeTag | src/main/java/jijimaku/services/langparser/LangParserKuromoji.java:94-111 | the first switch decides exactly for the eight listed subtypes |
| LangParserKuromoji.PreviousTypeIn | src/main/java/jijimaku/services/langparser/LangParserKuromoji.java:117-132 | false without a previous token; otherwise whether its type is one of the given ones, and an ArrayIndexOutOfBoundsException when it has no features |
| LangParserKuromoji.TypeTag | src/main/java/jijimaku/services/langparser/LangParserKuromoji.java:113-149 | a type the second switch does not name gives UNKNOWN |
| LangParserKuromoji.GetTokenPosTag | src/main/java/jijimaku/services/langparser/LangParserKuromoji.java:83-150 | a punctuation written form is PUNCT whatever the features; otherwise fewer than two features is an ArrayIndexOutOfBoundsException |
| LangParserKuromoji.WrittenFormOf | src/main/java/jijimaku/services/langparser/LangParserKuromoji.java:164-166 | a "*" written form falls back to the surface form |
| LangParserKuromoji.KnownForm | src/main/java/jijimaku/services/langparser/LangParserKuromoji.java:167-172 | a "*" form becomes null and any other form is kept |
| LangParserKuromoji.ParseAll | src/main/java/jijimaku/services/langparser/LangParserKuromoji.java:161-175 | the parse succeeds iff every token does, and then gives one token per kuromoji token, in order |
| LangParserKuromoji.PreviousAsWritten | src/main/java/jijimaku/services/langparser/LangParserKuromoji.java:163 | as written, the token passed as previous at index i > 0 is token i itself |
| LangParserKuromoji.PreviousTokens | src/main/java/jijimaku/services/langparser/LangParserKuromoji.java:163 | corrected, the token passed as previous at index i > 0 is token i-1 |
| LangParserKuromoji.SubtypeDecidesFirst | src/main/java/jijimaku/services/langparser/LangParserKuromoji.java:94-111 | the subtype decides before the type: 数詞 is NUM and 普通名詞 NOUN whatever the type |
| LangParserKuromoji.CaseParticle | src/main/java/jijimaku/services/langparser/LangParserKuromoji.java:105-106 | 格助詞 is CCONJ for と and か and ADP otherwise |
| LangParserKuromoji.PreNounAdjectival | src/main/java/jijimaku/services/langparser/LangParserKuromoji.java:114-115 | 連体詞 is DET for その, どの and この, ADJ otherwise |
| LangParserKuromoji.DependentVerb | src/main/java/jijimaku/services/langparser/LangParserKuromoji.java:131-135 | a 非自立可能 verb is AUX iff the previous token is a verb, VERB otherwise |
| LangParserKuromoji.DependentAdjective | src/main/java/jijimaku/services/langparser/LangParserKuromoji.java:116-121 | a 非自立可能 adjective is AUX iff the previous token is an adjective or 形状詞, ADJ otherwise |
| LangParserKuromoji.UnmatchedIsUnknown | src/main/java/jijimaku/services/langparser/LangParserKuromoji.java:147-148 | features neither switch knows give UNKNOWN |
| LangParserKuromoji.ParsedForms | src/main/java/jijimaku/services/langparser/LangParserKuromoji.java:164-174 | the text form is the written form or the surface; each canonical form is the kuromoji form, or the lower-cased text when that form is "*" or empty |
| LangParserKuromoji.EmptyFormRejected | src/main/java/jijimaku/services/langparser/LangParserKuromoji.java:174 | a token whose written form and surface are empty raises IllegalArgumentException |
| LangParserKuromoji.AsWrittenDependentVerb | src/main/java/jijimaku/services/langparser/LangParserKuromoji.java:161-175 | as written, a 非自立可能 verb past the first position is always AUX, whatever comes before it |
| LangParserKuromoji.DependentVerbAfter | src/main/java/jijimaku/services/langparser/LangParserKuromoji.java:131-135 | corrected, a 非自立可能 verb past the first position is AUX iff the token before it is a verb |
| LangParserKuromoji.PreviousTokenIsCurrent | src/main/java/jijimaku/services/langparser/LangParserKuromoji.java:163 | after the noun 本, the dependent verb いる comes out AUX as written but VERB with the token before as previous |
| LangRulesJapanese.FilterTokens | src/main/java/jijimaku/services/langrules/LangRulesJapanese.java:35-52 | the loop returns what the filterTokens function gives on its input |
| LangRulesJapanese.FilteredSnoc | src/main/java/jijimaku/services/langrules/LangRulesJapanese.java:38-50 | one more input token is one more loop turn on the output so far |
| LangRulesJapanese.ReplaceLast | src/main/java/jijimaku/services/langrules/LangRulesJapanese.java:46 | replacing the last output token is dropping it and appending the merged one |
| LangRulesJapanese.FilteredLength | src/main/java/jijimaku/services/langrules/LangRulesJapanese.java:35-52 | the output is never longer than the input, and is empty iff the input is |
| LangRulesJapanese.FilteredKeepsText | src/main/java/jijimaku/services/langrules/LangRulesJapanese.java:35-52 | merging only regroups characters: the concatenated text of the tokens is unchanged |
| LangRulesJapanese.FilterStepKeepsText | src/main/java/jijimaku/services/langrules/LangRulesJapanese.java:39-49 | one turn appends the token's text to the output's text, merged or not |
| LangRulesJapanese.FilteredFirstToken | src/main/java/jijimaku/services/langrules/LangRulesJapanese.java:38-50 | the first token is never merged into anything: the first output token keeps its tag and canonical forms and starts with its text |
| LangRulesJapanese.FilteredWithoutConjunctions | src/main/java/jijimaku/services/langrules/LangRulesJapanese.java:38-50 | tokens that are not verb conjunctions pass through unchanged and in order |
| LangRulesJapanese.FilteredChain | src/main/java/jijimaku/services/langrules/LangRulesJapanese.java:41-47 | after a verb or auxiliary, a run of て, で or ちゃ conjunctions folds into that one token, which keeps its tag and canonical forms |
| LangRulesJapanese.ChainExtend | src/main/java/jijimaku/services/langrules/LangRulesJapanese.java:41-47 | one more conjunction after a merged verb is glued onto it |
| LangRulesJapanese.ChainSnoc | src/main/java/jijimaku/services/langrules/LangRulesJapanese.java:44-45 | gluing a conjunction to a merged verb appends its text |
| LangRulesJapanese.GlueStep | src/main/java/jijimaku/services/langrules/LangRulesJapanese.java:41-47 | a conjunction after a verb or auxiliary replaces it by the merged token |
| LangRulesJapanese.KanaUtf16Length | src/main/java/jijimaku/services/langrules/LangRulesJapanese.java:54-55 | kana lie in the Basic Multilingual Plane, so a kana string's Java length is its character count |
| LangRulesJapanese.ValidMatchExactly | src/main/java/jijimaku/services/langrules/LangRulesJapanese.java:57-69 | isValidMatch fails exactly for verb-less hiragana matches of one to three characters |
| LangRulesJapanese.InvalidIsIgnored | src/main/java/jijimaku/services/langrules/LangRulesJapanese.java:57-82 | every match isValidMatch rejects would also be ignored by isIgnoredMatch |
| LangRulesJapanese.VerbMatchKept | src/main/java/jijimaku/services/langrules/LangRulesJapanese.java:57-82 | a match with a verb is always valid and never ignored |
| LanguageService.ServiceNameLength | src/main/java/jijimaku/services/LanguageService.java:19-70 | every constant name is longer than a two-letter code, so a name is never read as a code |
| LanguageService.FromIso639 | src/main/java/jijimaku/services/LanguageService.java:131-133 | the language registered under the lower-cased code, null when none is |
| LanguageService.GetLanguageFromStr | src/main/java/jijimaku/services/LanguageService.java:138-148 | a string of UTF-16 length 2 is read as an ISO 639-1 code; any other string names a language iff, with spaces made underscores and letters upper-cased, it is a constant name, and then yields that language |
| LanguageService.ConstantNameSpelling | src/main/java/jijimaku/services/LanguageService.java:143-144 | any spelling that becomes a constant name once spaces are underscores and letters upper case resolves to that language |
| LanguageService.IsoCodeExamples | src/main/java/jijimaku/services/LanguageService.java:131-142 | codes are read whatever their case: "ja" and "JA" are Japanese, "Fr" French |
| LanguageService.Utf16LengthTwo | src/main/java/jijimaku/services/LanguageService.java:139 | two characters of the Basic Multilingual Plane have Java length 2 |
| LanguageService.NameIndexBelowLength | src/main/java/jijimaku/services/LanguageService.java:170-173 | a found name starts before the end of the file name, so the initial bound never excludes it |
| LanguageService.DetectFromFilename | src/main/java/jijimaku/services/LanguageService.java:168-179 | null iff no language name occurs in the lower-cased file name; otherwise the language whose name occurs earliest, the earlier-declared one on a tie |
| LanguageService.ScanNames | src/main/java/jijimaku/services/LanguageService.java:171-177 | the scan keeps the language with the smallest position seen, the first one on a tie |
| LanguageService.EarliestOverAll | src/main/java/jijimaku/services/LanguageService.java:171-177 | the scan over values() covers every language, each at its ordinal |
| LanguageService.Votes | src/main/java/jijimaku/services/LanguageService.java:156-158 | a code never has more votes than there are samples |
| LanguageService.VotesOfTwo | src/main/java/jijimaku/services/LanguageService.java:156-158 | two different codes together have at most one vote per sample |
| LanguageService.FirstQualifying | src/main/java/jijimaku/services/LanguageService.java:160-165 | the first code in iteration order with at least one vote and at most one sample against it, and none iff no code qualifies |
| LanguageService.FirstQualifyingOrderFree | src/main/java/jijimaku/services/LanguageService.java:159-165 | with three samples or more at most one code qualifies, so the map's iteration order does not matter |
| LanguageService.VotesInCodes | src/main/java/jijimaku/services/LanguageService.java:156-158 | only classified codes have votes |
| LanguageService.Classify | src/main/java/jijimaku/services/LanguageService.java:156-157 | one classifier code per sample, in order |
| LanguageService.DetectFromList | src/main/java/jijimaku/services/LanguageService.java:153-166 | the language of the first qualifying code, read by getLanguageFromStr, or null when no code qualifies |
| Languages.Ordinal | src/main/java/jijimaku/services/LanguageService.java:19-70 | every language has a declaration index below 50, and the language declared there is itself |
| Languages.OrdinalOfFromOrdinal | src/main/java/jijimaku/services/LanguageService.java:19-70 | the language declared at position i has ordinal i |
| Languages.OrdinalOfListed | src/main/java/jijimaku/services/LanguageService.java:171 | the language values() lists at position i has ordinal i |
| Languages.AllListed | src/main/java/jijimaku/services/LanguageService.java:171 | values() lists every language, each at its ordinal |
| Languages.ParserNameInjective | src/main/java/jijimaku/services/langparser/LangParser.java:19-70 | no two languages share a LangParser constant name |
| Languages.ServiceNameInjective | src/main/java/jijimaku/services/LanguageService.java:19-70 | no two languages share a LanguageService constant name |
| Languages.ParserValueOf | src/main/java/jijimaku/services/langparser/LangParser.java:160 | Enum.valueOf over the LangParser names: the language with exactly this name, and none iff no language has it |
| Languages.ServiceValueOf | src/main/java/jijimaku/services/LanguageService.java:144 | Enum.valueOf over the LanguageService names: the language with exactly this name, and none iff no language has it |
| LegacySubtitles.ColorTag | src/main/java/utils/SubtitleFile.java:80 | the replacement is "{\c&", the colour without its first character, "&}", the word and "{\r}"; an empty colour is a StringIndexOutOfBoundsException |
| LegacySubtitles.ColorTagAgreesOnlyOnGreys | src/main/java/utils/SubtitleFile.java:80 | this class writes the colour's digits as given, while the later classes convert RGB to BGR: the two agree exactly when red and blue are equal |
| LegacySubtitles.PutNone | src/main/java/utils/SubtitleFile.java:97-103 | before any put the caption map is unchanged |
| LegacySubtitles.PutOneMore | src/main/java/utils/SubtitleFile.java:99-102 | each turn puts one more annotation into the caption map |
| LegacySubtitles.PutAllIsMerge | src/main/java/utils/SubtitleFile.java:97-103 | once every annotation is put, the map is the captions overridden by the annotations |
| LegacySubtitles.PutAll | src/main/java/utils/SubtitleFile.java:97-103 | the loop computes the merge of captions and annotations |
| LegacySubtitles.SubtitleFile.constructor | src/main/java/utils/SubtitleFile.java:34-64 | the styles are the configured ones or those of DEFAULT_STYLES; the captions are the parsed ones, no annotation yet, and the cursor before the first caption in ascending key order |
| LegacySubtitles.SubtitleFile.NextCaption | src/main/java/utils/SubtitleFile.java:70-73 | past the last caption a NoSuchElementException changes nothing; otherwise the cursor moves one caption on and its content is returned with every br tag removed |
| LegacySubtitles.SubtitleFile.SetCaptionStyle | src/main/java/utils/SubtitleFile.java:75-77 | whatever style is asked for, the current caption gets the Default style and nothing else changes; with no current caption a NullPointerException |
| LegacySubtitles.SubtitleFile.ColorizeCaptionWord | src/main/java/utils/SubtitleFile.java:79-81 | every occurrence of the word in the current caption is replaced by the colour tag; no current caption is a NullPointerException and an empty colour an index exception, both changing nothing |
| LegacySubtitles.SubtitleFile.AddAnnotationCaption | src/main/java/utils/SubtitleFile.java:83-93 | the annotation gets the current caption's times and the style asked for, under the first key after the current one that neither map uses; nothing else changes |
| LegacySubtitles.SubtitleFile.WriteToAss | src/main/java/utils/SubtitleFile.java:95-105 | the caption map becomes the captions merged with the annotations, which are kept |
| LemmaIndex.AppendOne | src/main/java/jijimaku/services/dictionary/Dictionary.java:61-64 | one indexing step makes the lemma a key and touches no other key |
| LemmaIndex.AppendUnder | src/main/java/jijimaku/services/dictionary/Dictionary.java:60-65 | after indexing, the keys are the old keys plus every lemma of the entry |
| LemmaIndex.AppendUnderSnoc | src/main/java/jijimaku/services/dictionary/Dictionary.java:60-65 | indexing one more lemma of the list is one more step |
| LemmaIndex.AppendUnderSearch | src/main/java/jijimaku/services/dictionary/Dictionary.java:60-65 | a word's list is its old list (empty if absent) followed by the entry once per time the word occurs among the lemmas |
| LemmaIndex.CountZero | src/main/java/jijimaku/services/dictionary/Dictionary.java:60-65 | a word occurs zero times among the lemmas iff it is not one of them |
| LemmaIndex.AppendUnderOthers | src/main/java/jijimaku/services/dictionary/Dictionary.java:60-65 | a word that is not a lemma of the entry keeps its presence and its list |
| LemmaIndex.AppendUnderDistinct | src/main/java/jijimaku/services/dictionary/Dictionary.java:60-65 | with distinct lemmas, each lemma's list keeps its old entries in order and gets the entry last |
| LemmaIndex.CountOne | src/main/java/jijimaku/services/dictionary/Dictionary.java:60-65 | a lemma of a duplicate-free list occurs exactly once |
| LingoesLd2Extractor.Int32At | src/main/java/cn/kk/extractor/lingoes/LingoesLd2Extractor.java:134 | the little-endian int at an index is a 32-bit two's complement value |
| LingoesLd2Extractor.DecodeEncodeInt32 | src/main/java/cn/kk/extractor/lingoes/LingoesLd2Extractor.java:134 | reading back the four little-endian bytes of an int gives the int |
| LingoesLd2Extractor.EncodeDecodeInt32 | src/main/java/cn/kk/extractor/lingoes/LingoesLd2Extractor.java:134 | the four bytes read as an int are exactly its little-endian encoding |
| LingoesLd2Extractor.IntAt | src/main/java/cn/kk/extractor/lingoes/LingoesLd2Extractor.java:137 | an absolute getInt succeeds exactly when four bytes lie at the index, giving the little-endian int there, and fails with IndexOutOfBoundsException otherwise |
| LingoesLd2Extractor.ByteBuffer.constructor | src/main/java/cn/kk/extractor/lingoes/LingoesLd2Extractor.java:129-135 | the buffer holds the file's bytes, rewound to position 0 |
| LingoesLd2Extractor.ByteBuffer.SetPosition | src/main/java/cn/kk/extractor/lingoes/LingoesLd2Extractor.java:84 | position(p) succeeds exactly when 0 <= p <= limit and then moves there; otherwise IllegalArgumentException and the position is unchanged |
| LingoesLd2Extractor.ByteBuffer.GetInt | src/main/java/cn/kk/extractor/lingoes/LingoesLd2Extractor.java:85 | a relative getInt reads the int at the position and advances by four, or fails with BufferUnderflowException leaving the position when fewer than four bytes remain |
| LingoesLd2Extractor.ByteBuffer.Get | src/main/java/cn/kk/extractor/lingoes/LingoesLd2Extractor.java:87 | a relative get reads the unsigned byte at the position and advances by one, or fails with BufferUnderflowException at the limit |
| LingoesLd2Extractor.IdxRecord | src/main/java/cn/kk/extractor/lingoes/LingoesLd2Extractor.java:85-90 | an index record has six values, the third and fourth being the unsigned bytes at offsets 8 and 9 |
| LingoesLd2Extractor.IdxRecordRoundTrip | src/main/java/cn/kk/extractor/lingoes/LingoesLd2Extractor.java:85-90 | reading an encoded index record anywhere in a buffer gives back its six values |
| LingoesLd2Extractor.ReadIdxRecord | src/main/java/cn/kk/extractor/lingoes/LingoesLd2Extractor.java:85-90 | the six reads succeed exactly when 18 bytes remain, fill the array with the record and advance the position by 18; otherwise BufferUnderflowException |
| LingoesLd2Extractor.GetIdxData | src/main/java/cn/kk/extractor/lingoes/LingoesLd2Extractor.java:83-91 | getIdxData succeeds exactly when the whole record lies in the buffer, filling the array with the record at the given position; a position outside the buffer is IllegalArgumentException, a record running past the end BufferUnderflowException |
| LingoesLd2Extractor.DataOffsetField | src/main/java/cn/kk/extractor/lingoes/LingoesLd2Extractor.java:137 | the data offset is the int at 0x5C plus 0x60 with int wrap-around, and reading it fails with IndexOutOfBoundsException on a file shorter than 0x60 bytes |
| LingoesLd2Extractor.DictionaryOffsetPlain | src/main/java/cn/kk/extractor/lingoes/LingoesLd2Extractor.java:137-142 | a type-3 dictionary at a data offset inside the file is read at the data offset |
| LingoesLd2Extractor.OffsetForTypeWithInfo | src/main/java/cn/kk/extractor/lingoes/LingoesLd2Extractor.java:139-145 | any other offset read comes from a non-type-3 header and is offsetWithInfo, with offsetWithInfo + 0x1C inside the file |
| LingoesLd2Extractor.DictionaryOffsetPastEnd | src/main/java/cn/kk/extractor/lingoes/LingoesLd2Extractor.java:137-148 | a data offset at or past the end of the file ends in UnexpectedCriticalError |
| LingoesLd2Extractor.PlainDictionaryFound | src/main/java/cn/kk/extractor/lingoes/LingoesLd2Extractor.java:137-142 | a file whose header points at a type-3 dictionary at o is read at o |
| LingoesLd2Extractor.StreamOffsets | src/main/java/cn/kk/extractor/lingoes/LingoesLd2Extractor.java:158-163 | the collected deflate stream offsets are read from inside the buffer, and the only failure is BufferUnderflowException |
| LingoesLd2Extractor.StreamOffsetAt | src/main/java/cn/kk/extractor/lingoes/LingoesLd2Extractor.java:159-163 | offset k collected is the int at the start position plus 4k, read because the loop condition held for the offset before it |
| LingoesLd2Extractor.StreamOffsetsTail | src/main/java/cn/kk/extractor/lingoes/LingoesLd2Extractor.java:160-163 | after the first turn the loop collects the int read, followed by what it collects from the next position |
| LingoesLd2Extractor.StreamOffsetsEnd | src/main/java/cn/kk/extractor/lingoes/LingoesLd2Extractor.java:160 | the loop stops at the first offset for which offset + position reaches the limit |
| LingoesLd2Extractor.ReadDataHeader | src/main/java/cn/kk/extractor/lingoes/LingoesLd2Extractor.java:152-156 | the header reads of readDictionary fail only with IndexOutOfBoundsException |
| LingoesLd2Extractor.DictionaryLayoutFields | src/main/java/cn/kk/extractor/lingoes/LingoesLd2Extractor.java:151-166 | the layout carries the words index length and the index-plus-words length read from the header, and the stream offsets are the ints stored consecutively before the final position |
| LingoesLd2Extractor.CollectStep | src/main/java/cn/kk/extractor/lingoes/LingoesLd2Extractor.java:160-162 | one turn of the loop moves one offset from what is still to be collected to what has been collected |
| LingoesLd2Extractor.CollectStreams | src/main/java/cn/kk/extractor/lingoes/LingoesLd2Extractor.java:160-163 | the loop over the buffer collects exactly the offsets StreamOffsets describes and leaves the position after the last one read |
| LingoesLd2Extractor.ReadDictionaryLayout | src/main/java/cn/kk/extractor/lingoes/LingoesLd2Extractor.java:151-164 | readDictionary up to inflation computes exactly the described layout and leaves the position after the stream table |
| LingoesLd2Extractor.DivTen | src/main/java/cn/kk/extractor/lingoes/LingoesLd2Extractor.java:174 | int division by ten truncates toward zero for negative as well as non-negative lengths |
| LingoesLd2Extractor.DefinitionCount | src/main/java/cn/kk/extractor/lingoes/LingoesLd2Extractor.java:173-174 | defTotal is the number of whole 10-byte records in the index minus one, and is not positive for an index under 20 bytes |
| LingoesLd2Extractor.Extract | src/main/java/cn/kk/extractor/lingoes/LingoesLd2Extractor.java:169-201 | the loop builds exactly the map of the first defTotal trimmed definitions, or fails with the first read's exception |
| LingoesLd2Extractor.DefinitionsFailAfter | src/main/java/cn/kk/extractor/lingoes/LingoesLd2Extractor.java:184-199 | once a read has failed, reading more definitions leaves the failure as the result |
| LingoesLd2Extractor.WordsReadSnoc | src/main/java/cn/kk/extractor/lingoes/LingoesLd2Extractor.java:188-198 | the words of one more definition are the earlier words plus its trimmed word |
| LingoesLd2Extractor.DefinitionsStep | src/main/java/cn/kk/extractor/lingoes/LingoesLd2Extractor.java:188-198 | one more successful read puts its trimmed word with its trimmed value |
| LingoesLd2Extractor.DefinitionsSucceed | src/main/java/cn/kk/extractor/lingoes/LingoesLd2Extractor.java:184-200 | extract succeeds exactly when every definition read succeeds |
| LingoesLd2Extractor.FirstFailure | src/main/java/cn/kk/extractor/lingoes/LingoesLd2Extractor.java:184-186 | a failing extract fails with the exception of the first read that fails, every read before it having succeeded |
| LingoesLd2Extractor.DefinitionsKeys | src/main/java/cn/kk/extractor/lingoes/LingoesLd2Extractor.java:188-198 | the keys of the map are exactly the trimmed words of all definitions |
| LingoesLd2Extractor.LaterDefinitionWins | src/main/java/cn/kk/extractor/lingoes/LingoesLd2Extractor.java:198 | a word is mapped to the trimmed value of its last definition, as HashMap.put overwrites |
| LingoesLd2Extractor.Blank | src/main/java/cn/kk/extractor/lingoes/LingoesLd2Extractor.java:57-58 | the chain of replace calls keeps the length and turns exactly tabs, the line separator, U+001E and U+001F into spaces |
| LingoesLd2Extractor.Substring | src/main/java/cn/kk/extractor/lingoes/LingoesLd2Extractor.java:63 | substring succeeds exactly when 0 <= begin <= end <= length, with StringIndexOutOfBoundsException otherwise |
| LingoesLd2Extractor.TagGapsTurn | src/main/java/cn/kk/extractor/lingoes/LingoesLd2Extractor.java:70-76 | one turn of the do-while loop keeps the text appended so far plus what the rest of the loop appends equal to the whole result |
| LingoesLd2Extractor.StripElement | src/main/java/cn/kk/extractor/lingoes/LingoesLd2Extractor.java:60-65 | the element branch computes exactly the blanked text from the end of the opening tag to the closing tag, or the substring failure |
| LingoesLd2Extractor.AppendGap | src/main/java/cn/kk/extractor/lingoes/LingoesLd2Extractor.java:71-73 | the builder gains the text between the last '>' and the next '<' when there is any |
| LingoesLd2Extractor.StrippedIsBlanked | src/main/java/cn/kk/extractor/lingoes/LingoesLd2Extractor.java:52-81 | whatever strip returns holds no tab, line separator, U+001E or U+001F |
| LingoesLd2Extractor.StripTurn | src/main/java/cn/kk/extractor/lingoes/LingoesLd2Extractor.java:70-76 | one turn of the loop either leaves the builder holding the whole result, when either lookup finds nothing, or moves the '>' search strictly forward keeping the loop invariant |
| LingoesLd2Extractor.StripTags | src/main/java/cn/kk/extractor/lingoes/LingoesLd2Extractor.java:67-76 | the do-while loop appends exactly the text between tags that TagGaps describes |
| LingoesLd2Extractor.Strip | src/main/java/cn/kk/extractor/lingoes/LingoesLd2Extractor.java:52-81 | strip computes exactly the described result on every branch |
| LingoesLd2Extractor.CDataCloseAfterOpen | src/main/java/cn/kk/extractor/lingoes/LingoesLd2Extractor.java:55-56 | the first ']]>' found from the CDATA opening lies past the whole '<![CDATA[' |
| LingoesLd2Extractor.BeforeFirstOccurrence | src/main/java/cn/kk/extractor/lingoes/LingoesLd2Extractor.java:56 | the text up to the first occurrence of a string holds no occurrence of it |
| LingoesLd2Extractor.CDataSection | src/main/java/cn/kk/extractor/lingoes/LingoesLd2Extractor.java:55-57 | an opening and a later closing frame the text between them as one CDATA section in the input |
| LingoesLd2Extractor.StripCData | src/main/java/cn/kk/extractor/lingoes/LingoesLd2Extractor.java:55-58 | with a terminated CDATA section, strip returns the blanked text of the first section, which holds no ']]>' |
| LingoesLd2Extractor.StripUnterminated | src/main/java/cn/kk/extractor/lingoes/LingoesLd2Extractor.java:55-80 | an unterminated CDATA section or '<Ô' element gives the empty string |
| LingoesLd2Extractor.NoTagStart | src/main/java/cn/kk/extractor/lingoes/LingoesLd2Extractor.java:69 | text without '<' contains nothing starting with '<' |
| LingoesLd2Extractor.StripWithoutTags | src/main/java/cn/kk/extractor/lingoes/LingoesLd2Extractor.java:66-78 | text without any '<' strips to the empty string |
| LingoesLd2Extractor.StripUnclosedElementTag | src/main/java/cn/kk/extractor/lingoes/LingoesLd2Extractor.java:60-63 | a '<Ô' element whose tag has no '>' before the closing '</Ô' makes substring fail |
| LingoesLd2Extractor.Ld2Layout | src/main/java/cn/kk/extractor/lingoes/LingoesLd2Extractor.java:127-166 | a file shorter than 0x60 bytes fails with IndexOutOfBoundsException before any dictionary is read |
| LingoesLd2Extractor.ExtractLayout | src/main/java/cn/kk/extractor/lingoes/LingoesLd2Extractor.java:134-166 | extractLd2ToMap over the buffer computes exactly the described layout up to inflation |
| Subtitles.HtmlColorToAss | src/main/java/jijimaku/utils/SubtitleFile.java:254-256 | an HTML colour converts exactly when it has at least seven characters, into six hex digits; a shorter one fails with StringIndexOutOfBoundsException |
| Subtitles.HtmlColorToAssTwice | src/main/java/jijimaku/utils/SubtitleFile.java:251-256 | converting the result back swaps the channels again and gives the original RRGGBB digits |
| Subtitles.OpeningTag | src/main/java/jijimaku/utils/SubtitleFile.java:234-238 | BOLD opens with `{\b1}`; COLOR opens with a colour tag exactly when the parameter is a colour of at least seven characters |
| Subtitles.AddStyleToText | src/main/java/jijimaku/utils/SubtitleFile.java:233-245 | the styled text is the opening tag, the text unchanged and `{\r}`; a COLOR tag carries the converted colour, and fails exactly when the colour cannot be converted |
| Subtitles.Chars | src/main/java/jijimaku/utils/SubtitleFile.java:137 | the characters of an expression as one-character strings, in order |
| Subtitles.BrTolerantJoin | src/main/java/jijimaku/utils/SubtitleFile.java:132-137 | with the empty separator, the pattern is the expression's characters joined by an optional run of <br />, the last character getting none |
| Subtitles.BrTolerantSuffix | src/main/java/jijimaku/utils/SubtitleFile.java:137 | the rewrite of every suffix of the expression is its characters joined by the optional <br /> run |
| Subtitles.FindWordRegexp | src/main/java/jijimaku/utils/SubtitleFile.java:131-144 | the space separator gives the expression between word boundaries with each space widened to whitespace or <br />; any separator other than empty or a space is a JijimakuError |
| Subtitles.FindWordRegexpOneWord | src/main/java/jijimaku/utils/SubtitleFile.java:138-140 | a single word is searched for as itself between word boundaries |
| Subtitles.Highlight | src/main/java/jijimaku/utils/SubtitleFile.java:155-158 | the colour tag lands at the match start and `{\r}` right after the shifted match end, the content growing by exactly the two tags |
| Subtitles.HighlightRemovable | src/main/java/jijimaku/utils/SubtitleFile.java:156-158 | highlighting only inserts: dropping the two tags gives the content back |
| Subtitles.Colorized | src/main/java/jijimaku/utils/SubtitleFile.java:146-167 | a pattern failure fails; a changed content means exactly one match was found, the colour converts, and the content is that match highlighted |
| Subtitles.ColorizedOnce | src/main/java/jijimaku/utils/SubtitleFile.java:155-166 | with exactly one match the content grows by 16 characters, the colour tag sits at the match, and removing the tags restores the content |
| Subtitles.ColorizedUnchanged | src/main/java/jijimaku/utils/SubtitleFile.java:150-164 | with no match, or with more than one, the caption content is left as it was |
| Subtitles.SignedIsJijimakuFile | src/main/java/jijimaku/utils/SubtitleFile.java:225-227 | any text holding the signature is recognised as a file Jijimaku wrote |
| Subtitles.SubtitleFile.constructor | src/main/java/jijimaku/utils/SubtitleFile.java:61-99 | every parsed caption gets the style named Default when the parsed styles have one and null otherwise, with no annotation captions, no count and the iterator before the first caption in key order |
| Subtitles.SubtitleFile.NextCaption | src/main/java/jijimaku/utils/SubtitleFile.java:126-129 | the iterator moves to the next caption in key order and returns its content, or fails with NoSuchElementException past the end, leaving the captions alone |
| Subtitles.SubtitleFile.ColorizeCaptionWord | src/main/java/jijimaku/utils/SubtitleFile.java:146-167 | the current caption's content becomes the colourised content when that succeeds, and nothing else changes; no current caption is a NullPointerException |
| Subtitles.SubtitleFile.AddJijimakuMark | src/main/java/jijimaku/utils/SubtitleFile.java:172-191 | unless the first caption starts at time 0, the mark naming the dictionary is put at key 0 when the resource could be read; an empty file is a NoSuchElementException |
| Subtitles.SubtitleFile.Annotate | src/main/java/jijimaku/utils/SubtitleFile.java:193-209 | non-empty lines become one caption in the Definition style (null when the parsed styles lack it) joined by `\N`, with the current caption's times, at the first key after it that neither map uses, and the count grows by one; no lines change nothing |
| Subtitles.SubtitleFile.ToAssFormat | src/main/java/jijimaku/utils/SubtitleFile.java:211-215 | the annotation captions are merged into the caption map, annotations overriding on shared keys |
| Subtitles.AnnotationKeyFresh | src/main/java/jijimaku/utils/SubtitleFile.java:197-201 | the key an annotation is stored under lies after the current caption and is used by neither the captions nor the earlier annotations |
| SubtitleServices.IsSubDictFile | src/main/java/jijimaku/services/SubtitleService.java:74-87 | a file is recognised exactly when one of its first five lines contains the signature |
| SubtitleServices.SubDictFileIsJijimakuFile | src/main/java/jijimaku/services/SubtitleService.java:72-87 | a file recognised by its first five lines is also recognised by the whole-content signature test |
| SubtitleServices.BreaksToAss | src/main/java/jijimaku/services/SubtitleService.java:147-151 | every caption keeps its key and times and has each `<br>` tag, with or without spaces and a closing slash, replaced by `\N` |
| SubtitleServices.RewriteBreaks | src/main/java/jijimaku/services/SubtitleService.java:147-151 | the loop over the captions in key order rewrites the line breaks of each caption and of no other |
| SubtitleServices.SubtitleService.constructor | src/main/java/jijimaku/services/SubtitleService.java:56-108 | the service holds the configured styles, the parsed captions and no annotation captions, the iterator before the first caption in key order |
| SubtitleServices.SubtitleService.NextCaption | src/main/java/jijimaku/services/SubtitleService.java:115-118 | the iterator moves to the next caption in key order and returns its content without `<br>` tags, or fails with NoSuchElementException past the end |
| SubtitleServices.SubtitleService.SetCaptionStyle | src/main/java/jijimaku/services/SubtitleService.java:120-122 | the current caption, and only it, gets the Default style; no current caption is a NullPointerException |
| SubtitleServices.SubtitleService.ColorizeCaptionWord | src/main/java/jijimaku/services/SubtitleService.java:125-128 | every occurrence of the word in the current caption becomes the word wrapped in the converted colour tag and `{\r}`; a colour shorter than #RRGGBB fails first, then a missing current caption |
| SubtitleServices.SubtitleService.AddAnnotationCaption | src/main/java/jijimaku/services/SubtitleService.java:130-142 | the text becomes a caption with the current caption's times and the given style, under the first key after the current one that neither map uses, so no caption is overwritten |
| SubtitleServices.SubtitleService.WriteToAss | src/main/java/jijimaku/services/SubtitleService.java:144-160 | the captions, with their line breaks rewritten as `\N`, are merged with the annotation captions, annotations winning on a shared key |
| Captions.TakenShrinks | src/main/java/jijimaku/services/SubtitleService.java:133-134 | stepping past a taken key leaves fewer taken keys ahead, so the key search ends |
| Captions.FreeKey | src/main/java/jijimaku/services/SubtitleService.java:132-135 | the key found lies at or after the start, is used in neither map, and every key between is used in one of them |
| Captions.FindFreeKey | src/main/java/jijimaku/services/SubtitleService.java:132-135 | the counting loop stops at exactly the first free key |
| Captions.Merge | src/main/java/jijimaku/services/SubtitleService.java:155-159 | every key of either map is present, annotation captions win on a shared key and the other captions are kept |
| Captions.MergeNothing | src/main/java/jijimaku/services/SubtitleService.java:155 | with no annotation captions the caption map is left as it was |
| Captions.SkipSpaces | src/main/java/jijimaku/services/SubtitleService.java:117 | the index reached is the first at or after the start that is not regex whitespace |
| Captions.BrTagEnd | src/main/java/jijimaku/services/SubtitleService.java:117 | a tag match at the front starts with `<br`, ends with `>`, and holds only whitespace and at most a final slash between |
| Captions.ReplaceBrTagsNoTag | src/main/java/jijimaku/services/SubtitleService.java:117 | text without '<' is left unchanged by the tag replacement |
| Captions.NoTagWithoutAngle | src/main/java/jijimaku/services/SubtitleService.java:117 | no tag starts at a character other than '<' |
| Captions.ReplaceBrTagsShorter | src/main/java/jijimaku/services/SubtitleService.java:117 | removing the tags, or replacing them with `\N`, never lengthens the text |
| Captions.RemovingTagsCanLeaveATag | src/main/java/jijimaku/services/SubtitleService.java:117 | one pass can leave a tag formed by the pieces around a removed one: `<<br>br>` becomes `<br>` |
| Captions.StyleOf | src/main/java/jijimaku/services/SubtitleService.java:120-122 | the style looked up is the named one exactly when the configured styles hold it, and null, written as the empty name, otherwise |
| AppConfig.AsBoolean | src/main/java/jijimaku/AppConfig.java:80 | the Boolean cast accepts exactly null and booleans, keeping the boolean |
| AppConfig.AsList | src/main/java/jijimaku/AppConfig.java:79 | the ArrayList cast accepts exactly null and lists, keeping the list with its elements unchecked |
| AppConfig.GetConfigValue | src/main/java/jijimaku/AppConfig.java:95-107 | a missing key gives null, a value the cast accepts is returned cast, and a value of the wrong type is an UnexpectedError |
| AppConfig.Load | src/main/java/jijimaku/AppConfig.java:62-87 | a document that is not a mapping is an UnexpectedError, an empty document a NullPointerException, and those are the only ways loading fails |
| AppConfig.GetDictionary | src/main/java/jijimaku/AppConfig.java:113-115 | the dictionary name read from the file, with no default: null when the key is missing |
| AppConfig.GetDefinitionSize | src/main/java/jijimaku/AppConfig.java:121-123 | the size read from the file, or 8 when it is missing |
| AppConfig.NonNullList | src/main/java/jijimaku/AppConfig.java:128-160 | a list holding null is a JijimakuError; otherwise the list read from the file, or the getter's default when it is missing |
| AppConfig.GetDisplayOtherLemma | src/main/java/jijimaku/AppConfig.java:138-140 | the flag read from the file, with no default: null when the key is missing |
| AppConfig.PosTagsOf | src/main/java/jijimaku/AppConfig.java:171 | each name maps to the tag of that name, in order; an element that is not a string is a ClassCastException and an unknown name a JijimakuError |
| AppConfig.PosTagsOfNames | src/main/java/jijimaku/AppConfig.java:171 | a list of the tags' own names maps back to exactly those tags |
| AppConfig.GetPartOfSpeechToAnnotate | src/main/java/jijimaku/AppConfig.java:165-177 | a missing, empty or null-holding list is a JijimakuError; otherwise the result is the non-empty set of exactly the tags the list names |
| AppConfig.PosTagNameInjective | src/main/java/jijimaku/AppConfig.java:171 | two tags with the same name are the same tag, so valueOf is well defined |
| AppConfig.GetSubtitleStyles | src/main/java/jijimaku/AppConfig.java:185-192 | the configured styles verbatim, else the default styles with the definition size as the Definition font size |
| AppConfig.GetProperNouns | src/main/java/jijimaku/AppConfig.java:85 | the proper-noun map is always empty |
| AppConfig.LoadFields | src/main/java/jijimaku/AppConfig.java:77-86 | a loaded configuration holds, under each field, the cast value of its key |
| AppConfig.LoadedDefinitionSize | src/main/java/jijimaku/AppConfig.java:78 | a definition size in the file is what getDefinitionSize returns, and a missing or null one gives 8 |
| AppConfig.WrongTypeRejected | src/main/java/jijimaku/AppConfig.java:78 | a string under definitionSize makes loading fail with an UnexpectedError |
| AppConfig.LoadedHighlightColors | src/main/java/jijimaku/AppConfig.java:128-133 | without highlight colours in the file the one colour #FFFFFF is used |
| AppConfig.LoadedStyles | src/main/java/jijimaku/AppConfig.java:185-188 | subtitle styles given in the file are returned verbatim |
| AppConfig.LoadedPartOfSpeech | src/main/java/jijimaku/AppConfig.java:165-172 | a non-empty list of tag names is read back as the set of those tags |
| Yaml.Get | src/main/java/jijimaku/AppConfig.java:96-100 | a key is found exactly when the mapping holds an entry with that key, and the value found is one stored under it |
| Yaml.AsMap | src/main/java/jijimaku/services/dictionary/DictionaryJiji.java:53 | the map cast accepts exactly null and mappings; anything else is a ClassCastException |
| Yaml.AsString | src/main/java/jijimaku/AppConfig.java:77 | the String cast accepts exactly null and strings, keeping the string |
| Yaml.AsInteger | src/main/java/jijimaku/AppConfig.java:78 | the Integer cast yields only 32-bit values: an int in range is kept, and a larger integer, loaded as a Long, is a ClassCastException |
| Yaml.Strings | src/main/java/jijimaku/services/AnnotationService.java:252 | the element casts of String.join: a list whose elements are all Strings gives them in order, and any other element is a ClassCastException |
| JavaLang.Wrap32 | src/main/java/cn/kk/extractor/lingoes/LingoesLd2Extractor.java:137 | an int addition wraps around to a 32-bit value congruent to the exact sum, and is exact when that fits |
| JavaLang.IndexOfFrom | src/main/java/cn/kk/extractor/lingoes/LingoesLd2Extractor.java:56 | indexOf from a start finds the first occurrence at or after the start, clamped as Java clamps it, or -1 when there is none |
| JavaLang.IndexOf | src/main/java/cn/kk/extractor/lingoes/LingoesLd2Extractor.java:55 | indexOf finds the first occurrence, and -1 exactly when there is none |
| JavaLang.ReplaceChar | src/main/java/cn/kk/extractor/lingoes/LingoesLd2Extractor.java:57-58 | replace(char, char) keeps the length and swaps exactly the occurrences of the one character |
| JavaLang.ReplaceAllAbsent | src/main/java/jijimaku/services/SubtitleService.java:127 | replacing a word that does not occur in the caption changes nothing |
| JavaLang.ReplaceAllSelf | src/main/java/jijimaku/services/SubtitleService.java:127 | replacing a word by itself changes nothing |
| JavaLang.ToLower | src/main/java/jijimaku/services/AnnotationService.java:114 | lower-casing keeps the length and maps each ASCII capital to its small letter, leaving other characters alone |
| JavaLang.Utf16Length | src/main/java/jijimaku/services/dictionary/DictionaryLingoesLd2.java:104-105 | the Java length of a string counts at least one and at most two UTF-16 units per character |
| JavaLang.TrimSlice | src/main/java/cn/kk/extractor/lingoes/LingoesLd2Extractor.java:188-189 | trim keeps one slice of the string that starts and ends above U+0020, dropping only characters at or below it |
| JavaLang.SplitOnCommaPieces | src/main/java/jijimaku/services/dictionary/DictionaryJiji.java:102 | no piece of a comma split holds a comma, and a string without a comma is its own only piece |
| JavaLang.TrimmedPiecesCommaFree | src/main/java/jijimaku/services/dictionary/DictionaryJiji.java:96 | trimming the whitespace around the commas keeps every piece free of commas |
| JavaLang.ParseInt | src/main/java/jijimaku/services/dictionary/DictionaryEntry.java:56 | a parsed int fits in 32 bits, and the empty string is a NumberFormatException |
| JavaLang.ParseIntToString | src/main/java/jijimaku/services/dictionary/DictionaryEntry.java:56 | parseInt reads back any int its decimal text writes |
| JavaLang.ParseIntNegative | src/main/java/jijimaku/services/dictionary/DictionaryEntry.java:56 | parseInt reads back a negative int from its signed decimal text |

## Where the code and its description differ

- The project's description says that a failure while annotating one caption is caught, logged, and leaves that caption unannotated. `annotateSubtitleFile` (`src/main/java/jijimaku/services/AnnotationService.java:276-310`) has no `try`/`catch`, so any exception ends the whole file. `CaptionAnnotation.AnnotateSubtitleFile` follows the code: the first failing caption's error is the result.
- The description lists an ignore-frequencies rule among the match filters. `getFilteredMatches` (`src/main/java/jijimaku/services/AnnotationService.java:181-212`) does not consult `ignoreFrequencies`, and the model does not either. `AppConfig.getIgnoreFrequencies` is still modelled with its default and its null check.
- The description indexes entries by pronunciation as well as by lemma. `Dictionary.addEntry` indexes by lemma only, and so does the model.

## Left out

- I/O:
  - reading files and resources;
  - file-name extensions;
  - the BOM stream;
  - writing the ASS text (`toASS`, `writeStringArrayToFile`);
  - all logging. `LOGGER` calls have no effect on results.
- Foreign libraries are inputs or function parameters:
  - the kuromoji tokenizer, given as its tokens' feature arrays;
  - the SAX parser, given as the sequence of `characters`/`endElement` events it delivers;
  - SnakeYAML, given as the loaded `YamlValue`;
  - the subtitleConverter parser, given as the parsed captions and their keys;
  - `parseStyles`, given as the set of style names;
  - `LangIdV3`, given as `classify`;
  - the dictionary's lemma lookup (`search`), the tags of a match (`tagsOf`) and the ignore-tag list. The shown `JijiDictionary`, `DictionaryMatch` and `AppConfig` classes lack these members.
- The Java regex engine is not modelled:
  - the search in `colorizeCaptionWord` is an occurrence oracle `find` that reports spans inside the text;
  - `cleanCaptionText` is `clean`;
  - `cleanupSenses`' `replaceAll` is `removeMatches`.
  
  The fixed `<br\s*/?>` rewrite is modelled exactly. The search pattern `findWordRegexp` builds is modelled exactly, including its lack of escaping.
- `addStyleToText` ZOOM branch: floating point (`Float.parseFloat`, `Math.round`).
- The following `LingoesLd2Extractor` parts are not modelled:
  - `inflate`, `decompress` and `writeInputStream` (zlib);
  - the charset decoders;
  - `detectEncodings`;
  - `readDefinitionData`, whose per-definition result is the `read` parameter of `Extract`.
  
  The model follows the file up to the stream layout `readDictionary` hands to inflation, and `extract`'s loop over decoded definitions. `Helper.SEP_NEWLINE_CHAR` is not part of this model and is the parameter `sep`. `Helper.EMPTY_STRING` is taken to be `""`.
- `LingoesLd2Extractor.ByteBuffer.constructor`: does not model `ByteBuffer.allocate((int) fChannel.size())` for files of 2 GiB or more. The lemmas about the header assume at most `Integer.MAX_VALUE` bytes.
- `LingoesLd2Extractor.GetIdxData`: on failure it does not state what the array holds. Java keeps the values read before the exception.
- HashMap and HashSet iteration order:
  - where the source iterates a `HashMap` (the LD2 definitions, the Jiji YAML keys), the order is the `keys` parameter;
  - a `HashSet` of tags keeps the first occurrence of each tag in split order.
- `DictionaryLingoesLd2.SortByLength`: states the permutation and the longest-first order, not the stability of `Stream.sorted` among keys of equal length.
- `JavaLang.ParseInt`: accepts ASCII digits `0`-`9` only. `Integer.parseInt` also accepts the other Unicode decimal digits (`Character.digit`, for example Arabic-Indic or fullwidth digits), which the model rejects with a NumberFormatException. The frequency values it parses in `DictionaryEntry.getFrequency` are written with ASCII digits.
- `Captions.FreeKey`: counts keys as unbounded integers. The Java loops (`time++` in `SubtitleService.addAnnotationCaption`, `key + 1` in both `SubtitleFile` classes) wrap from `Integer.MAX_VALUE` to `Integer.MIN_VALUE`; the model returns `Integer.MAX_VALUE + 1` there. Keys are caption start times in milliseconds, far below that bound.
- `Captions.FindFreeKey`: the same unbounded counter as `Captions.FreeKey`; the 32-bit wrap-around is not modelled.
- `AppConfig.GetSubtitleStyles`: writes the definition size with plain decimal digits. `String.format("%d")` uses the default locale, whose digits (for example Arabic-Indic) can differ; the model assumes a locale with ASCII digits.
- `JavaLang.ToLower`: maps only ASCII letters; `String.toLowerCase` also maps other scripts. The JavaLang.ToUpper helper is limited to ASCII letters in the same way.
- `AnnotationService.LevelText`: the frequency glyph `(char)(0x2460 + N - 1)` is computed modulo 65536. A value that falls on a lone surrogate, which a Dafny `char` cannot hold, is written as U+FFFD.
- `Dictionary.loadLanguageTags`: reads tag files from disk.
- `JmDict.JmDictionary.constructor`: states only that every stored text starts with the style header. What each event does to the map is stated on `JmDict.Handler.EndElement` and on the `IndexEntry` lemmas.
- The constructors of `SubtitleFile` and `SubtitleService`: they start from the parsed captions. Choosing the format from the file extension and parsing the file are left out.
- `CaptionAnnotation.AnnotateSubtitleFile`: on failure it states which caption fails first, not which exception it raises. The Java loop interleaves the plan turns with the highlighting, while `CaptionOutcome` runs the whole plan before the highlighting, so the two can meet different errors first.
- `getNbCaptionAnnotated` is not modelled separately. It is the `nbCaptionAnnotated` field that `Subtitles.SubtitleFile.Annotate` states.
- The Swing workers, the GUI and `AppMain`; the three `FileManager` classes; the UDPipe parsers; `YamlConfig`/`Config`; the plain data holders. None of these belong to the annotation core.

## Findings

| source | as written | input that shows it | evidently intended | confidence | as-written member | corrected member |
|---|---|---|---|---|---|---|
| src/main/java/jijimaku/services/langparser/LangParserKuromoji.java:163 | `previousToken = idx == 0 ? null : kuroTokens.get(idx)` passes the current token as the previous one. Every dependent (非自立可能) verb or adjective after the first position then passes the "previous is a verb/adjective" test against itself and is tagged AUX. | the tokens 本 (名詞, 普通名詞) then いる (動詞, 非自立可能): いる is tagged AUX although a noun precedes it | `kuroTokens.get(idx - 1)`: いる after a noun is tagged VERB, and AUX only after a verb | not executed | LangParserKuromoji.PreviousTokenIsCurrent | LangParserKuromoji.DependentVerbAfter |
