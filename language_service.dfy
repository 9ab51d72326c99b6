/**
 * jijimaku.services.LanguageService: the languages written without spaces, the lookup of a
 * language from an ISO 639-1 code or from its constant name, the detection of a language from a
 * file name, and the vote over classified samples.
 */
module LanguageService {
  import opened Wrappers
  import opened JavaLang
  import opened Languages

  /** LANGUAGES_WITHOUT_SPACES. */
  const LANGUAGES_WITHOUT_SPACES: seq<Language> := [Japanese, Chinese, Vietnamese]

  /** iso639Languages: the two-letter codes the class registers, 47 of the 50 languages. */
  const ISO_639_1: map<string, Language> := map[
    "ar" := Arabic, "eu" := Basque, "be" := Belarusian, "bg" := Bulgarian, "ca" := Catalan,
    "zh" := Chinese, "hr" := Croatian, "cs" := Czech, "da" := Danish, "nl" := Dutch,
    "en" := English, "et" := Estonian, "fi" := Finnish, "fr" := French, "gl" := Galician,
    "de" := German, "el" := Greek, "he" := Hebrew, "hi" := Hindi, "hu" := Hungarian,
    "id" := Indonesian, "ga" := Irish, "it" := Italian, "ja" := Japanese, "kk" := Kazakh,
    "ko" := Korean, "la" := Latin, "lv" := Latvian, "lt" := Lithuanian, "no" := Norwegian,
    "cu" := OldChurchSlavonic, "fa" := Persian, "pl" := Polish, "pt" := Portuguese,
    "ro" := Romanian, "ru" := Russian, "sa" := Sanskrit, "sk" := Slovak, "sl" := Slovenian,
    "es" := Spanish, "sv" := Swedish, "ta" := Tamil, "tr" := Turkish, "uk" := Ukrainian,
    "ur" := Urdu, "ug" := Uyghur, "vi" := Vietnamese]

  /** Every constant name is longer than a code. */
  lemma ServiceNameLength(l: Language)
    ensures |ServiceName(l)| > 2
  {
    ServiceNameKeyOf(l);
    ServiceNameKeyLong(ServiceName(l));
  }

  /** fromIso639_1: the language registered under the lower-cased code, null when there is none. */
  function FromIso639(code: string): (r: Option<Language>)
    ensures r.Some? <==> ToLower(code) in ISO_639_1
    ensures r.Some? ==> r.value == ISO_639_1[ToLower(code)]
  {
    var key := ToLower(code);
    if key in ISO_639_1 then Some(ISO_639_1[key]) else None
  }

  /**
   * getLanguageFromStr: a string of length 2 is an ISO 639-1 code whatever its case; any other
   * string, with spaces turned into underscores and upper-cased, is looked up as a constant
   * name. A miss is null in both cases.
   */
  function GetLanguageFromStr(s: string): (r: Option<Language>)
    ensures Utf16Length(s) == 2 ==> r == FromIso639(s)
    ensures Utf16Length(s) != 2 ==> (r.Some? <==> exists l :: ServiceName(l) == ToUpper(ReplaceChar(s, ' ', '_')))
    ensures Utf16Length(s) != 2 && r.Some? ==> ServiceName(r.value) == ToUpper(ReplaceChar(s, ' ', '_'))
  {
    if Utf16Length(s) == 2 then FromIso639(s)
    else ServiceValueOf(ToUpper(ReplaceChar(s, ' ', '_')))
  }

  /**
   * Any spelling that becomes a constant name once its spaces are underscores and its letters
   * capitals names that language: "ancient greek", "Japanese", "ENGLISH".
   */
  lemma ConstantNameSpelling(s: string, l: Language)
    requires ToUpper(ReplaceChar(s, ' ', '_')) == ServiceName(l)
    ensures GetLanguageFromStr(s) == Some(l)
  {
    ServiceNameLength(l);
    var r := GetLanguageFromStr(s);
    ServiceNameInjective(r.value, l);
  }

  /** Codes are read whatever their case. */
  lemma IsoCodeExamples()
    ensures GetLanguageFromStr("ja") == Some(Japanese)
    ensures GetLanguageFromStr("JA") == Some(Japanese)
    ensures GetLanguageFromStr("Fr") == Some(French)
  {
    Utf16LengthTwo("ja");
    Utf16LengthTwo("JA");
    Utf16LengthTwo("Fr");
    assert ToLower("ja") == "ja";
    assert ToLower("JA") == "ja";
    assert ToLower("Fr") == "fr";
  }

  lemma Utf16LengthTwo(s: string)
    requires |s| == 2 && s[0] as int <= 0xFFFF && s[1] as int <= 0xFFFF
    ensures Utf16Length(s) == 2
  {
    assert s[..1][..0] == [];
    assert s[..1] == [s[0]];
  }

  // ---------------------------------------------------------------- detection from a file name

  /** Where the lower-cased name of l first occurs in the lower-cased file name, -1 if nowhere. */
  function NameIndex(filename: string, l: Language): int {
    IndexOf(ToLower(filename), ToLower(ServiceName(l)))
  }

  /** A found name starts strictly before the end of the file name. */
  lemma NameIndexBelowLength(filename: string, l: Language)
    ensures NameIndex(filename, l) < |filename|
  {
    ServiceNameLength(l);
  }

  /**
   * detectFromFilename: the language whose lower-case name occurs earliest in the lower-cased
   * file name, the earlier-declared one on a tie, and null when no name occurs. Positions are
   * counted in characters.
   */
  method DetectFromFilename(filename: string) returns (detected: Option<Language>)
    ensures detected.None? <==> forall l :: NameIndex(filename, l) == -1
    ensures detected.Some? ==> NameIndex(filename, detected.value) >= 0
    ensures detected.Some? ==> forall l :: NameIndex(filename, l) >= 0 ==>
              NameIndex(filename, detected.value) < NameIndex(filename, l)
              || (NameIndex(filename, detected.value) == NameIndex(filename, l) && Ordinal(detected.value) <= Ordinal(l))
  {
    forall l
      ensures NameIndex(filename, l) < |filename|
    {
      NameIndexBelowLength(filename, l);
    }
    ghost var at;
    detected, at := ScanNames(AllLanguages, l => NameIndex(filename, l), |filename|);
    if detected.Some? {
      OrdinalOfListed(at);
    }
    EarliestOverAll(filename, detected, at);
  }

  /**
   * The loop of detectFromFilename over the languages in the order given, with position(l) where
   * the name of l occurs (negative when it does not) and end the length of the file name: a
   * language replaces the one detected so far only when its name occurs strictly earlier.
   */
  method ScanNames(languages: seq<Language>, position: Language -> int, end: int) returns (detected: Option<Language>, ghost at: nat)
    requires forall l :: position(l) < end
    ensures detected.None? ==> forall j :: 0 <= j < |languages| ==> position(languages[j]) < 0
    ensures detected.Some? ==> at < |languages| && detected.value == languages[at] && position(detected.value) >= 0
    ensures detected.Some? ==> forall j :: 0 <= j < |languages| && position(languages[j]) >= 0 ==>
              position(detected.value) < position(languages[j]) || (position(detected.value) == position(languages[j]) && at <= j)
  {
    detected := None;
    at := 0;
    var detectedIndex := end;
    var i := 0;
    while i < |languages|
      invariant 0 <= i <= |languages|
      invariant detected.None? ==> detectedIndex == end
      invariant detected.None? ==> forall j :: 0 <= j < i ==> position(languages[j]) < 0
      invariant detected.Some? ==> at < i && detected.value == languages[at]
      invariant detected.Some? ==> detectedIndex == position(detected.value) >= 0
      invariant detected.Some? ==> forall j :: 0 <= j < i && position(languages[j]) >= 0 ==>
                  detectedIndex < position(languages[j]) || (detectedIndex == position(languages[j]) && at <= j)
    {
      var lang := languages[i];
      var langIndex := position(lang);
      if langIndex >= 0 && langIndex < detectedIndex {
        detected := Some(lang);
        detectedIndex := langIndex;
        at := i;
      }
      i := i + 1;
    }
  }

  /** The scan over values() speaks of every language, each at its ordinal. */
  lemma EarliestOverAll(filename: string, detected: Option<Language>, at: nat)
    requires detected.None? ==> forall j :: 0 <= j < |AllLanguages| ==> NameIndex(filename, AllLanguages[j]) < 0
    requires detected.Some? ==> Ordinal(detected.value) == at
    requires detected.Some? ==> forall j :: 0 <= j < |AllLanguages| && NameIndex(filename, AllLanguages[j]) >= 0 ==>
               NameIndex(filename, detected.value) < NameIndex(filename, AllLanguages[j])
               || (NameIndex(filename, detected.value) == NameIndex(filename, AllLanguages[j]) && at <= j)
    ensures detected.None? ==> forall l :: NameIndex(filename, l) == -1
    ensures detected.Some? ==> forall l :: NameIndex(filename, l) >= 0 ==>
              NameIndex(filename, detected.value) < NameIndex(filename, l)
              || (NameIndex(filename, detected.value) == NameIndex(filename, l) && Ordinal(detected.value) <= Ordinal(l))
  {
    forall l
      ensures detected.None? ==> NameIndex(filename, l) == -1
      ensures detected.Some? && NameIndex(filename, l) >= 0 ==>
                NameIndex(filename, detected.value) < NameIndex(filename, l)
                || (NameIndex(filename, detected.value) == NameIndex(filename, l) && Ordinal(detected.value) <= Ordinal(l))
    {
      AllListed(l);
    }
  }

  // ---------------------------------------------------------------- detection from samples

  /** How many of the classified codes are c. */
  function Votes(codes: seq<string>, c: string): nat
    ensures Votes(codes, c) <= |codes|
  {
    if |codes| == 0 then 0
    else Votes(codes[..|codes| - 1], c) + (if codes[|codes| - 1] == c then 1 else 0)
  }

  /** Two different codes share the votes: together they have at most one per sample. */
  lemma {:induction false} VotesOfTwo(codes: seq<string>, a: string, b: string)
    requires a != b
    ensures Votes(codes, a) + Votes(codes, b) <= |codes|
  {
    if |codes| > 0 {
      VotesOfTwo(codes[..|codes| - 1], a, b);
    }
  }

  /** A code with a vote from all the samples but at most one (and at least one vote). */
  predicate Qualifies(codes: seq<string>, c: string) {
    Votes(codes, c) > 0 && Votes(codes, c) >= |codes| - 1
  }

  /** The first code, in the given order, that qualifies. */
  function FirstQualifying(order: seq<string>, codes: seq<string>): (r: Option<string>)
    ensures r.Some? ==> r.value in order && Qualifies(codes, r.value)
    ensures r.None? <==> forall c :: c in order ==> !Qualifies(codes, c)
  {
    if |order| == 0 then None
    else if Qualifies(codes, order[0]) then Some(order[0])
    else FirstQualifying(order[1..], codes)
  }

  /**
   * With three samples or more at most one code qualifies, so the result does not depend on the
   * order in which the counts are visited.
   */
  lemma FirstQualifyingOrderFree(order1: seq<string>, order2: seq<string>, codes: seq<string>)
    requires |codes| >= 3
    requires forall c :: c in codes ==> c in order1 && c in order2
    ensures FirstQualifying(order1, codes) == FirstQualifying(order2, codes)
  {
    var r1 := FirstQualifying(order1, codes);
    var r2 := FirstQualifying(order2, codes);
    if r1.Some? && r2.Some? && r1.value != r2.value {
      VotesOfTwo(codes, r1.value, r2.value);
    }
    if r1.Some? && r2.None? {
      VotesInCodes(codes, r1.value);
    }
    if r1.None? && r2.Some? {
      VotesInCodes(codes, r2.value);
    }
  }

  lemma {:induction false} VotesInCodes(codes: seq<string>, c: string)
    requires Votes(codes, c) > 0
    ensures c in codes
  {
    if codes[|codes| - 1] != c {
      VotesInCodes(codes[..|codes| - 1], c);
    }
  }

  /** The classifier's code for each sample, in order. */
  function Classify(samples: seq<string>, classify: string -> string): (r: seq<string>)
    ensures |r| == |samples| && forall i :: 0 <= i < |samples| ==> r[i] == classify(samples[i])
  {
    seq(|samples|, i requires 0 <= i < |samples| => classify(samples[i]))
  }

  /**
   * detectFromList: every sample is classified and the codes counted; visiting the counts in the
   * given order, the first code voted by all the samples but at most one gives the result
   * (getLanguageFromStr of it, which may be null); null when none qualifies.
   */
  method DetectFromList(samples: seq<string>, classify: string -> string, order: seq<string>) returns (r: Option<Language>)
    ensures var q := FirstQualifying(order, Classify(samples, classify));
            r == if q.Some? then GetLanguageFromStr(q.value) else None
  {
    var codes := Classify(samples, classify);
    var i := 0;
    while i < |order|
      invariant 0 <= i <= |order|
      invariant FirstQualifying(order[i..], codes) == FirstQualifying(order, codes)
    {
      assert order[i..][1..] == order[i + 1..];
      if Votes(codes, order[i]) > 0 && Votes(codes, order[i]) >= |samples| - 1 {
        return GetLanguageFromStr(order[i]);
      }
      i := i + 1;
    }
    return None;
  }
}
