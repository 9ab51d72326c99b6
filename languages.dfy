/**
 * The languages jijimaku knows. LangParser.Language and LanguageService.Language declare the same
 * fifty languages in the same order; they differ only in the spelling of their constant names,
 * given here by ParserName and ServiceName.
 */
module Languages {
  import opened Wrappers
  import opened JavaLang

  datatype Language =
    | AncientGreek
    | Arabic
    | Basque
    | Belarusian
    | Bulgarian
    | Catalan
    | Chinese
    | Coptic
    | Croatian
    | Czech
    | Danish
    | Dutch
    | English
    | Estonian
    | Finnish
    | French
    | Galician
    | German
    | Gothic
    | Greek
    | Hebrew
    | Hindi
    | Hungarian
    | Indonesian
    | Irish
    | Italian
    | Japanese
    | Kazakh
    | Korean
    | Latin
    | Latvian
    | Lithuanian
    | Norwegian
    | OldChurchSlavonic
    | Persian
    | Polish
    | Portuguese
    | Romanian
    | Russian
    | Sanskrit
    | Slovak
    | Slovenian
    | Spanish
    | Swedish
    | Tamil
    | Turkish
    | Ukrainian
    | Urdu
    | Uyghur
    | Vietnamese

  const LanguageCount: nat := 50

  /** Every language, in declaration order (Language.values()). */
  const AllLanguages: seq<Language> := seq(LanguageCount, i requires 0 <= i < LanguageCount => FromOrdinal(i))

  /** The constant name in LangParser.Language, e.g. "Ancient_Greek". */
  function ParserName(l: Language): string {
    match l
    case AncientGreek => "Ancient_Greek"
    case Arabic => "Arabic"
    case Basque => "Basque"
    case Belarusian => "Belarusian"
    case Bulgarian => "Bulgarian"
    case Catalan => "Catalan"
    case Chinese => "Chinese"
    case Coptic => "Coptic"
    case Croatian => "Croatian"
    case Czech => "Czech"
    case Danish => "Danish"
    case Dutch => "Dutch"
    case English => "English"
    case Estonian => "Estonian"
    case Finnish => "Finnish"
    case French => "French"
    case Galician => "Galician"
    case German => "German"
    case Gothic => "Gothic"
    case Greek => "Greek"
    case Hebrew => "Hebrew"
    case Hindi => "Hindi"
    case Hungarian => "Hungarian"
    case Indonesian => "Indonesian"
    case Irish => "Irish"
    case Italian => "Italian"
    case Japanese => "Japanese"
    case Kazakh => "Kazakh"
    case Korean => "Korean"
    case Latin => "Latin"
    case Latvian => "Latvian"
    case Lithuanian => "Lithuanian"
    case Norwegian => "Norwegian"
    case OldChurchSlavonic => "Old_Church_Slavonic"
    case Persian => "Persian"
    case Polish => "Polish"
    case Portuguese => "Portuguese"
    case Romanian => "Romanian"
    case Russian => "Russian"
    case Sanskrit => "Sanskrit"
    case Slovak => "Slovak"
    case Slovenian => "Slovenian"
    case Spanish => "Spanish"
    case Swedish => "Swedish"
    case Tamil => "Tamil"
    case Turkish => "Turkish"
    case Ukrainian => "Ukrainian"
    case Urdu => "Urdu"
    case Uyghur => "Uyghur"
    case Vietnamese => "Vietnamese"
  }

  /** The constant name in LanguageService.Language, e.g. "ANCIENT_GREEK". */
  function ServiceName(l: Language): string {
    match l
    case AncientGreek => "ANCIENT_GREEK"
    case Arabic => "ARABIC"
    case Basque => "BASQUE"
    case Belarusian => "BELARUSIAN"
    case Bulgarian => "BULGARIAN"
    case Catalan => "CATALAN"
    case Chinese => "CHINESE"
    case Coptic => "COPTIC"
    case Croatian => "CROATIAN"
    case Czech => "CZECH"
    case Danish => "DANISH"
    case Dutch => "DUTCH"
    case English => "ENGLISH"
    case Estonian => "ESTONIAN"
    case Finnish => "FINNISH"
    case French => "FRENCH"
    case Galician => "GALICIAN"
    case German => "GERMAN"
    case Gothic => "GOTHIC"
    case Greek => "GREEK"
    case Hebrew => "HEBREW"
    case Hindi => "HINDI"
    case Hungarian => "HUNGARIAN"
    case Indonesian => "INDONESIAN"
    case Irish => "IRISH"
    case Italian => "ITALIAN"
    case Japanese => "JAPANESE"
    case Kazakh => "KAZAKH"
    case Korean => "KOREAN"
    case Latin => "LATIN"
    case Latvian => "LATVIAN"
    case Lithuanian => "LITHUANIAN"
    case Norwegian => "NORWEGIAN"
    case OldChurchSlavonic => "OLD_CHURCH_SLAVONIC"
    case Persian => "PERSIAN"
    case Polish => "POLISH"
    case Portuguese => "PORTUGUESE"
    case Romanian => "ROMANIAN"
    case Russian => "RUSSIAN"
    case Sanskrit => "SANSKRIT"
    case Slovak => "SLOVAK"
    case Slovenian => "SLOVENIAN"
    case Spanish => "SPANISH"
    case Swedish => "SWEDISH"
    case Tamil => "TAMIL"
    case Turkish => "TURKISH"
    case Ukrainian => "UKRAINIAN"
    case Urdu => "URDU"
    case Uyghur => "UYGHUR"
    case Vietnamese => "VIETNAMESE"
  }

  /** The declaration index of a language (Enum.ordinal()). */
  function Ordinal(l: Language): (i: nat)
    ensures i < LanguageCount && FromOrdinal(i) == l
  {
    match l
    case AncientGreek => 0
    case Arabic => 1
    case Basque => 2
    case Belarusian => 3
    case Bulgarian => 4
    case Catalan => 5
    case Chinese => 6
    case Coptic => 7
    case Croatian => 8
    case Czech => 9
    case Danish => 10
    case Dutch => 11
    case English => 12
    case Estonian => 13
    case Finnish => 14
    case French => 15
    case Galician => 16
    case German => 17
    case Gothic => 18
    case Greek => 19
    case Hebrew => 20
    case Hindi => 21
    case Hungarian => 22
    case Indonesian => 23
    case Irish => 24
    case Italian => 25
    case Japanese => 26
    case Kazakh => 27
    case Korean => 28
    case Latin => 29
    case Latvian => 30
    case Lithuanian => 31
    case Norwegian => 32
    case OldChurchSlavonic => 33
    case Persian => 34
    case Polish => 35
    case Portuguese => 36
    case Romanian => 37
    case Russian => 38
    case Sanskrit => 39
    case Slovak => 40
    case Slovenian => 41
    case Spanish => 42
    case Swedish => 43
    case Tamil => 44
    case Turkish => 45
    case Ukrainian => 46
    case Urdu => 47
    case Uyghur => 48
    case Vietnamese => 49
  }

  /** The language declared at position i. */
  function FromOrdinal(i: nat): Language
    requires i < LanguageCount
  {
    match i
    case 0 => AncientGreek
    case 1 => Arabic
    case 2 => Basque
    case 3 => Belarusian
    case 4 => Bulgarian
    case 5 => Catalan
    case 6 => Chinese
    case 7 => Coptic
    case 8 => Croatian
    case 9 => Czech
    case 10 => Danish
    case 11 => Dutch
    case 12 => English
    case 13 => Estonian
    case 14 => Finnish
    case 15 => French
    case 16 => Galician
    case 17 => German
    case 18 => Gothic
    case 19 => Greek
    case 20 => Hebrew
    case 21 => Hindi
    case 22 => Hungarian
    case 23 => Indonesian
    case 24 => Irish
    case 25 => Italian
    case 26 => Japanese
    case 27 => Kazakh
    case 28 => Korean
    case 29 => Latin
    case 30 => Latvian
    case 31 => Lithuanian
    case 32 => Norwegian
    case 33 => OldChurchSlavonic
    case 34 => Persian
    case 35 => Polish
    case 36 => Portuguese
    case 37 => Romanian
    case 38 => Russian
    case 39 => Sanskrit
    case 40 => Slovak
    case 41 => Slovenian
    case 42 => Spanish
    case 43 => Swedish
    case 44 => Tamil
    case 45 => Turkish
    case 46 => Ukrainian
    case 47 => Urdu
    case 48 => Uyghur
    case _ => Vietnamese
  }

  /** The language declared at position i has ordinal i. */
  lemma OrdinalOfFromOrdinal(i: nat)
    requires i < LanguageCount
    ensures Ordinal(FromOrdinal(i)) == i
  {
    OrdinalOfFromOrdinalFrom(i, i / 10 * 10);
  }

  /** One block of ten ordinals, checked on its own. */
  lemma OrdinalOfFromOrdinalFrom(i: nat, lo: nat)
    requires lo <= i < lo + 10 && i < LanguageCount
    ensures Ordinal(FromOrdinal(i)) == i
  {
    if lo <= i < lo + 5 {
      assert i == lo || i == lo + 1 || i == lo + 2 || i == lo + 3 || i == lo + 4;
    } else {
      assert i == lo + 5 || i == lo + 6 || i == lo + 7 || i == lo + 8 || i == lo + 9;
    }
  }

  /** The language values() lists at position i has ordinal i. */
  lemma OrdinalOfListed(i: nat)
    requires i < |AllLanguages|
    ensures Ordinal(AllLanguages[i]) == i
  {
    OrdinalOfFromOrdinal(i);
  }

  /** Language.values() lists every language, each at its ordinal. */
  lemma AllListed(l: Language)
    ensures l in AllLanguages && AllLanguages[Ordinal(l)] == l
  {
    var i := Ordinal(l);
    assert AllLanguages[i] == FromOrdinal(i) == l;
  }

  /** The language whose ParserName has the length and the first two characters of s, if any. */
  function ParserNameKey(s: string): Option<Language> {
    if |s| < 2 then None
    else match |s|
      case 4 =>
        (match s[0]
         case 'U' => if s[1] == 'r' then Some(Urdu) else None
         case _ => None)
      case 5 =>
        (match s[0]
         case 'C' => if s[1] == 'z' then Some(Czech) else None
         case 'D' => if s[1] == 'u' then Some(Dutch) else None
         case 'G' => if s[1] == 'r' then Some(Greek) else None
         case 'H' => if s[1] == 'i' then Some(Hindi) else None
         case 'I' => if s[1] == 'r' then Some(Irish) else None
         case 'L' => if s[1] == 'a' then Some(Latin) else None
         case 'T' => if s[1] == 'a' then Some(Tamil) else None
         case _ => None)
      case 6 =>
        (match s[0]
         case 'A' => if s[1] == 'r' then Some(Arabic) else None
         case 'B' => if s[1] == 'a' then Some(Basque) else None
         case 'C' => if s[1] == 'o' then Some(Coptic) else None
         case 'D' => if s[1] == 'a' then Some(Danish) else None
         case 'F' => if s[1] == 'r' then Some(French) else None
         case 'G' => if s[1] == 'e' then Some(German) else if s[1] == 'o' then Some(Gothic) else None
         case 'H' => if s[1] == 'e' then Some(Hebrew) else None
         case 'K' => if s[1] == 'a' then Some(Kazakh) else if s[1] == 'o' then Some(Korean) else None
         case 'P' => if s[1] == 'o' then Some(Polish) else None
         case 'S' => if s[1] == 'l' then Some(Slovak) else None
         case 'U' => if s[1] == 'y' then Some(Uyghur) else None
         case _ => None)
      case 7 =>
        (match s[0]
         case 'C' => if s[1] == 'a' then Some(Catalan) else if s[1] == 'h' then Some(Chinese) else None
         case 'E' => if s[1] == 'n' then Some(English) else None
         case 'F' => if s[1] == 'i' then Some(Finnish) else None
         case 'I' => if s[1] == 't' then Some(Italian) else None
         case 'L' => if s[1] == 'a' then Some(Latvian) else None
         case 'P' => if s[1] == 'e' then Some(Persian) else None
         case 'R' => if s[1] == 'u' then Some(Russian) else None
         case 'S' => if s[1] == 'p' then Some(Spanish) else if s[1] == 'w' then Some(Swedish) else None
         case 'T' => if s[1] == 'u' then Some(Turkish) else None
         case _ => None)
      case 8 =>
        (match s[0]
         case 'C' => if s[1] == 'r' then Some(Croatian) else None
         case 'E' => if s[1] == 's' then Some(Estonian) else None
         case 'G' => if s[1] == 'a' then Some(Galician) else None
         case 'J' => if s[1] == 'a' then Some(Japanese) else None
         case 'R' => if s[1] == 'o' then Some(Romanian) else None
         case 'S' => if s[1] == 'a' then Some(Sanskrit) else None
         case _ => None)
      case 9 =>
        (match s[0]
         case 'B' => if s[1] == 'u' then Some(Bulgarian) else None
         case 'H' => if s[1] == 'u' then Some(Hungarian) else None
         case 'N' => if s[1] == 'o' then Some(Norwegian) else None
         case 'S' => if s[1] == 'l' then Some(Slovenian) else None
         case 'U' => if s[1] == 'k' then Some(Ukrainian) else None
         case _ => None)
      case 10 =>
        (match s[0]
         case 'B' => if s[1] == 'e' then Some(Belarusian) else None
         case 'I' => if s[1] == 'n' then Some(Indonesian) else None
         case 'L' => if s[1] == 'i' then Some(Lithuanian) else None
         case 'P' => if s[1] == 'o' then Some(Portuguese) else None
         case 'V' => if s[1] == 'i' then Some(Vietnamese) else None
         case _ => None)
      case 13 =>
        (match s[0]
         case 'A' => if s[1] == 'n' then Some(AncientGreek) else None
         case _ => None)
      case 19 =>
        (match s[0]
         case 'O' => if s[1] == 'l' then Some(OldChurchSlavonic) else None
         case _ => None)
      case _ => None
  }

  /** The language whose ServiceName has the length and the first two characters of s, if any. */
  function ServiceNameKey(s: string): Option<Language> {
    if |s| < 2 then None
    else match |s|
      case 4 =>
        (match s[0]
         case 'U' => if s[1] == 'R' then Some(Urdu) else None
         case _ => None)
      case 5 =>
        (match s[0]
         case 'C' => if s[1] == 'Z' then Some(Czech) else None
         case 'D' => if s[1] == 'U' then Some(Dutch) else None
         case 'G' => if s[1] == 'R' then Some(Greek) else None
         case 'H' => if s[1] == 'I' then Some(Hindi) else None
         case 'I' => if s[1] == 'R' then Some(Irish) else None
         case 'L' => if s[1] == 'A' then Some(Latin) else None
         case 'T' => if s[1] == 'A' then Some(Tamil) else None
         case _ => None)
      case 6 =>
        (match s[0]
         case 'A' => if s[1] == 'R' then Some(Arabic) else None
         case 'B' => if s[1] == 'A' then Some(Basque) else None
         case 'C' => if s[1] == 'O' then Some(Coptic) else None
         case 'D' => if s[1] == 'A' then Some(Danish) else None
         case 'F' => if s[1] == 'R' then Some(French) else None
         case 'G' => if s[1] == 'E' then Some(German) else if s[1] == 'O' then Some(Gothic) else None
         case 'H' => if s[1] == 'E' then Some(Hebrew) else None
         case 'K' => if s[1] == 'A' then Some(Kazakh) else if s[1] == 'O' then Some(Korean) else None
         case 'P' => if s[1] == 'O' then Some(Polish) else None
         case 'S' => if s[1] == 'L' then Some(Slovak) else None
         case 'U' => if s[1] == 'Y' then Some(Uyghur) else None
         case _ => None)
      case 7 =>
        (match s[0]
         case 'C' => if s[1] == 'A' then Some(Catalan) else if s[1] == 'H' then Some(Chinese) else None
         case 'E' => if s[1] == 'N' then Some(English) else None
         case 'F' => if s[1] == 'I' then Some(Finnish) else None
         case 'I' => if s[1] == 'T' then Some(Italian) else None
         case 'L' => if s[1] == 'A' then Some(Latvian) else None
         case 'P' => if s[1] == 'E' then Some(Persian) else None
         case 'R' => if s[1] == 'U' then Some(Russian) else None
         case 'S' => if s[1] == 'P' then Some(Spanish) else if s[1] == 'W' then Some(Swedish) else None
         case 'T' => if s[1] == 'U' then Some(Turkish) else None
         case _ => None)
      case 8 =>
        (match s[0]
         case 'C' => if s[1] == 'R' then Some(Croatian) else None
         case 'E' => if s[1] == 'S' then Some(Estonian) else None
         case 'G' => if s[1] == 'A' then Some(Galician) else None
         case 'J' => if s[1] == 'A' then Some(Japanese) else None
         case 'R' => if s[1] == 'O' then Some(Romanian) else None
         case 'S' => if s[1] == 'A' then Some(Sanskrit) else None
         case _ => None)
      case 9 =>
        (match s[0]
         case 'B' => if s[1] == 'U' then Some(Bulgarian) else None
         case 'H' => if s[1] == 'U' then Some(Hungarian) else None
         case 'N' => if s[1] == 'O' then Some(Norwegian) else None
         case 'S' => if s[1] == 'L' then Some(Slovenian) else None
         case 'U' => if s[1] == 'K' then Some(Ukrainian) else None
         case _ => None)
      case 10 =>
        (match s[0]
         case 'B' => if s[1] == 'E' then Some(Belarusian) else None
         case 'I' => if s[1] == 'N' then Some(Indonesian) else None
         case 'L' => if s[1] == 'I' then Some(Lithuanian) else None
         case 'P' => if s[1] == 'O' then Some(Portuguese) else None
         case 'V' => if s[1] == 'I' then Some(Vietnamese) else None
         case _ => None)
      case 13 =>
        (match s[0]
         case 'A' => if s[1] == 'N' then Some(AncientGreek) else None
         case _ => None)
      case 19 =>
        (match s[0]
         case 'O' => if s[1] == 'L' then Some(OldChurchSlavonic) else None
         case _ => None)
      case _ => None
  }


  /** ParserName can be read back from its length and first two characters. */
  lemma ParserNameKeyOf(l: Language)
    ensures ParserNameKey(ParserName(l)) == Some(l)
  {
    match l
    case AncientGreek => ParserKeyAncientGreek();
    case Arabic => ParserKeyArabic();
    case Basque => ParserKeyBasque();
    case Belarusian => ParserKeyBelarusian();
    case Bulgarian => ParserKeyBulgarian();
    case Catalan => ParserKeyCatalan();
    case Chinese => ParserKeyChinese();
    case Coptic => ParserKeyCoptic();
    case Croatian => ParserKeyCroatian();
    case Czech => ParserKeyCzech();
    case Danish => ParserKeyDanish();
    case Dutch => ParserKeyDutch();
    case English => ParserKeyEnglish();
    case Estonian => ParserKeyEstonian();
    case Finnish => ParserKeyFinnish();
    case French => ParserKeyFrench();
    case Galician => ParserKeyGalician();
    case German => ParserKeyGerman();
    case Gothic => ParserKeyGothic();
    case Greek => ParserKeyGreek();
    case Hebrew => ParserKeyHebrew();
    case Hindi => ParserKeyHindi();
    case Hungarian => ParserKeyHungarian();
    case Indonesian => ParserKeyIndonesian();
    case Irish => ParserKeyIrish();
    case Italian => ParserKeyItalian();
    case Japanese => ParserKeyJapanese();
    case Kazakh => ParserKeyKazakh();
    case Korean => ParserKeyKorean();
    case Latin => ParserKeyLatin();
    case Latvian => ParserKeyLatvian();
    case Lithuanian => ParserKeyLithuanian();
    case Norwegian => ParserKeyNorwegian();
    case OldChurchSlavonic => ParserKeyOldChurchSlavonic();
    case Persian => ParserKeyPersian();
    case Polish => ParserKeyPolish();
    case Portuguese => ParserKeyPortuguese();
    case Romanian => ParserKeyRomanian();
    case Russian => ParserKeyRussian();
    case Sanskrit => ParserKeySanskrit();
    case Slovak => ParserKeySlovak();
    case Slovenian => ParserKeySlovenian();
    case Spanish => ParserKeySpanish();
    case Swedish => ParserKeySwedish();
    case Tamil => ParserKeyTamil();
    case Turkish => ParserKeyTurkish();
    case Ukrainian => ParserKeyUkrainian();
    case Urdu => ParserKeyUrdu();
    case Uyghur => ParserKeyUyghur();
    case Vietnamese => ParserKeyVietnamese();
  }

  lemma ParserKeyAncientGreek() ensures ParserNameKey(ParserName(AncientGreek)) == Some(AncientGreek) {}
  lemma ParserKeyArabic() ensures ParserNameKey(ParserName(Arabic)) == Some(Arabic) {}
  lemma ParserKeyBasque() ensures ParserNameKey(ParserName(Basque)) == Some(Basque) {}
  lemma ParserKeyBelarusian() ensures ParserNameKey(ParserName(Belarusian)) == Some(Belarusian) {}
  lemma ParserKeyBulgarian() ensures ParserNameKey(ParserName(Bulgarian)) == Some(Bulgarian) {}
  lemma ParserKeyCatalan() ensures ParserNameKey(ParserName(Catalan)) == Some(Catalan) {}
  lemma ParserKeyChinese() ensures ParserNameKey(ParserName(Chinese)) == Some(Chinese) {}
  lemma ParserKeyCoptic() ensures ParserNameKey(ParserName(Coptic)) == Some(Coptic) {}
  lemma ParserKeyCroatian() ensures ParserNameKey(ParserName(Croatian)) == Some(Croatian) {}
  lemma ParserKeyCzech() ensures ParserNameKey(ParserName(Czech)) == Some(Czech) {}
  lemma ParserKeyDanish() ensures ParserNameKey(ParserName(Danish)) == Some(Danish) {}
  lemma ParserKeyDutch() ensures ParserNameKey(ParserName(Dutch)) == Some(Dutch) {}
  lemma ParserKeyEnglish() ensures ParserNameKey(ParserName(English)) == Some(English) {}
  lemma ParserKeyEstonian() ensures ParserNameKey(ParserName(Estonian)) == Some(Estonian) {}
  lemma ParserKeyFinnish() ensures ParserNameKey(ParserName(Finnish)) == Some(Finnish) {}
  lemma ParserKeyFrench() ensures ParserNameKey(ParserName(French)) == Some(French) {}
  lemma ParserKeyGalician() ensures ParserNameKey(ParserName(Galician)) == Some(Galician) {}
  lemma ParserKeyGerman() ensures ParserNameKey(ParserName(German)) == Some(German) {}
  lemma ParserKeyGothic() ensures ParserNameKey(ParserName(Gothic)) == Some(Gothic) {}
  lemma ParserKeyGreek() ensures ParserNameKey(ParserName(Greek)) == Some(Greek) {}
  lemma ParserKeyHebrew() ensures ParserNameKey(ParserName(Hebrew)) == Some(Hebrew) {}
  lemma ParserKeyHindi() ensures ParserNameKey(ParserName(Hindi)) == Some(Hindi) {}
  lemma ParserKeyHungarian() ensures ParserNameKey(ParserName(Hungarian)) == Some(Hungarian) {}
  lemma ParserKeyIndonesian() ensures ParserNameKey(ParserName(Indonesian)) == Some(Indonesian) {}
  lemma ParserKeyIrish() ensures ParserNameKey(ParserName(Irish)) == Some(Irish) {}
  lemma ParserKeyItalian() ensures ParserNameKey(ParserName(Italian)) == Some(Italian) {}
  lemma ParserKeyJapanese() ensures ParserNameKey(ParserName(Japanese)) == Some(Japanese) {}
  lemma ParserKeyKazakh() ensures ParserNameKey(ParserName(Kazakh)) == Some(Kazakh) {}
  lemma ParserKeyKorean() ensures ParserNameKey(ParserName(Korean)) == Some(Korean) {}
  lemma ParserKeyLatin() ensures ParserNameKey(ParserName(Latin)) == Some(Latin) {}
  lemma ParserKeyLatvian() ensures ParserNameKey(ParserName(Latvian)) == Some(Latvian) {}
  lemma ParserKeyLithuanian() ensures ParserNameKey(ParserName(Lithuanian)) == Some(Lithuanian) {}
  lemma ParserKeyNorwegian() ensures ParserNameKey(ParserName(Norwegian)) == Some(Norwegian) {}
  lemma ParserKeyOldChurchSlavonic() ensures ParserNameKey(ParserName(OldChurchSlavonic)) == Some(OldChurchSlavonic) {}
  lemma ParserKeyPersian() ensures ParserNameKey(ParserName(Persian)) == Some(Persian) {}
  lemma ParserKeyPolish() ensures ParserNameKey(ParserName(Polish)) == Some(Polish) {}
  lemma ParserKeyPortuguese() ensures ParserNameKey(ParserName(Portuguese)) == Some(Portuguese) {}
  lemma ParserKeyRomanian() ensures ParserNameKey(ParserName(Romanian)) == Some(Romanian) {}
  lemma ParserKeyRussian() ensures ParserNameKey(ParserName(Russian)) == Some(Russian) {}
  lemma ParserKeySanskrit() ensures ParserNameKey(ParserName(Sanskrit)) == Some(Sanskrit) {}
  lemma ParserKeySlovak() ensures ParserNameKey(ParserName(Slovak)) == Some(Slovak) {}
  lemma ParserKeySlovenian() ensures ParserNameKey(ParserName(Slovenian)) == Some(Slovenian) {}
  lemma ParserKeySpanish() ensures ParserNameKey(ParserName(Spanish)) == Some(Spanish) {}
  lemma ParserKeySwedish() ensures ParserNameKey(ParserName(Swedish)) == Some(Swedish) {}
  lemma ParserKeyTamil() ensures ParserNameKey(ParserName(Tamil)) == Some(Tamil) {}
  lemma ParserKeyTurkish() ensures ParserNameKey(ParserName(Turkish)) == Some(Turkish) {}
  lemma ParserKeyUkrainian() ensures ParserNameKey(ParserName(Ukrainian)) == Some(Ukrainian) {}
  lemma ParserKeyUrdu() ensures ParserNameKey(ParserName(Urdu)) == Some(Urdu) {}
  lemma ParserKeyUyghur() ensures ParserNameKey(ParserName(Uyghur)) == Some(Uyghur) {}
  lemma ParserKeyVietnamese() ensures ParserNameKey(ParserName(Vietnamese)) == Some(Vietnamese) {}

  /** Only a string longer than a code has a key. */
  lemma ServiceNameKeyLong(s: string)
    requires ServiceNameKey(s).Some?
    ensures |s| > 2
  {
  }

  /** ServiceName can be read back from its length and first two characters. */
  lemma ServiceNameKeyOf(l: Language)
    ensures ServiceNameKey(ServiceName(l)) == Some(l)
  {
    match l
    case AncientGreek => ServiceKeyAncientGreek();
    case Arabic => ServiceKeyArabic();
    case Basque => ServiceKeyBasque();
    case Belarusian => ServiceKeyBelarusian();
    case Bulgarian => ServiceKeyBulgarian();
    case Catalan => ServiceKeyCatalan();
    case Chinese => ServiceKeyChinese();
    case Coptic => ServiceKeyCoptic();
    case Croatian => ServiceKeyCroatian();
    case Czech => ServiceKeyCzech();
    case Danish => ServiceKeyDanish();
    case Dutch => ServiceKeyDutch();
    case English => ServiceKeyEnglish();
    case Estonian => ServiceKeyEstonian();
    case Finnish => ServiceKeyFinnish();
    case French => ServiceKeyFrench();
    case Galician => ServiceKeyGalician();
    case German => ServiceKeyGerman();
    case Gothic => ServiceKeyGothic();
    case Greek => ServiceKeyGreek();
    case Hebrew => ServiceKeyHebrew();
    case Hindi => ServiceKeyHindi();
    case Hungarian => ServiceKeyHungarian();
    case Indonesian => ServiceKeyIndonesian();
    case Irish => ServiceKeyIrish();
    case Italian => ServiceKeyItalian();
    case Japanese => ServiceKeyJapanese();
    case Kazakh => ServiceKeyKazakh();
    case Korean => ServiceKeyKorean();
    case Latin => ServiceKeyLatin();
    case Latvian => ServiceKeyLatvian();
    case Lithuanian => ServiceKeyLithuanian();
    case Norwegian => ServiceKeyNorwegian();
    case OldChurchSlavonic => ServiceKeyOldChurchSlavonic();
    case Persian => ServiceKeyPersian();
    case Polish => ServiceKeyPolish();
    case Portuguese => ServiceKeyPortuguese();
    case Romanian => ServiceKeyRomanian();
    case Russian => ServiceKeyRussian();
    case Sanskrit => ServiceKeySanskrit();
    case Slovak => ServiceKeySlovak();
    case Slovenian => ServiceKeySlovenian();
    case Spanish => ServiceKeySpanish();
    case Swedish => ServiceKeySwedish();
    case Tamil => ServiceKeyTamil();
    case Turkish => ServiceKeyTurkish();
    case Ukrainian => ServiceKeyUkrainian();
    case Urdu => ServiceKeyUrdu();
    case Uyghur => ServiceKeyUyghur();
    case Vietnamese => ServiceKeyVietnamese();
  }

  lemma ServiceKeyAncientGreek() ensures ServiceNameKey(ServiceName(AncientGreek)) == Some(AncientGreek) {}
  lemma ServiceKeyArabic() ensures ServiceNameKey(ServiceName(Arabic)) == Some(Arabic) {}
  lemma ServiceKeyBasque() ensures ServiceNameKey(ServiceName(Basque)) == Some(Basque) {}
  lemma ServiceKeyBelarusian() ensures ServiceNameKey(ServiceName(Belarusian)) == Some(Belarusian) {}
  lemma ServiceKeyBulgarian() ensures ServiceNameKey(ServiceName(Bulgarian)) == Some(Bulgarian) {}
  lemma ServiceKeyCatalan() ensures ServiceNameKey(ServiceName(Catalan)) == Some(Catalan) {}
  lemma ServiceKeyChinese() ensures ServiceNameKey(ServiceName(Chinese)) == Some(Chinese) {}
  lemma ServiceKeyCoptic() ensures ServiceNameKey(ServiceName(Coptic)) == Some(Coptic) {}
  lemma ServiceKeyCroatian() ensures ServiceNameKey(ServiceName(Croatian)) == Some(Croatian) {}
  lemma ServiceKeyCzech() ensures ServiceNameKey(ServiceName(Czech)) == Some(Czech) {}
  lemma ServiceKeyDanish() ensures ServiceNameKey(ServiceName(Danish)) == Some(Danish) {}
  lemma ServiceKeyDutch() ensures ServiceNameKey(ServiceName(Dutch)) == Some(Dutch) {}
  lemma ServiceKeyEnglish() ensures ServiceNameKey(ServiceName(English)) == Some(English) {}
  lemma ServiceKeyEstonian() ensures ServiceNameKey(ServiceName(Estonian)) == Some(Estonian) {}
  lemma ServiceKeyFinnish() ensures ServiceNameKey(ServiceName(Finnish)) == Some(Finnish) {}
  lemma ServiceKeyFrench() ensures ServiceNameKey(ServiceName(French)) == Some(French) {}
  lemma ServiceKeyGalician() ensures ServiceNameKey(ServiceName(Galician)) == Some(Galician) {}
  lemma ServiceKeyGerman() ensures ServiceNameKey(ServiceName(German)) == Some(German) {}
  lemma ServiceKeyGothic() ensures ServiceNameKey(ServiceName(Gothic)) == Some(Gothic) {}
  lemma ServiceKeyGreek() ensures ServiceNameKey(ServiceName(Greek)) == Some(Greek) {}
  lemma ServiceKeyHebrew() ensures ServiceNameKey(ServiceName(Hebrew)) == Some(Hebrew) {}
  lemma ServiceKeyHindi() ensures ServiceNameKey(ServiceName(Hindi)) == Some(Hindi) {}
  lemma ServiceKeyHungarian() ensures ServiceNameKey(ServiceName(Hungarian)) == Some(Hungarian) {}
  lemma ServiceKeyIndonesian() ensures ServiceNameKey(ServiceName(Indonesian)) == Some(Indonesian) {}
  lemma ServiceKeyIrish() ensures ServiceNameKey(ServiceName(Irish)) == Some(Irish) {}
  lemma ServiceKeyItalian() ensures ServiceNameKey(ServiceName(Italian)) == Some(Italian) {}
  lemma ServiceKeyJapanese() ensures ServiceNameKey(ServiceName(Japanese)) == Some(Japanese) {}
  lemma ServiceKeyKazakh() ensures ServiceNameKey(ServiceName(Kazakh)) == Some(Kazakh) {}
  lemma ServiceKeyKorean() ensures ServiceNameKey(ServiceName(Korean)) == Some(Korean) {}
  lemma ServiceKeyLatin() ensures ServiceNameKey(ServiceName(Latin)) == Some(Latin) {}
  lemma ServiceKeyLatvian() ensures ServiceNameKey(ServiceName(Latvian)) == Some(Latvian) {}
  lemma ServiceKeyLithuanian() ensures ServiceNameKey(ServiceName(Lithuanian)) == Some(Lithuanian) {}
  lemma ServiceKeyNorwegian() ensures ServiceNameKey(ServiceName(Norwegian)) == Some(Norwegian) {}
  lemma ServiceKeyOldChurchSlavonic() ensures ServiceNameKey(ServiceName(OldChurchSlavonic)) == Some(OldChurchSlavonic) {}
  lemma ServiceKeyPersian() ensures ServiceNameKey(ServiceName(Persian)) == Some(Persian) {}
  lemma ServiceKeyPolish() ensures ServiceNameKey(ServiceName(Polish)) == Some(Polish) {}
  lemma ServiceKeyPortuguese() ensures ServiceNameKey(ServiceName(Portuguese)) == Some(Portuguese) {}
  lemma ServiceKeyRomanian() ensures ServiceNameKey(ServiceName(Romanian)) == Some(Romanian) {}
  lemma ServiceKeyRussian() ensures ServiceNameKey(ServiceName(Russian)) == Some(Russian) {}
  lemma ServiceKeySanskrit() ensures ServiceNameKey(ServiceName(Sanskrit)) == Some(Sanskrit) {}
  lemma ServiceKeySlovak() ensures ServiceNameKey(ServiceName(Slovak)) == Some(Slovak) {}
  lemma ServiceKeySlovenian() ensures ServiceNameKey(ServiceName(Slovenian)) == Some(Slovenian) {}
  lemma ServiceKeySpanish() ensures ServiceNameKey(ServiceName(Spanish)) == Some(Spanish) {}
  lemma ServiceKeySwedish() ensures ServiceNameKey(ServiceName(Swedish)) == Some(Swedish) {}
  lemma ServiceKeyTamil() ensures ServiceNameKey(ServiceName(Tamil)) == Some(Tamil) {}
  lemma ServiceKeyTurkish() ensures ServiceNameKey(ServiceName(Turkish)) == Some(Turkish) {}
  lemma ServiceKeyUkrainian() ensures ServiceNameKey(ServiceName(Ukrainian)) == Some(Ukrainian) {}
  lemma ServiceKeyUrdu() ensures ServiceNameKey(ServiceName(Urdu)) == Some(Urdu) {}
  lemma ServiceKeyUyghur() ensures ServiceNameKey(ServiceName(Uyghur)) == Some(Uyghur) {}
  lemma ServiceKeyVietnamese() ensures ServiceNameKey(ServiceName(Vietnamese)) == Some(Vietnamese) {}

  /** No two languages share a LangParser constant name. */
  lemma ParserNameInjective(a: Language, b: Language)
    requires ParserName(a) == ParserName(b)
    ensures a == b
  {
    ParserNameKeyOf(a);
    ParserNameKeyOf(b);
  }

  /** No two languages share a LanguageService constant name. */
  lemma ServiceNameInjective(a: Language, b: Language)
    requires ServiceName(a) == ServiceName(b)
    ensures a == b
  {
    ServiceNameKeyOf(a);
    ServiceNameKeyOf(b);
  }

  /** Enum.valueOf over the LangParser spellings: the language with exactly this name, if any. */
  function ParserValueOf(s: string): (r: Option<Language>)
    ensures r.Some? ==> ParserName(r.value) == s
    ensures r.None? ==> forall l :: ParserName(l) != s
  {
    forall l ensures l in AllLanguages {
      AllListed(l);
    }
    NameLookup(AllLanguages, s, ParserName)
  }

  /** Enum.valueOf over the LanguageService spellings. */
  function ServiceValueOf(s: string): (r: Option<Language>)
    ensures r.Some? ==> ServiceName(r.value) == s
    ensures r.None? ==> forall l :: ServiceName(l) != s
  {
    forall l ensures l in AllLanguages {
      AllListed(l);
    }
    NameLookup(AllLanguages, s, ServiceName)
  }

  function NameLookup(ls: seq<Language>, s: string, name: Language -> string): (r: Option<Language>)
    ensures r.Some? ==> r.value in ls && name(r.value) == s
    ensures r.None? ==> forall l :: l in ls ==> name(l) != s
  {
    if |ls| == 0 then None
    else if name(ls[0]) == s then Some(ls[0])
    else NameLookup(ls[1..], s, name)
  }
}
