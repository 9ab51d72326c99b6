/**
 * A DictionaryMatch: a run of successive tokens of a caption that together match one or more
 * dictionary entries, joined with the parser's word separator.
 */
module DictionaryMatches {
  import opened Wrappers
  import opened JavaLang
  import opened LangParser
  import opened JijiDictionary

  /** The constructor stores its three arguments as given. */
  datatype DictionaryMatch = DictionaryMatch(tokens: seq<TextToken>, dictionaryEntries: seq<JijiDictionaryEntry>, wordSeparator: string)

  function TextForms(tokens: seq<TextToken>): (r: seq<string>)
    ensures |r| == |tokens| && forall i :: 0 <= i < |tokens| ==> r[i] == tokens[i].textForm
  {
    seq(|tokens|, i requires 0 <= i < |tokens| => tokens[i].textForm)
  }

  function FirstForms(tokens: seq<TextToken>): (r: seq<string>)
    ensures |r| == |tokens| && forall i :: 0 <= i < |tokens| ==> r[i] == tokens[i].firstCanonicalForm
  {
    seq(|tokens|, i requires 0 <= i < |tokens| => tokens[i].firstCanonicalForm)
  }

  function SecondForms(tokens: seq<TextToken>): (r: seq<string>)
    ensures |r| == |tokens| && forall i :: 0 <= i < |tokens| ==> r[i] == tokens[i].secondCanonicalForm
  {
    seq(|tokens|, i requires 0 <= i < |tokens| => tokens[i].secondCanonicalForm)
  }

  /** getTextForm: the tokens' text forms joined with the word separator. */
  function TextForm(m: DictionaryMatch): string {
    Join(TextForms(m.tokens), m.wordSeparator)
  }

  /** getFirstCanonicalForm. */
  function FirstCanonicalForm(m: DictionaryMatch): string {
    Join(FirstForms(m.tokens), m.wordSeparator)
  }

  /** getSecondCanonicalForm. */
  function SecondCanonicalForm(m: DictionaryMatch): string {
    Join(SecondForms(m.tokens), m.wordSeparator)
  }

  /** hasVerb: some token is tagged VERB. */
  predicate HasVerb(m: DictionaryMatch) {
    exists i :: 0 <= i < |m.tokens| && m.tokens[i].posTag == VERB
  }

  /** getFrequency: the smallest frequency among the entries that have one, null when none has. */
  function Frequency(m: DictionaryMatch): (r: Option<int>)
    ensures r.None? <==> forall i :: 0 <= i < |m.dictionaryEntries| ==> m.dictionaryEntries[i].frequency.None?
    ensures r.Some? ==> exists i :: 0 <= i < |m.dictionaryEntries| && m.dictionaryEntries[i].frequency == r
    ensures r.Some? ==> forall i :: 0 <= i < |m.dictionaryEntries| && m.dictionaryEntries[i].frequency.Some? ==>
                          r.value <= m.dictionaryEntries[i].frequency.value
  {
    MinFrequency(m.dictionaryEntries)
  }

  function MinFrequency(entries: seq<JijiDictionaryEntry>): (r: Option<int>)
    ensures r.None? <==> forall i :: 0 <= i < |entries| ==> entries[i].frequency.None?
    ensures r.Some? ==> exists i :: 0 <= i < |entries| && entries[i].frequency == r
    ensures r.Some? ==> forall i :: 0 <= i < |entries| && entries[i].frequency.Some? ==> r.value <= entries[i].frequency.value
  {
    if |entries| == 0 then None
    else
      var rest := MinFrequency(entries[1..]);
      var f := entries[0].frequency;
      var r := if f.None? then rest else if rest.None? || f.value <= rest.value then f else rest;
      r
  }

  lemma TextFormsSnoc(tokens: seq<TextToken>, t: TextToken)
    ensures TextForms(tokens + [t]) == TextForms(tokens) + [t.textForm]
  {
  }

  /** A one-token match reads exactly as its token, whatever the separator. */
  lemma SingleTokenForms(m: DictionaryMatch)
    requires |m.tokens| == 1
    ensures TextForm(m) == m.tokens[0].textForm
    ensures FirstCanonicalForm(m) == m.tokens[0].firstCanonicalForm
    ensures SecondCanonicalForm(m) == m.tokens[0].secondCanonicalForm
  {
  }

  /** Without a separator, the text form of a concatenation of token runs is the concatenation of their text forms. */
  lemma TextFormAppend(a: seq<TextToken>, b: seq<TextToken>, ents: seq<JijiDictionaryEntry>)
    ensures TextForm(DictionaryMatch(a + b, ents, "")) == TextForm(DictionaryMatch(a, ents, "")) + TextForm(DictionaryMatch(b, ents, ""))
  {
    assert TextForms(a + b) == TextForms(a) + TextForms(b);
    JoinEmptyAppend(TextForms(a), TextForms(b));
  }
}
