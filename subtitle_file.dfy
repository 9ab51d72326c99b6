/**
 * jijimaku.utils.SubtitleFile: a parsed subtitle file walked caption by caption, whose current
 * caption can get one word highlighted and a definition caption attached, plus the pure ASS
 * helpers it offers (colour conversion, style tags, the line-break tolerant search pattern).
 */
module Subtitles {
  import opened Wrappers
  import opened JavaLang
  import opened Captions

  const JIJIMAKU_SIGNATURE: string := "ANNOTATED-BY-JIJIMAKU"
  const DEFAULT_STYLE: string := "Default"
  const DEFINITION_STYLE: string := "Definition"
  /** The ASS tag closing every style this class opens. */
  const RESET_TAG: string := "{\\r}"
  /** The optional line break the empty-separator search pattern allows after each character. */
  const BR_GAP: string := "(?:<br />)*"
  /** What a space of the expression becomes in the space-separator search pattern. */
  const SPACE_GAP: string := "(?:\\s|<br />)*"
  /** The text of the Jijimaku mark up to the dictionary title, as the source file spells it. */
  const MARK_PREFIX: string := "\U{00E2}\U{02DC}\U{2026} Definitions by {\\c&AAAAFF&}{\\b1}JIJIMAKU{\\r} using {\\c&FFAAAA&}"

  // ---------------------------------------------------------------- colours and styles

  /**
   * htmlColorToAss: "#RRGGBB" becomes "BBGGRR" (col.substring(5,7) + substring(3,5) +
   * substring(1,3)); a string shorter than 7 is a StringIndexOutOfBoundsException.
   */
  function HtmlColorToAss(col: string): (r: Result<string, Error>)
    ensures r.Failure? <==> |col| < 7
    ensures r.Failure? ==> r.error == IndexOutOfBounds
    ensures r.Success? ==> |r.value| == 6
  {
    if |col| < 7 then Failure(IndexOutOfBounds)
    else Success(col[5..7] + col[3..5] + col[1..3])
  }

  /** Converting twice swaps the channels back: BGR of BGR is the original RGB digits. */
  lemma HtmlColorToAssTwice(col: string)
    requires |col| >= 7
    ensures HtmlColorToAss("#" + HtmlColorToAss(col).value) == Success(col[1..7])
  {
    var bgr := col[5..7] + col[3..5] + col[1..3];
    var again := "#" + bgr;
    assert again[5..7] == col[1..3];
    assert again[3..5] == col[3..5];
    assert again[1..3] == col[5..7];
    assert col[1..7] == col[1..3] + col[3..5] + col[5..7];
  }

  /** The styles addStyleToText offers; ZOOM (a floating-point zoom) is not part of this model. */
  datatype TextStyle = BOLD | COLOR

  /** The ASS tag addStyleToText opens with; COLOR needs an HTML colour as its parameter. */
  function OpeningTag(style: TextStyle, param: Option<string>): (r: Result<string, Error>)
    ensures style == BOLD ==> r == Success("{\\b1}")
    ensures style == COLOR ==> (r.Success? <==> param.Some? && |param.value| >= 7)
  {
    match style
    case BOLD => Success("{\\b1}")
    case COLOR =>
      if param.None? then Failure(NullPointer)
      else
        var ass :- HtmlColorToAss(param.value);
        Success("{\\c&" + ass + "&}")
  }

  /**
   * addStyleToText: the text between the style's opening tag and {\r}. A COLOR without a colour
   * is a NullPointerException, one with a short colour a StringIndexOutOfBoundsException.
   */
  function AddStyleToText(str: string, style: TextStyle, param: Option<string>): (r: Result<string, Error>)
    ensures r.Success? <==> OpeningTag(style, param).Success?
    ensures r.Success? ==> |r.value| == |OpeningTag(style, param).value| + |str| + |RESET_TAG|
    ensures r.Success? ==> Unstyled(r.value, |OpeningTag(style, param).value|) == str
    ensures style == COLOR && r.Success? ==> r.value[4..10] == HtmlColorToAss(param.value).value
  {
    var open :- OpeningTag(style, param);
    var r := open + str + RESET_TAG;
    assert r[|open|..|r| - |RESET_TAG|] == str;
    Success(r)
  }

  /** The text of a styled string: drop an opening tag of the given length and the trailing {\r}. */
  function Unstyled(styled: string, openLength: nat): string
    requires openLength + |RESET_TAG| <= |styled|
  {
    styled[openLength..|styled| - |RESET_TAG|]
  }

  // ---------------------------------------------------------------- the search pattern

  /** A character the regex `.` does not match: the line terminators. */
  predicate IsLineTerminator(c: char) {
    c == '\n' || c == '\r' || c == '\U{0085}' || c == '\U{2028}' || c == '\U{2029}'
  }

  /**
   * Where `$` (without MULTILINE) matches in s: at the end, before a final line terminator (but
   * not between \r and \n), or before a final \r\n.
   */
  predicate DollarAt(s: string, p: nat) {
    p == |s|
    || (p + 1 == |s| && IsLineTerminator(s[p]) && !(s[p] == '\n' && p > 0 && s[p - 1] == '\r'))
    || (p + 2 == |s| && s[p] == '\r' && s[p + 1] == '\n')
  }

  /** What replaceAll("(.(?!$))", "$1(?:<br />)*") does at position i of s. */
  function BrPiece(s: string, i: nat): string
    requires i < |s|
  {
    if !IsLineTerminator(s[i]) && !DollarAt(s, i + 1) then [s[i]] + BR_GAP else [s[i]]
  }

  /** The rewrite of s from position i on. */
  function BrTolerantFrom(s: string, i: nat): string
    requires i <= |s|
    decreases |s| - i
  {
    if i == |s| then "" else BrPiece(s, i) + BrTolerantFrom(s, i + 1)
  }

  /** The characters of s as one-character strings. */
  function Chars(s: string): (r: seq<string>)
    ensures |r| == |s| && forall i :: 0 <= i < |s| ==> r[i] == [s[i]]
  {
    seq(|s|, i requires 0 <= i < |s| => [s[i]])
  }

  /**
   * On an expression without line terminators the empty-separator pattern is the expression
   * with (?:<br />)* between every two characters, and after none but those.
   */
  lemma BrTolerantJoin(s: string)
    requires forall i :: 0 <= i < |s| ==> !IsLineTerminator(s[i])
    ensures BrTolerantFrom(s, 0) == Join(Chars(s), BR_GAP)
  {
    BrTolerantSuffix(s, 0);
    assert s[0..] == s;
  }

  lemma {:induction false} BrTolerantSuffix(s: string, i: nat)
    requires i <= |s|
    requires forall j :: 0 <= j < |s| ==> !IsLineTerminator(s[j])
    ensures BrTolerantFrom(s, i) == Join(Chars(s[i..]), BR_GAP)
    decreases |s| - i
  {
    if i < |s| {
      BrTolerantSuffix(s, i + 1);
      var cs := Chars(s[i..]);
      assert cs[1..] == Chars(s[i + 1..]);
      if i + 1 == |s| {
        assert BrPiece(s, i) == [s[i]];
      } else {
        assert !DollarAt(s, i + 1);
      }
    }
  }

  /**
   * findWordRegexp: with the empty separator, allow a <br /> after every character but the last;
   * with a space separator, match at word boundaries and let every space stretch over blanks and
   * <br /> tags; any other separator is a JijimakuError.
   */
  function FindWordRegexp(expression: string, wordSeparator: string): (r: Result<string, Error>)
    ensures r.Failure? <==> wordSeparator != "" && wordSeparator != " "
    ensures r.Failure? ==> r.error == JijimakuError
    ensures wordSeparator == " " ==> r == Success("\\b" + ReplaceAll(expression, " ", SPACE_GAP) + "\\b")
  {
    if wordSeparator == "" then Success(BrTolerantFrom(expression, 0))
    else if wordSeparator == " " then Success("\\b" + ReplaceAll(expression, " ", SPACE_GAP) + "\\b")
    else Failure(JijimakuError)
  }

  /** A single word (no space) is searched for as itself between word boundaries. */
  lemma FindWordRegexpOneWord(expression: string)
    requires !Contains(expression, " ")
    ensures FindWordRegexp(expression, " ") == Success("\\b" + expression + "\\b")
  {
    ReplaceAllAbsent(expression, " ", SPACE_GAP);
  }

  // ---------------------------------------------------------------- highlighting

  /** A match of the search pattern: the characters start..end of the searched text. */
  datatype Span = Span(start: nat, end: nat)

  /** The matches a regex search reports lie inside the searched text. */
  predicate SpansWithin(found: Result<seq<Span>, Error>, text: string) {
    found.Success? ==> forall i :: 0 <= i < |found.value| ==> found.value[i].start <= found.value[i].end <= |text|
  }

  /** The content with the start tag inserted before the match and {\r} after it. */
  function Highlight(content: string, m: Span, startStyle: string): (r: string)
    requires m.start <= m.end <= |content|
    ensures |r| == |content| + |startStyle| + |RESET_TAG|
    ensures r[m.start..m.start + |startStyle|] == startStyle
    ensures r[m.end + |startStyle|..m.end + |startStyle| + |RESET_TAG|] == RESET_TAG
  {
    content[..m.start] + startStyle + content[m.start..m.end] + RESET_TAG + content[m.end..]
  }

  /** Highlighting only inserts: removing the two tags gives back the content. */
  lemma HighlightRemovable(content: string, m: Span, startStyle: string)
    requires m.start <= m.end <= |content|
    ensures var r := Highlight(content, m, startStyle);
            r[..m.start] + r[m.start + |startStyle|..m.end + |startStyle|] + r[m.end + |startStyle| + |RESET_TAG|..] == content
  {
    var r := Highlight(content, m, startStyle);
    var k := |startStyle|;
    assert r[..m.start] == content[..m.start];
    assert r[m.start + k..m.end + k] == content[m.start..m.end];
    assert r[m.end + k + |RESET_TAG|..] == content[m.end..];
    assert content == content[..m.start] + content[m.start..m.end] + content[m.end..];
  }

  /**
   * What colorizeCaptionWord makes of a caption's content, given the regex search `find`: an
   * unchanged content when the word is not found or is found more than once, else the content
   * with the one occurrence highlighted.
   */
  function Colorized(content: string, expression: string, htmlHexColor: string, wordSeparator: string,
                     find: (string, string) -> Result<seq<Span>, Error>): (r: Result<string, Error>)
    requires forall p, t :: SpansWithin(find(p, t), t)
    ensures FindWordRegexp(expression, wordSeparator).Failure? ==> r.Failure?
    ensures r.Success? && r.value != content ==>
              FindWordRegexp(expression, wordSeparator).Success?
              && var found := find(FindWordRegexp(expression, wordSeparator).value, content);
              found.Success? && |found.value| == 1 && |htmlHexColor| >= 7
              && found.value[0].start <= found.value[0].end <= |content|
              && r.value == Highlight(content, found.value[0], "{\\c&" + HtmlColorToAss(htmlHexColor).value + "&}")
  {
    var re :- FindWordRegexp(expression, wordSeparator);
    var found :- find(re, content);
    assert SpansWithin(find(re, content), content);
    if |found| == 0 then Success(content)
    else
      var ass :- HtmlColorToAss(htmlHexColor);
      if |found| >= 2 then Success(content)
      else Success(Highlight(content, found[0], "{\\c&" + ass + "&}"))
  }

  /** With exactly one occurrence, the highlight inserts the colour tag and {\r} and nothing else. */
  lemma ColorizedOnce(content: string, expression: string, htmlHexColor: string, wordSeparator: string,
                      find: (string, string) -> Result<seq<Span>, Error>)
    requires forall p, t :: SpansWithin(find(p, t), t)
    requires FindWordRegexp(expression, wordSeparator).Success?
    requires find(FindWordRegexp(expression, wordSeparator).value, content).Success?
    requires |find(FindWordRegexp(expression, wordSeparator).value, content).value| == 1
    requires |htmlHexColor| >= 7
    ensures var m := find(FindWordRegexp(expression, wordSeparator).value, content).value[0];
            var r := Colorized(content, expression, htmlHexColor, wordSeparator, find);
            r.Success? && |r.value| == |content| + 16
            && r.value[m.start..m.start + 12] == "{\\c&" + HtmlColorToAss(htmlHexColor).value + "&}"
            && r.value[..m.start] + r.value[m.start + 12..m.end + 12] + r.value[m.end + 16..] == content
  {
    var re := FindWordRegexp(expression, wordSeparator).value;
    var m := find(re, content).value[0];
    assert m.start <= m.end <= |content| by {
      assert SpansWithin(find(re, content), content);
    }
    var style := "{\\c&" + HtmlColorToAss(htmlHexColor).value + "&}";
    assert |style| == 12;
    assert Colorized(content, expression, htmlHexColor, wordSeparator, find) == Success(Highlight(content, m, style));
    HighlightRemovable(content, m, style);
  }

  /** With no occurrence, or with several, the content stays as it is. */
  lemma ColorizedUnchanged(content: string, expression: string, htmlHexColor: string, wordSeparator: string,
                           find: (string, string) -> Result<seq<Span>, Error>)
    requires forall p, t :: SpansWithin(find(p, t), t)
    requires FindWordRegexp(expression, wordSeparator).Success?
    requires find(FindWordRegexp(expression, wordSeparator).value, content).Success?
    requires |find(FindWordRegexp(expression, wordSeparator).value, content).value| != 1
    requires |htmlHexColor| >= 7
    ensures Colorized(content, expression, htmlHexColor, wordSeparator, find) == Success(content)
  {
  }

  /** isJijimakuFile: the file contents contain the signature written into annotated files. */
  predicate IsJijimakuFile(fileContents: string) {
    Contains(fileContents, JIJIMAKU_SIGNATURE)
  }

  /** Any text with the signature inside reads as a Jijimaku file. */
  lemma SignedIsJijimakuFile(before: string, after: string)
    ensures IsJijimakuFile(before + JIJIMAKU_SIGNATURE + after)
  {
    assert OccursAt(before + JIJIMAKU_SIGNATURE + after, JIJIMAKU_SIGNATURE, |before|);
  }

  // ---------------------------------------------------------------- the subtitle file

  class SubtitleFile {
    /** timedText.captions, a TreeMap from start time to caption. */
    var captions: map<int, Caption>
    var annotationCaptions: map<int, Caption>
    /** The caption keys in the ascending order the caption iterator walks them. */
    var order: seq<int>
    /** How many captions the iterator has handed out. */
    var pos: nat
    /** The key of currentCaption, None before the first nextCaption. */
    var current: Option<int>
    var nbCaptionAnnotated: int
    /** The names of the styles parsed from the configured styles text. */
    const styles: set<string>

    ghost predicate Valid()
      reads this
    {
      (forall i, j :: 0 <= i < j < |order| ==> order[i] < order[j])
      && (forall k :: k in captions <==> k in order)
      && pos <= |order|
      && (current.Some? <==> pos > 0)
      && (pos > 0 ==> current.value == order[pos - 1] && current.value in captions)
    }

    /**
     * The constructor, given the names of the styles parseStyles read from the configured
     * styles text, the captions the subtitle parser produced and their keys in ascending order:
     * every caption gets the Default style (null when the styles lack it), nothing is annotated
     * yet and the iterator is at the start.
     */
    constructor(styles: set<string>, parsed: map<int, Caption>, keys: seq<int>)
      requires forall i, j :: 0 <= i < j < |keys| ==> keys[i] < keys[j]
      requires forall k :: k in parsed <==> k in keys
      ensures Valid()
      ensures this.styles == styles && captions.Keys == parsed.Keys
      ensures forall k :: k in parsed ==> captions[k] == parsed[k].(style := StyleOf(styles, DEFAULT_STYLE))
      ensures annotationCaptions == map[] && nbCaptionAnnotated == 0 && order == keys && pos == 0
    {
      this.styles := styles;
      captions := map k | k in parsed :: parsed[k].(style := StyleOf(styles, DEFAULT_STYLE));
      order := keys;
      annotationCaptions := map[];
      pos := 0;
      current := None;
      nbCaptionAnnotated := 0;
    }

    /** hasNext. */
    predicate HasNext()
      reads this
    {
      pos < |order|
    }

    /** nextCaption: advance to the next caption and return its content; past the end, NoSuchElementException. */
    method NextCaption() returns (r: Result<string, Error>)
      requires Valid()
      modifies this
      ensures Valid()
      ensures old(pos) == |order| ==> r == Failure(NoSuchElement) && unchanged(this)
      ensures old(pos) < |order| ==>
                pos == old(pos) + 1 && current == Some(order[old(pos)])
                && r == Success(captions[order[old(pos)]].content)
      ensures captions == old(captions) && annotationCaptions == old(annotationCaptions)
      ensures order == old(order) && nbCaptionAnnotated == old(nbCaptionAnnotated)
    {
      if pos == |order| {
        return Failure(NoSuchElement);
      }
      assert order[pos] in order;
      current := Some(order[pos]);
      pos := pos + 1;
      r := Success(captions[current.value].content);
    }

    /**
     * colorizeCaptionWord: highlight the expression in the current caption when the search
     * pattern finds it exactly once. No current caption is a NullPointerException; a pattern the
     * regex compiler refuses, or an unsupported separator, fails.
     */
    method ColorizeCaptionWord(expression: string, htmlHexColor: string, wordSeparator: string,
                               find: (string, string) -> Result<seq<Span>, Error>)
      returns (r: Result<(), Error>)
      requires Valid()
      requires forall p, t :: SpansWithin(find(p, t), t)
      modifies this
      ensures Valid()
      ensures current == old(current)
      ensures current.None? ==> r == Failure(NullPointer) && unchanged(this)
      ensures current.Some? ==>
                var c := Colorized(old(captions)[current.value].content, expression, htmlHexColor, wordSeparator, find);
                (r.Success? <==> c.Success?)
                && (c.Success? ==> captions == old(captions)[current.value := old(captions)[current.value].(content := c.value)])
                && (c.Failure? ==> captions == old(captions))
      ensures annotationCaptions == old(annotationCaptions) && order == old(order) && pos == old(pos)
      ensures nbCaptionAnnotated == old(nbCaptionAnnotated)
    {
      if current.None? {
        return Failure(NullPointer);
      }
      var key := current.value;
      var content := captions[key].content;
      var findWordRe := FindWordRegexp(expression, wordSeparator);
      if findWordRe.Failure? {
        return Failure(findWordRe.error);
      }
      var found := find(findWordRe.value, content);
      if found.Failure? {
        return Failure(found.error);
      }
      assert SpansWithin(find(findWordRe.value, content), content);
      if |found.value| == 0 {
        return Success(());
      }
      var ass := HtmlColorToAss(htmlHexColor);
      if ass.Failure? {
        return Failure(ass.error);
      }
      var startStyle := "{\\c&" + ass.value + "&}";
      var highlighted := Highlight(content, found.value[0], startStyle);
      if |found.value| >= 2 {
        return Success(());
      }
      captions := captions[key := captions[key].(content := highlighted)];
      return Success(());
    }

    /**
     * addJijimakuMark: unless the first caption starts at time 0, put the mark caption (read
     * from the JijimakuMark.ass resource; None when reading it failed) at key 0, its content
     * naming the dictionary. An empty caption map is a NoSuchElementException.
     */
    method AddJijimakuMark(dictionaryTitle: string, mark: Option<Caption>) returns (r: Result<(), Error>)
      requires Valid()
      modifies this
      ensures Valid()
      ensures |order| == 0 ==> r == Failure(NoSuchElement)
      ensures |order| > 0 ==> r.Success?
      ensures |order| > 0 && order[0] != 0 && mark.Some? ==>
                annotationCaptions == old(annotationCaptions)[0 := mark.value.(content := MARK_PREFIX + dictionaryTitle + RESET_TAG)]
      ensures |order| == 0 || order[0] == 0 || mark.None? ==> annotationCaptions == old(annotationCaptions)
      ensures captions == old(captions) && order == old(order) && pos == old(pos) && current == old(current)
      ensures nbCaptionAnnotated == old(nbCaptionAnnotated)
    {
      if |order| == 0 {
        return Failure(NoSuchElement);
      }
      var firstCaptionTimeMs := order[0];
      if firstCaptionTimeMs == 0 {
        return Success(());
      }
      if mark.Some? {
        annotationCaptions := annotationCaptions[0 := mark.value.(content := MARK_PREFIX + dictionaryTitle + RESET_TAG)];
      }
      return Success(());
    }

    /**
     * annotate: attach the lines, joined with a literal \N, as one caption in the Definition
     * style (null when the styles lack it) with the current caption's times, under the first free key after the current caption's key. No
     * lines: nothing happens; lines but no current caption: NullPointerException.
     */
    method Annotate(annotations: seq<string>) returns (r: Result<(), Error>)
      requires Valid()
      modifies this
      ensures Valid()
      ensures |annotations| == 0 ==> r == Success(()) && unchanged(this)
      ensures |annotations| > 0 && current.None? ==> r == Failure(NullPointer) && unchanged(this)
      ensures |annotations| > 0 && current.Some? ==>
                var key := FreeKey(current.value + 1, captions.Keys, old(annotationCaptions).Keys);
                var cur := captions[current.value];
                r.Success?
                && annotationCaptions == old(annotationCaptions)[key := Caption(StyleOf(styles, DEFINITION_STYLE), cur.start, cur.end, Join(annotations, "\\N"))]
                && nbCaptionAnnotated == old(nbCaptionAnnotated) + 1
      ensures captions == old(captions) && order == old(order) && pos == old(pos) && current == old(current)
    {
      if |annotations| == 0 {
        return Success(());
      }
      if current.None? {
        return Failure(NullPointer);
      }
      var time := FindFreeKey(current.value + 1, captions.Keys, annotationCaptions.Keys);
      var cur := captions[current.value];
      annotationCaptions := annotationCaptions[time := Caption(StyleOf(styles, DEFINITION_STYLE), cur.start, cur.end, Join(annotations, "\\N"))];
      nbCaptionAnnotated := nbCaptionAnnotated + 1;
      return Success(());
    }

    /** toAssFormat: merge the annotation captions into the caption map (the ASS text itself is not modelled). */
    method ToAssFormat() returns (merged: map<int, Caption>)
      modifies this
      ensures captions == Merge(old(captions), annotationCaptions) && merged == captions
      ensures annotationCaptions == old(annotationCaptions) && nbCaptionAnnotated == old(nbCaptionAnnotated)
    {
      captions := Merge(captions, annotationCaptions);
      merged := captions;
    }
  }

  /** An annotation never lands on a key that is already used, so no caption is overwritten. */
  lemma AnnotationKeyFresh(captionKeys: set<int>, annotationKeys: set<int>, currentKey: int)
    ensures var key := FreeKey(currentKey + 1, captionKeys, annotationKeys);
            key > currentKey && key !in captionKeys && key !in annotationKeys
  {
  }
}
