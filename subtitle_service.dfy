/**
 * jijimaku.services.SubtitleService: the earlier subtitle class. It walks the captions of a file,
 * strips line-break tags from the text it hands out, colours every occurrence of a word, and
 * attaches definition captions that are merged into the file before it is written.
 */
module SubtitleServices {
  import opened Wrappers
  import opened JavaLang
  import opened Captions
  import opened Subtitles

  const MAX_SIGNATURE_LINES: nat := 5

  /** SubStyle: the two styles of an annotated file, by name. */
  datatype SubStyle = Definition | Default

  function SubStyleName(style: SubStyle): string {
    match style
    case Definition => DEFINITION_STYLE
    case Default => DEFAULT_STYLE
  }

  /**
   * isSubDictFile, on the lines of the file: the signature is looked for in the first five lines
   * only; reading the sixth line ends the loop without looking at it.
   */
  method IsSubDictFile(lines: seq<string>) returns (signed: bool)
    ensures signed <==> exists i :: 0 <= i < |lines| && i < MAX_SIGNATURE_LINES && Contains(lines[i], JIJIMAKU_SIGNATURE)
  {
    var lineNum := 0;
    while lineNum < |lines| && lineNum < MAX_SIGNATURE_LINES
      invariant 0 <= lineNum <= |lines| && lineNum <= MAX_SIGNATURE_LINES
      invariant forall i :: 0 <= i < lineNum ==> !Contains(lines[i], JIJIMAKU_SIGNATURE)
    {
      if Contains(lines[lineNum], JIJIMAKU_SIGNATURE) {
        return true;
      }
      lineNum := lineNum + 1;
    }
    return false;
  }

  /**
   * A file this check recognises is also recognised by the later whole-content test
   * (isJijimakuFile), whatever line separator the file uses.
   */
  lemma SubDictFileIsJijimakuFile(lines: seq<string>, newline: string, i: nat)
    requires i < |lines| && i < MAX_SIGNATURE_LINES && Contains(lines[i], JIJIMAKU_SIGNATURE)
    ensures IsJijimakuFile(Join(lines, newline))
  {
    JoinContains(lines, newline, i, JIJIMAKU_SIGNATURE);
  }

  /** Every caption with its <br> tags written as the ASS line break \N. */
  function BreaksToAss(captions: map<int, Caption>): (r: map<int, Caption>)
    ensures r.Keys == captions.Keys
    ensures forall k :: k in r ==> r[k] == captions[k].(content := ReplaceBrTags(captions[k].content, "\\N"))
  {
    map k | k in captions :: captions[k].(content := ReplaceBrTags(captions[k].content, "\\N"))
  }

  /** The loop of writeToAss over the captions in key order, rewriting each one's line breaks in turn. */
  method RewriteBreaks(captions: map<int, Caption>, order: seq<int>) returns (r: map<int, Caption>)
    requires forall i, j :: 0 <= i < j < |order| ==> order[i] < order[j]
    requires forall k :: k in captions <==> k in order
    ensures r == BreaksToAss(captions)
  {
    r := captions;
    forall j | 0 <= j < |order|
      ensures order[j] in captions
    {
      assert order[j] in order;
    }
    var i := 0;
    while i < |order|
      invariant 0 <= i <= |order|
      invariant r.Keys == captions.Keys
      invariant forall j :: 0 <= j < |order| ==> order[j] in captions
      invariant forall j :: 0 <= j < i ==> r[order[j]] == captions[order[j]].(content := ReplaceBrTags(captions[order[j]].content, "\\N"))
      invariant forall j :: i <= j < |order| ==> r[order[j]] == captions[order[j]]
    {
      var key := order[i];
      r := r[key := r[key].(content := ReplaceBrTags(r[key].content, "\\N"))];
      forall j | 0 <= j < |order| && j != i
        ensures order[j] != key
      {
      }
      i := i + 1;
    }
    forall k | k in r
      ensures r[k] == BreaksToAss(captions)[k]
    {
      var j :| 0 <= j < |order| && order[j] == k;
    }
  }

  class SubtitleService {
    /** The styles parsed from the configuration, by name. */
    var substyles: set<string>
    /** tto.captions, a TreeMap from start time to caption. */
    var captions: map<int, Caption>
    var annotationCaptions: map<int, Caption>
    /** The caption keys in the ascending order the caption iterator walks them. */
    var order: seq<int>
    /** How many captions the iterator has handed out. */
    var pos: nat
    /** The key of currentCaptionEntry, None before the first nextCaption. */
    var current: Option<int>

    ghost predicate Valid()
      reads this
    {
      (forall i, j :: 0 <= i < j < |order| ==> order[i] < order[j])
      && (forall k :: k in captions <==> k in order)
      && pos <= |order|
      && (current.Some? <==> pos > 0)
      && (pos > 0 ==> current.value == order[pos - 1] && current.value in captions)
    }

    /**
     * The constructor followed by readFromSrt: the styles from the configuration, the captions
     * the subtitle parser read (keys in ascending order), no annotation, the iterator at the start.
     */
    constructor(styles: set<string>, parsed: map<int, Caption>, keys: seq<int>)
      requires forall i, j :: 0 <= i < j < |keys| ==> keys[i] < keys[j]
      requires forall k :: k in parsed <==> k in keys
      ensures Valid()
      ensures substyles == styles && captions == parsed && annotationCaptions == map[]
      ensures order == keys && pos == 0
    {
      substyles := styles;
      captions := parsed;
      annotationCaptions := map[];
      order := keys;
      pos := 0;
      current := None;
    }

    /** hasNextCaption. */
    predicate HasNextCaption()
      reads this
    {
      pos < |order|
    }

    /**
     * nextCaption: advance to the next caption and return its content with every <br> tag
     * removed; past the end, NoSuchElementException.
     */
    method NextCaption() returns (r: Result<string, Error>)
      requires Valid()
      modifies this
      ensures Valid()
      ensures old(pos) == |order| ==> r == Failure(NoSuchElement) && unchanged(this)
      ensures old(pos) < |order| ==>
                pos == old(pos) + 1 && current == Some(order[old(pos)])
                && r == Success(ReplaceBrTags(captions[order[old(pos)]].content, ""))
      ensures captions == old(captions) && annotationCaptions == old(annotationCaptions)
      ensures order == old(order) && substyles == old(substyles)
    {
      if pos == |order| {
        return Failure(NoSuchElement);
      }
      assert order[pos] in order;
      current := Some(order[pos]);
      pos := pos + 1;
      r := Success(ReplaceBrTags(captions[current.value].content, ""));
    }

    /** setCaptionStyle: the current caption gets the Default style (null when the styles lack it). */
    method SetCaptionStyle() returns (r: Result<(), Error>)
      requires Valid()
      modifies this
      ensures Valid()
      ensures annotationCaptions == old(annotationCaptions) && order == old(order) && pos == old(pos)
      ensures current == old(current) && substyles == old(substyles)
      ensures current.None? ==> r == Failure(NullPointer) && unchanged(this)
      ensures current.Some? ==>
                r.Success? && captions == old(captions)[current.value := old(captions)[current.value].(style := StyleOf(substyles, DEFAULT_STYLE))]
    {
      if current.None? {
        return Failure(NullPointer);
      }
      var key := current.value;
      captions := captions[key := captions[key].(style := StyleOf(substyles, DEFAULT_STYLE))];
      return Success(());
    }

    /**
     * colorizeCaptionWord: every occurrence of the word in the current caption becomes the word
     * wrapped in the colour tag. The colour is converted first, so a colour shorter than
     * "#RRGGBB" fails before a missing current caption does.
     */
    method ColorizeCaptionWord(word: string, htmlHexColor: string) returns (r: Result<(), Error>)
      requires Valid()
      modifies this
      ensures Valid()
      ensures annotationCaptions == old(annotationCaptions) && order == old(order) && pos == old(pos)
      ensures current == old(current) && substyles == old(substyles)
      ensures |htmlHexColor| < 7 ==> r == Failure(IndexOutOfBounds) && unchanged(this)
      ensures |htmlHexColor| >= 7 && current.None? ==> r == Failure(NullPointer) && unchanged(this)
      ensures |htmlHexColor| >= 7 && current.Some? ==>
                var colorized := AddStyleToText(word, COLOR, Some(htmlHexColor)).value;
                r.Success? && colorized[4..10] == HtmlColorToAss(htmlHexColor).value
                && captions == old(captions)[current.value :=
                     old(captions)[current.value].(content := ReplaceAll(old(captions)[current.value].content, word, colorized))]
    {
      var colorizedWord := AddStyleToText(word, COLOR, Some(htmlHexColor));
      if colorizedWord.Failure? {
        return Failure(colorizedWord.error);
      }
      if current.None? {
        return Failure(NullPointer);
      }
      var key := current.value;
      captions := captions[key := captions[key].(content := ReplaceAll(captions[key].content, word, colorizedWord.value))];
      return Success(());
    }

    /**
     * addAnnotationCaption: a caption with the given text, the current caption's times and the
     * given style, under the first key after the current one used by neither map.
     */
    method AddAnnotationCaption(style: SubStyle, annotationStr: string) returns (r: Result<(), Error>)
      requires Valid()
      modifies this
      ensures Valid()
      ensures current.None? ==> r == Failure(NullPointer) && unchanged(this)
      ensures current.Some? ==>
                var key := FreeKey(current.value + 1, captions.Keys, old(annotationCaptions).Keys);
                var cur := captions[current.value];
                r.Success? && key !in captions && key !in old(annotationCaptions)
                && annotationCaptions == old(annotationCaptions)[key := Caption(StyleOf(substyles, SubStyleName(style)), cur.start, cur.end, annotationStr)]
      ensures captions == old(captions) && order == old(order) && pos == old(pos)
      ensures current == old(current) && substyles == old(substyles)
    {
      if current.None? {
        return Failure(NullPointer);
      }
      var time := FindFreeKey(current.value + 1, captions.Keys, annotationCaptions.Keys);
      var cur := captions[current.value];
      annotationCaptions := annotationCaptions[time := Caption(StyleOf(substyles, SubStyleName(style)), cur.start, cur.end, annotationStr)];
      return Success(());
    }

    /**
     * writeToAss, up to the ASS text: every caption of the file gets its <br> tags rewritten as
     * \N, then the annotations are put into the caption map (when there are any).
     */
    method WriteToAss() returns (merged: map<int, Caption>)
      requires Valid()
      modifies this
      ensures captions == Merge(BreaksToAss(old(captions)), annotationCaptions)
      ensures merged == captions
      ensures annotationCaptions == old(annotationCaptions) && substyles == old(substyles)
    {
      captions := RewriteBreaks(captions, order);
      if |annotationCaptions| > 0 {
        captions := Merge(captions, annotationCaptions);
      } else {
        MergeNothing(captions, annotationCaptions);
      }
      merged := captions;
    }
  }
}
