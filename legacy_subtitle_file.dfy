/**
 * utils.SubtitleFile: the first subtitle class. It hands out the captions of an SRT file with
 * their <br> tags removed, colours a word with the HTML colour digits as they are (no channel
 * swap), attaches definition captions and merges them into the file before it is written.
 */
module LegacySubtitles {
  import opened Wrappers
  import opened JavaLang
  import opened Captions
  import Subtitles

  /** SubStyle: the two styles of the file, by name. */
  datatype SubStyle = Definition | Default

  function SubStyleName(style: SubStyle): string {
    match style
    case Definition => "Definition"
    case Default => "Default"
  }

  /** The style names DEFAULT_STYLES defines: one "Style:" line for each SubStyle. */
  const DEFAULT_STYLE_NAMES: set<string> := {"Definition", "Default"}

  /** The ASS tag closing a coloured word. */
  const RESET_TAG: string := "{\\r}"

  /**
   * The replacement colorizeCaptionWord builds: the colour without its first character, as is,
   * between {\c& and &}, then the word and {\r}. An empty colour is a
   * StringIndexOutOfBoundsException.
   */
  function ColorTag(word: string, color: string): (r: Result<string, Error>)
    ensures r.Failure? <==> |color| == 0
    ensures r.Failure? ==> r.error == IndexOutOfBounds
    ensures r.Success? ==> |r.value| == 4 + (|color| - 1) + 2 + |word| + |RESET_TAG|
    ensures r.Success? ==> r.value[4..4 + |color| - 1] == color[1..]
    ensures r.Success? ==> r.value[|r.value| - |RESET_TAG| - |word|..|r.value| - |RESET_TAG|] == word
  {
    if |color| == 0 then Failure(IndexOutOfBounds)
    else
      var r := "{\\c&" + color[1..] + "&}" + word + RESET_TAG;
      assert r[4..4 + |color| - 1] == color[1..];
      assert r[|r| - |RESET_TAG| - |word|..|r| - |RESET_TAG|] == word;
      Success(r)
  }

  /**
   * The colour this class writes and the one the later classes write (through htmlColorToAss)
   * agree exactly when the colour's red and blue digits are equal: ASS reads colours as BGR, so
   * this class shows any other colour with red and blue exchanged.
   */
  lemma ColorTagAgreesOnlyOnGreys(word: string, color: string)
    requires |color| == 7
    ensures ColorTag(word, color).value == Subtitles.AddStyleToText(word, Subtitles.COLOR, Some(color)).value
            <==> color[1..3] == color[5..7]
  {
    var legacy := ColorTag(word, color).value;
    var later := Subtitles.AddStyleToText(word, Subtitles.COLOR, Some(color)).value;
    assert later[4..10] == color[5..7] + color[3..5] + color[1..3];
    assert legacy[4..10] == color[1..7];
    if legacy == later {
      assert color[1..3] == legacy[4..6] == later[4..6] == color[5..7];
    }
    if color[1..3] == color[5..7] {
      assert color[1..7] == color[5..7] + color[3..5] + color[1..3];
      assert legacy == "{\\c&" + color[1..] + "&}" + word + RESET_TAG;
      assert later == "{\\c&" + (color[5..7] + color[3..5] + color[1..3]) + "&}" + word + Subtitles.RESET_TAG;
    }
  }

  /** The caption map after the annotations under the keys in done have been put into it. */
  function PutSome(captions: map<int, Caption>, annotations: map<int, Caption>, done: set<int>): map<int, Caption>
    requires done <= annotations.Keys
  {
    map k | k in captions.Keys + done :: if k in done then annotations[k] else captions[k]
  }

  /** Before any put, the map is the caption map. */
  lemma PutNone(captions: map<int, Caption>, annotations: map<int, Caption>)
    ensures PutSome(captions, annotations, {}) == captions
  {
  }

  /** Putting one more annotation extends the set of annotations put. */
  lemma PutOneMore(captions: map<int, Caption>, annotations: map<int, Caption>, done: set<int>, k: int)
    requires done <= annotations.Keys && k in annotations
    ensures PutSome(captions, annotations, done)[k := annotations[k]] == PutSome(captions, annotations, done + {k})
  {
  }

  /** Once every annotation has been put, the map is the merge. */
  lemma PutAllIsMerge(captions: map<int, Caption>, annotations: map<int, Caption>)
    ensures PutSome(captions, annotations, annotations.Keys) == Merge(captions, annotations)
  {
  }

  /** A key of a non-empty key set. */
  lemma ElementOf(keys: set<int>) returns (k: int)
    requires keys != {}
    ensures k in keys
  {
    if forall x :: x !in keys {
      assert false;
    }
    k :| k in keys;
  }

  /** The loop of writeToASS: each annotation entry put into the caption map in turn. */
  method PutAll(captions: map<int, Caption>, annotations: map<int, Caption>) returns (r: map<int, Caption>)
    ensures r == Merge(captions, annotations)
  {
    r := captions;
    var remaining := annotations.Keys;
    ghost var done: set<int> := {};
    PutNone(captions, annotations);
    while remaining != {}
      invariant done !! remaining && done + remaining == annotations.Keys
      invariant r == PutSome(captions, annotations, done)
      decreases remaining
    {
      ghost var someKey := ElementOf(remaining);
      var k :| k in remaining;
      PutOneMore(captions, annotations, done, k);
      r := r[k := annotations[k]];
      remaining := remaining - {k};
      done := done + {k};
    }
    assert done == annotations.Keys;
    PutAllIsMerge(captions, annotations);
  }

  class SubtitleFile {
    /** The styles parsed from the configuration (or from DEFAULT_STYLES), by name. */
    var substyles: set<string>
    /** tto.captions, a TreeMap from start time to caption. */
    var captions: map<int, Caption>
    var annotationCaptions: map<int, Caption>
    /** The caption keys in the ascending order captionIt walks them. */
    var order: seq<int>
    /** How many captions captionIt has handed out. */
    var pos: nat
    /** The key of currentCaptionEntry, None before the first nextCaption. */
    var current: Option<int>

    ghost predicate Valid()
      reads this
    {
      (forall i, j :: 0 <= i < j < |order| ==> order[i] < order[j])
      && (forall k :: k in captions <==> k in order)
      && pos <= |order|
      && (current.Some? <==> pos > 0)
      && (pos > 0 ==> current.value == order[pos - 1] && current.value in captions)
    }

    /**
     * The constructor followed by readFromSRT: the configured styles, or those of DEFAULT_STYLES
     * when the configuration has none; the captions the SRT parser read (keys ascending); no
     * annotation; the iterator at the start.
     */
    constructor(configured: Option<set<string>>, parsed: map<int, Caption>, keys: seq<int>)
      requires forall i, j :: 0 <= i < j < |keys| ==> keys[i] < keys[j]
      requires forall k :: k in parsed <==> k in keys
      ensures Valid()
      ensures substyles == (if configured.Some? then configured.value else DEFAULT_STYLE_NAMES)
      ensures captions == parsed && annotationCaptions == map[] && order == keys && pos == 0
    {
      substyles := if configured.Some? then configured.value else DEFAULT_STYLE_NAMES;
      captions := parsed;
      annotationCaptions := map[];
      order := keys;
      pos := 0;
      current := None;
    }

    /** hasNextCaption. */
    predicate HasNextCaption()
      reads this
    {
      pos < |order|
    }

    /**
     * nextCaption: advance to the next caption and return its content with every <br> tag
     * removed; past the end, NoSuchElementException.
     */
    method NextCaption() returns (r: Result<string, Error>)
      requires Valid()
      modifies this
      ensures Valid()
      ensures old(pos) == |order| ==> r == Failure(NoSuchElement) && unchanged(this)
      ensures old(pos) < |order| ==>
                pos == old(pos) + 1 && current == Some(order[old(pos)])
                && r == Success(ReplaceBrTags(captions[order[old(pos)]].content, ""))
      ensures captions == old(captions) && annotationCaptions == old(annotationCaptions)
      ensures order == old(order) && substyles == old(substyles)
    {
      if pos == |order| {
        return Failure(NoSuchElement);
      }
      assert order[pos] in order;
      current := Some(order[pos]);
      pos := pos + 1;
      r := Success(ReplaceBrTags(captions[current.value].content, ""));
    }

    /**
     * setCaptionStyle: whatever style is asked for, the current caption gets the Default style
     * (null when the styles lack it).
     */
    method SetCaptionStyle(style: SubStyle) returns (r: Result<(), Error>)
      requires Valid()
      modifies this
      ensures Valid()
      ensures annotationCaptions == old(annotationCaptions) && order == old(order) && pos == old(pos)
      ensures current == old(current) && substyles == old(substyles)
      ensures current.None? ==> r == Failure(NullPointer) && unchanged(this)
      ensures current.Some? ==>
                r.Success? && captions == old(captions)[current.value := old(captions)[current.value].(style := StyleOf(substyles, "Default"))]
    {
      if current.None? {
        return Failure(NullPointer);
      }
      var key := current.value;
      captions := captions[key := captions[key].(style := StyleOf(substyles, SubStyleName(Default)))];
      return Success(());
    }

    /**
     * colorizeCaptionWord: every occurrence of the word in the current caption becomes the
     * coloured word. The current caption is dereferenced before the colour is cut, so a missing
     * caption fails before an empty colour does.
     */
    method ColorizeCaptionWord(word: string, color: string) returns (r: Result<(), Error>)
      requires Valid()
      modifies this
      ensures Valid()
      ensures annotationCaptions == old(annotationCaptions) && order == old(order) && pos == old(pos)
      ensures current == old(current) && substyles == old(substyles)
      ensures current.None? ==> r == Failure(NullPointer) && unchanged(this)
      ensures current.Some? && |color| == 0 ==> r == Failure(IndexOutOfBounds) && unchanged(this)
      ensures current.Some? && |color| > 0 ==>
                r.Success? && captions == old(captions)[current.value :=
                  old(captions)[current.value].(content := ReplaceAll(old(captions)[current.value].content, word, ColorTag(word, color).value))]
    {
      if current.None? {
        return Failure(NullPointer);
      }
      var tag := ColorTag(word, color);
      if tag.Failure? {
        return Failure(tag.error);
      }
      var key := current.value;
      captions := captions[key := captions[key].(content := ReplaceAll(captions[key].content, word, tag.value))];
      return Success(());
    }

    /**
     * addAnnotationCaption: a caption with the given text, the current caption's times and the
     * given style, under the first key after the current one used by neither map.
     */
    method AddAnnotationCaption(style: SubStyle, annotationStr: string) returns (r: Result<(), Error>)
      requires Valid()
      modifies this
      ensures Valid()
      ensures captions == old(captions) && order == old(order) && pos == old(pos)
      ensures current == old(current) && substyles == old(substyles)
      ensures current.None? ==> r == Failure(NullPointer) && unchanged(this)
      ensures current.Some? ==>
                var key := FreeKey(current.value + 1, captions.Keys, old(annotationCaptions).Keys);
                var cur := captions[current.value];
                r.Success? && current.value < key && key !in captions && key !in old(annotationCaptions)
                && annotationCaptions == old(annotationCaptions)[key := Caption(StyleOf(substyles, SubStyleName(style)), cur.start, cur.end, annotationStr)]
    {
      if current.None? {
        return Failure(NullPointer);
      }
      var time := FindFreeKey(current.value + 1, captions.Keys, annotationCaptions.Keys);
      var cur := captions[current.value];
      annotationCaptions := annotationCaptions[time := Caption(StyleOf(substyles, SubStyleName(style)), cur.start, cur.end, annotationStr)];
      return Success(());
    }

    /**
     * writeToASS, up to the ASS text: when there are annotations, each is put into the caption
     * map; the keys are distinct, so the order of the puts does not matter.
     */
    method WriteToAss() returns (merged: map<int, Caption>)
      modifies this
      ensures captions == Merge(old(captions), annotationCaptions) && merged == captions
      ensures annotationCaptions == old(annotationCaptions) && substyles == old(substyles)
      ensures order == old(order) && pos == old(pos) && current == old(current)
    {
      if |annotationCaptions| > 0 {
        captions := PutAll(captions, annotationCaptions);
      } else {
        assert Merge(captions, annotationCaptions) == captions;
      }
      merged := captions;
    }
  }
}
