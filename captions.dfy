/**
 * What the three subtitle classes share: a caption of the subtitleFile library, the search for
 * a free time key for an annotation caption, and the merge of the annotation captions into the
 * caption map before export.
 */
module Captions {
  import opened Wrappers
  import opened JavaLang

  /**
   * subtitleFile.Caption: its style (by name), start and end times in milliseconds, and its
   * text content.
   */
  datatype Caption = Caption(style: string, start: int, end: int, content: string)

  /** The keys at or after k that are already taken in a or b. */
  function TakenFrom(k: int, a: set<int>, b: set<int>): set<int> {
    set x | x in a + b && x >= k
  }

  lemma TakenShrinks(k: int, a: set<int>, b: set<int>)
    requires k in a + b
    ensures |TakenFrom(k + 1, a, b)| < |TakenFrom(k, a, b)|
  {
    assert TakenFrom(k + 1, a, b) == TakenFrom(k, a, b) - {k};
  }

  /**
   * The smallest key at or after k that is used in neither map: what the
   * `while (captions.containsKey(time) || annotationCaptions.containsKey(time)) time++` loops
   * stop on.
   */
  function FreeKey(k: int, a: set<int>, b: set<int>): (r: int)
    ensures k <= r && r !in a && r !in b
    ensures forall j :: k <= j < r ==> j in a || j in b
    decreases |TakenFrom(k, a, b)|
  {
    if k in a || k in b then
      TakenShrinks(k, a, b);
      FreeKey(k + 1, a, b)
    else k
  }

  /** The loop shared by every addAnnotationCaption/annotate: count up from k to the first free key. */
  method FindFreeKey(k: int, a: set<int>, b: set<int>) returns (time: int)
    ensures time == FreeKey(k, a, b)
  {
    time := k;
    while time in a || time in b
      invariant FreeKey(time, a, b) == FreeKey(k, a, b)
      decreases |TakenFrom(time, a, b)|
    {
      TakenShrinks(time, a, b);
      time := time + 1;
    }
  }

  /**
   * putAll of the annotation captions into the caption map: every key of either map is present,
   * an annotation wins on a shared key, and every other caption is kept.
   */
  function Merge(captions: map<int, Caption>, annotations: map<int, Caption>): (r: map<int, Caption>)
    ensures r.Keys == captions.Keys + annotations.Keys
    ensures forall k :: k in annotations ==> r[k] == annotations[k]
    ensures forall k :: k in captions && k !in annotations ==> r[k] == captions[k]
  {
    captions + annotations
  }

  /** With no annotation captions the map is left as it was. */
  lemma MergeNothing(captions: map<int, Caption>, annotations: map<int, Caption>)
    requires |annotations| == 0
    ensures Merge(captions, annotations) == captions
  {
    assert annotations == map[];
  }

  // ---------------------------------------------------------------- line-break tags

  /** The first index at or after i that is not regex whitespace (\s). */
  function SkipSpaces(s: string, i: nat): (j: nat)
    requires i <= |s|
    ensures i <= j <= |s| && (j < |s| ==> !IsRegexSpace(s[j]))
    ensures forall k :: i <= k < j ==> IsRegexSpace(s[k])
    decreases |s| - i
  {
    if i < |s| && IsRegexSpace(s[i]) then SkipSpaces(s, i + 1) else i
  }

  /**
   * Where a match of the regex <br\s*\/?> that starts at the front of s ends: "<br", any
   * whitespace, an optional "/", then ">". Whitespace is never "/" or ">", so backtracking over
   * the \s* never finds a different match.
   */
  function BrTagEnd(s: string): (r: Option<nat>)
    ensures r.Some? ==> 4 <= r.value <= |s| && s[..3] == "<br" && s[r.value - 1] == '>'
    ensures r.Some? ==> forall k :: 3 <= k < r.value - 1 ==> IsRegexSpace(s[k]) || (k == r.value - 2 && s[k] == '/')
  {
    if |s| < 3 || s[..3] != "<br" then None
    else
      var j := SkipSpaces(s, 3);
      var k := if j < |s| && s[j] == '/' then j + 1 else j;
      if k < |s| && s[k] == '>' then Some(k + 1) else None
  }

  /**
   * content.replaceAll("<br\\s*\/?>", rep), for a replacement without group references: the
   * leftmost tag found scanning left to right is replaced, and the scan goes on after it.
   */
  function ReplaceBrTags(s: string, rep: string): string
    decreases |s|
  {
    if |s| == 0 then ""
    else
      match BrTagEnd(s)
      case Some(e) => rep + ReplaceBrTags(s[e..], rep)
      case None => [s[0]] + ReplaceBrTags(s[1..], rep)
  }

  /** Text without '<' holds no tag and is left as it is. */
  lemma {:induction false} ReplaceBrTagsNoTag(s: string, rep: string)
    requires '<' !in s
    ensures ReplaceBrTags(s, rep) == s
    decreases |s|
  {
    if |s| > 0 {
      NoTagWithoutAngle(s);
      assert '<' !in s[1..] by {
        assert forall c :: c in s[1..] ==> c in s;
      }
      ReplaceBrTagsNoTag(s[1..], rep);
      assert s == [s[0]] + s[1..];
    }
  }

  lemma NoTagWithoutAngle(s: string)
    requires |s| > 0 && s[0] != '<'
    ensures BrTagEnd(s) == None
  {
    if |s| >= 3 {
      assert s[..3][0] == s[0];
    }
  }

  /** A replacement no longer than the shortest tag ("<br>") never makes the text longer. */
  lemma {:induction false} ReplaceBrTagsShorter(s: string, rep: string)
    requires |rep| <= 4
    ensures |ReplaceBrTags(s, rep)| <= |s|
    decreases |s|
  {
    if |s| > 0 {
      match BrTagEnd(s)
      case Some(e) => ReplaceBrTagsShorter(s[e..], rep);
      case None => ReplaceBrTagsShorter(s[1..], rep);
    }
  }

  /**
   * The tags are removed in one pass, so removing them can join the pieces around a tag into a
   * new one: "<<br>br>" becomes "<br>".
   */
  lemma RemovingTagsCanLeaveATag()
    ensures ReplaceBrTags("<<br>br>", "") == "<br>"
  {
    var s := "<<br>br>";
    assert BrTagEnd(s) == None;
    assert s[1..] == "<br>br>";
    assert SkipSpaces("<br>br>", 3) == 3;
    assert BrTagEnd("<br>br>") == Some(4);
    assert "<br>br>"[4..] == "br>";
    assert BrTagEnd("br>") == None;
    assert BrTagEnd("r>") == None;
    assert BrTagEnd(">") == None;
    assert "br>"[1..] == "r>" && "r>"[1..] == ">" && ">"[1..] == "";
  }

  /**
   * What the subtitle library's Hashtable of styles returns for a style name: the style of that
   * name when the styles define it, and otherwise null, written as the empty name.
   */
  function StyleOf(substyles: set<string>, name: string): (r: string)
    ensures r == name || r == ""
    ensures r == name <==> name in substyles || name == ""
  {
    if name in substyles then name else ""
  }
}
