/**
 * The lemma index shared by Dictionary.entriesByLemma and JijiDictionary.entries: a map from a
 * lemma to the list of entries indexed under it. An entry is appended under each of its lemmas,
 * the list being created on the first one.
 */
module LemmaIndex {

  type Index<E> = map<string, seq<E>>

  /** search / getEntriesForWord: the list under w, or the empty list on a miss. */
  function Search<E>(m: Index<E>, w: string): seq<E> {
    if w in m then m[w] else []
  }

  /** One step of the indexing loop: create the list if absent, then append e. */
  function AppendOne<E>(m: Index<E>, key: string, e: E): (r: Index<E>)
    ensures r.Keys == m.Keys + {key}
  {
    m[key := Search(m, key) + [e]]
  }

  /** The index after appending e under every lemma of the list, in order. */
  function AppendUnder<E>(m: Index<E>, lemmas: seq<string>, e: E): (r: Index<E>)
    ensures r.Keys == m.Keys + set l | l in lemmas
  {
    if |lemmas| == 0 then m
    else AppendOne(AppendUnder(m, lemmas[..|lemmas| - 1], e), lemmas[|lemmas| - 1], e)
  }

  /** Indexing one more lemma of the list is one more AppendOne. */
  lemma AppendUnderSnoc<E>(m: Index<E>, lemmas: seq<string>, i: nat, e: E)
    requires i < |lemmas|
    ensures AppendUnder(m, lemmas[..i + 1], e) == AppendOne(AppendUnder(m, lemmas[..i], e), lemmas[i], e)
  {
    assert lemmas[..i + 1][..i] == lemmas[..i] && lemmas[..i + 1][i] == lemmas[i];
  }

  /** How many times w appears in the list. */
  function Count(lemmas: seq<string>, w: string): nat {
    if |lemmas| == 0 then 0
    else Count(lemmas[..|lemmas| - 1], w) + (if lemmas[|lemmas| - 1] == w then 1 else 0)
  }

  function Repeat<E>(e: E, n: nat): (r: seq<E>)
    ensures |r| == n && forall i :: 0 <= i < n ==> r[i] == e
  {
    if n == 0 then [] else Repeat(e, n - 1) + [e]
  }

  /**
   * After indexing, a lemma's list is its old list (empty if it was absent) followed by the new
   * entry once per occurrence of the lemma in the list; every other key keeps its list.
   */
  lemma {:induction false} AppendUnderSearch<E>(m: Index<E>, lemmas: seq<string>, e: E, w: string)
    ensures Search(AppendUnder(m, lemmas, e), w) == Search(m, w) + Repeat(e, Count(lemmas, w))
  {
    if |lemmas| > 0 {
      AppendUnderSearch(m, lemmas[..|lemmas| - 1], e, w);
    }
  }

  lemma {:induction false} CountZero(lemmas: seq<string>, w: string)
    ensures Count(lemmas, w) == 0 <==> w !in lemmas
  {
    if |lemmas| > 0 {
      CountZero(lemmas[..|lemmas| - 1], w);
      assert lemmas == lemmas[..|lemmas| - 1] + [lemmas[|lemmas| - 1]];
    }
  }

  /** Keys that are not lemmas of the entry are untouched: same presence, same list. */
  lemma AppendUnderOthers<E>(m: Index<E>, lemmas: seq<string>, e: E, w: string)
    requires w !in lemmas
    ensures w in AppendUnder(m, lemmas, e) <==> w in m
    ensures Search(AppendUnder(m, lemmas, e), w) == Search(m, w)
  {
    AppendUnderSearch(m, lemmas, e, w);
    CountZero(lemmas, w);
  }

  /** With distinct lemmas, each lemma's list keeps its old entries in order with the new one last. */
  lemma AppendUnderDistinct<E>(m: Index<E>, lemmas: seq<string>, e: E, w: string)
    requires w in lemmas
    requires forall i, j :: 0 <= i < j < |lemmas| ==> lemmas[i] != lemmas[j]
    ensures Search(AppendUnder(m, lemmas, e), w) == Search(m, w) + [e]
  {
    AppendUnderSearch(m, lemmas, e, w);
    CountOne(lemmas, w);
  }

  lemma {:induction false} CountOne(lemmas: seq<string>, w: string)
    requires w in lemmas
    requires forall i, j :: 0 <= i < j < |lemmas| ==> lemmas[i] != lemmas[j]
    ensures Count(lemmas, w) == 1
  {
    var init := lemmas[..|lemmas| - 1];
    if lemmas[|lemmas| - 1] == w {
      assert w !in init;
      CountZero(init, w);
    } else {
      assert w in init by {
        assert lemmas == init + [lemmas[|lemmas| - 1]];
      }
      CountOne(init, w);
    }
  }
}
