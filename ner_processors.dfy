/**
 * Recovering character offsets for the tokens of the Turku NER service:
 * its reply is one tab-separated row per token, and each token is searched
 * for in the original text from where the previous one ended.
 */
module NerProcessors {
  import opened Common

  /** The non-empty lines, in order: `... for r in lines if r`. */
  function NonEmptyLines(lines: seq<string>): (r: seq<string>)
    ensures forall l :: l in r ==> l != "" && l in lines
  {
    if lines == [] then []
    else
      var pre := NonEmptyLines(lines[..|lines| - 1]);
      var l := lines[|lines| - 1];
      if l == "" then pre else pre + [l]
  }

  /** `tuple(r.split('\t') for r in requested_text.split('\n') if r)` */
  function NerRows(requested: string): (rows: seq<seq<string>>)
    ensures |rows| == |NonEmptyLines(Split(requested, '\n'))|
    ensures forall i :: 0 <= i < |rows| ==> rows[i] == Split(NonEmptyLines(Split(requested, '\n'))[i], '\t')
    ensures forall i :: 0 <= i < |rows| ==> |rows[i]| >= 1
  {
    var lines := NonEmptyLines(Split(requested, '\n'));
    seq(|lines|, i requires 0 <= i < |lines| => Split(lines[i], '\t'))
  }

  /** `tuple(r[0] for r in ner_results)`; every row has a first field. */
  function NerWords(rows: seq<seq<string>>): (words: seq<string>)
    requires forall i :: 0 <= i < |rows| ==> |rows[i]| >= 1
    ensures |words| == |rows| && forall i :: 0 <= i < |rows| ==> words[i] == rows[i][0]
  {
    seq(|rows|, i requires 0 <= i < |rows| => rows[i][0])
  }

  /** Each row joined back with '\t' is a non-empty line of the reply without '\n'. */
  lemma NerRowsRoundTrip(requested: string)
    ensures var rows, lines := NerRows(requested), NonEmptyLines(Split(requested, '\n'));
      forall i :: 0 <= i < |rows| ==> Join(rows[i], "\t") == lines[i] && lines[i] != "" && '\n' !in lines[i]
  {
    var lines := NonEmptyLines(Split(requested, '\n'));
    forall i | 0 <= i < |lines|
      ensures Join(Split(lines[i], '\t'), "\t") == lines[i] && lines[i] != "" && '\n' !in lines[i]
    {
      assert lines[i] in lines;
      SplitNoSep(requested, '\n');
      JoinSplit(lines[i], '\t');
    }
  }

  /** The search position and the recorded (token, index) pairs. */
  datatype Search = Search(indx: int, found: seq<(string, int)>)

  /** One token: `indx = text.find(token, indx)`, record `indx + offset`, then skip the token. */
  function SearchStep(text: string, st: Search, token: string, offset: int): (r: Search)
    ensures r.found == st.found + [(token, PyFind(text, token, st.indx) + offset)]
    ensures r.indx == PyFind(text, token, st.indx) + |token|
  {
    var at := PyFind(text, token, st.indx);
    Search(at + |token|, st.found + [(token, at + offset)])
  }

  function SearchRun(text: string, words: seq<string>, offset: int): (r: Search)
    ensures |r.found| == |words|
  {
    if words == [] then Search(0, [])
    else SearchStep(text, SearchRun(text, words[..|words| - 1], offset), words[|words| - 1], offset)
  }

  /** `_process_tokens(text, requested_text, offset)` */
  method ProcessTokens(text: string, requested: string, offset: int)
    returns (results: seq<seq<string>>, tokenIndices: seq<(string, int)>)
    ensures results == NerRows(requested)
    ensures tokenIndices == SearchRun(text, NerWords(results), offset).found
  {
    results := NerRows(requested);
    var nerWords := NerWords(results);
    tokenIndices := [];
    var indx := 0;
    var k := 0;
    while k < |nerWords|
      invariant k <= |nerWords|
      invariant SearchRun(text, nerWords[..k], offset) == Search(indx, tokenIndices)
    {
      var token := nerWords[k];
      assert nerWords[..k + 1][..k] == nerWords[..k];
      indx := PyFind(text, token, indx);
      tokenIndices := tokenIndices + [(token, indx + offset)];
      indx := indx + |token|;
      k := k + 1;
    }
    assert nerWords[..k] == nerWords;
  }

  lemma {:induction false} FoundPrefix(text: string, words: seq<string>, offset: int, n: nat)
    requires n <= |words|
    ensures SearchRun(text, words[..n], offset).found == SearchRun(text, words, offset).found[..n]
    decreases |words| - n
  {
    if n < |words| {
      FoundPrefix(text, words, offset, n + 1);
      assert words[..n + 1][..n] == words[..n];
      var r := SearchRun(text, words[..n + 1], offset);
      assert r.found[..n] == SearchRun(text, words[..n], offset).found;
    } else {
      assert words[..n] == words;
    }
  }

  /** Token `i` is searched from where token `i - 1` ended (from 0 for the first). */
  lemma SearchAt(text: string, words: seq<string>, offset: int, i: nat)
    requires i < |words|
    ensures var r, pre := SearchRun(text, words, offset), SearchRun(text, words[..i], offset);
      && r.found[i] == (words[i], PyFind(text, words[i], pre.indx) + offset)
      && pre.indx == (if i == 0 then 0 else r.found[i - 1].1 - offset + |words[i - 1]|)
  {
    var r := SearchRun(text, words, offset);
    FoundPrefix(text, words, offset, i + 1);
    SearchRunSnoc(text, words, offset, i);
    assert r.found[i] == SearchRun(text, words[..i + 1], offset).found[i];
    if i > 0 {
      SearchFromPrevious(text, words, offset, i);
    }
  }

  /** The run over one more word is one more search step. */
  lemma SearchRunSnoc(text: string, words: seq<string>, offset: int, i: nat)
    requires i < |words|
    ensures SearchRun(text, words[..i + 1], offset) == SearchStep(text, SearchRun(text, words[..i], offset), words[i], offset)
  {
    assert words[..i + 1][..i] == words[..i];
  }

  /** The search for word `i` starts where word `i - 1` was recorded, plus its length. */
  lemma SearchFromPrevious(text: string, words: seq<string>, offset: int, i: nat)
    requires 0 < i < |words|
    ensures SearchRun(text, words[..i], offset).indx
      == SearchRun(text, words, offset).found[i - 1].1 - offset + |words[i - 1]|
  {
    var pre := SearchRun(text, words[..i], offset);
    FoundPrefix(text, words, offset, i);
    SearchRunSnoc(text, words, offset, i - 1);
    assert pre.found[i - 1] == SearchRun(text, words, offset).found[i - 1];
  }

  /** No search failed: `find` never returned -1. */
  predicate AllFound(found: seq<(string, int)>, offset: int)
  {
    forall i :: 0 <= i < |found| ==> found[i].1 - offset != -1
  }

  /** Where the search for token `i` started. */
  function SearchFrom(words: seq<string>, found: seq<(string, int)>, i: nat, offset: int): int
    requires i < |found| && |found| == |words|
  {
    if i == 0 then 0 else found[i - 1].1 - offset + |words[i - 1]|
  }

  /**
   * Once every token is found, token `i` is recorded at its first
   * occurrence in `text` at or after the end of the previous token,
   * shifted by `offset`.
   */
  lemma SpanAt(text: string, words: seq<string>, offset: int, i: nat)
    requires i < |words| && AllFound(SearchRun(text, words, offset).found, offset)
    ensures var found := SearchRun(text, words, offset).found;
      var s := found[i].1 - offset;
      && found[i].0 == words[i]
      && OccursAt(text, words[i], s)
      && 0 <= SearchFrom(words, found, i, offset) <= s
      && (forall j :: SearchFrom(words, found, i, offset) <= j < s ==> !OccursAt(text, words[i], j))
  {
    var found := SearchRun(text, words, offset).found;
    var from := SearchRun(text, words[..i], offset).indx;
    SearchAt(text, words, offset, i);
    assert from == SearchFrom(words, found, i, offset);
    if i > 0 {
      assert found[i - 1].1 - offset != -1;
      SearchAt(text, words, offset, i - 1);
    }
    FoundFrom(text, words[i], from, found[i].1 - offset);
  }

  /** A successful `find` from a non-negative start, in terms of the position it returned. */
  lemma FoundFrom(text: string, token: string, from: int, at: int)
    requires from >= 0 && at == PyFind(text, token, from) && at != -1
    ensures OccursAt(text, token, at) && from <= at
    ensures forall j :: from <= j < at ==> !OccursAt(text, token, j)
  {
    PyFindFrom(text, token, from);
  }

  /** Pair `i` names a span of `text` holding exactly its token: `text[idx - offset : idx - offset + len(tok)] == tok`. */
  predicate SpanHolds(text: string, found: seq<(string, int)>, offset: int, i: nat)
    requires i < |found|
  {
    && 0 <= found[i].1 - offset && found[i].1 - offset + |found[i].0| <= |text|
    && text[found[i].1 - offset..found[i].1 - offset + |found[i].0|] == found[i].0
  }

  /**
   * When every token is found, each recorded pair names a span of `text`
   * holding its token, and the spans follow one another without
   * overlapping.
   */
  lemma WordSpans(text: string, words: seq<string>, offset: int)
    ensures var found := SearchRun(text, words, offset).found;
      AllFound(found, offset) ==>
        && (forall i :: 0 <= i < |found| ==> SpanHolds(text, found, offset, i) && found[i].0 == words[i])
        && (forall i :: 0 < i < |found| ==> found[i - 1].1 + |found[i - 1].0| <= found[i].1)
  {
    var found := SearchRun(text, words, offset).found;
    if AllFound(found, offset) {
      forall i | 0 <= i < |found|
        ensures SpanHolds(text, found, offset, i) && found[i].0 == words[i]
        ensures i > 0 ==> found[i - 1].1 + |found[i - 1].0| <= found[i].1
      {
        SpanFits(text, words, offset, i);
      }
    }
  }

  /** One recorded pair of `WordSpans`. */
  lemma SpanFits(text: string, words: seq<string>, offset: int, i: nat)
    requires i < |words| && AllFound(SearchRun(text, words, offset).found, offset)
    ensures var found := SearchRun(text, words, offset).found;
      && SpanHolds(text, found, offset, i)
      && found[i].0 == words[i]
      && (i > 0 ==> found[i - 1].1 + |found[i - 1].0| <= found[i].1)
  {
    var found := SearchRun(text, words, offset).found;
    SpanAt(text, words, offset, i);
    if i > 0 {
      FoundTokens(text, words, offset);
      assert found[i - 1].0 == words[i - 1];
    }
  }

  /** The recorded tokens are the reply rows' first fields, in order. */
  lemma TokenSpans(text: string, requested: string, offset: int)
    ensures var rows := NerRows(requested);
      var found := SearchRun(text, NerWords(rows), offset).found;
      |found| == |rows| && forall i :: 0 <= i < |found| ==> found[i].0 == rows[i][0]
  {
    var words := NerWords(NerRows(requested));
    FoundTokens(text, words, offset);
  }

  lemma {:induction false} FoundTokens(text: string, words: seq<string>, offset: int)
    ensures var found := SearchRun(text, words, offset).found;
      forall i :: 0 <= i < |found| ==> found[i].0 == words[i]
  {
    if words != [] {
      FoundTokens(text, words[..|words| - 1], offset);
    }
  }
}
