/**
 * The NER and SRL layers of the English AllenNLP front end that computes
 * character offsets itself (`english/utils/nlp_allen.py`).
 *
 * Each sentence is tagged separately. Sentence-local token and character
 * positions are shifted by running document offsets. The tagger output is
 * an input: words, tags or verb frames. So is the token-to-character map
 * of each sentence, which the source takes from a helper that is not part
 * of this model.
 */
module AllenLayers {
  import opened Common
  import opened PyDict
  import opened BioDecode
  import opened SrlDecode
  import opened AllenCoref

  // ---- allennlp_ner ----

  datatype NerEntity = NerEntity(
    id: Option<string>, sentenceId: nat, surfaceForm: string, category: string,
    locationStart: nat, locationEnd: nat, tokenStart: nat, tokenEnd: nat,
    sentenceTokenStart: nat, sentenceTokenEnd: nat)

  /** The record for a decoded span: upper-cased category, first and one-past-last token, text length as character extent. */
  predicate EntityFor(e: NerEntity, sp: Span<string>, charStarts: map<nat, nat>, charInit: nat, tokInit: nat, sent: nat)
  {
    && |sp.indices| > 0 && sp.indices[0] in charStarts
    && var first, last := sp.indices[0], sp.indices[|sp.indices| - 1];
    && e.id == None && e.sentenceId == sent
    && e.surfaceForm == Join(sp.items, " ") && e.category == ToUpper(sp.category)
    && e.locationStart == charInit + charStarts[first] && e.locationEnd == e.locationStart + |e.surfaceForm|
    && e.tokenStart == tokInit + first && e.tokenEnd == tokInit + last + 1
    && e.sentenceTokenStart == first && e.sentenceTokenEnd == last + 1
  }

  /**
   * The records for the emitted spans, in order. The first span whose first
   * token has no character offset raises `KeyError`; a span without tokens
   * would raise `IndexError`, which the decoder never emits.
   */
  function EntitiesOf(spans: seq<Span<string>>, charStarts: map<nat, nat>, charInit: nat, tokInit: nat, sent: nat): Result<seq<NerEntity>>
  {
    if spans == [] then Ok([])
    else
      var sp := spans[0];
      if |sp.indices| == 0 then Err(IndexError)
      else if sp.indices[0] !in charStarts then Err(KeyError)
      else
        var first, last := sp.indices[0], sp.indices[|sp.indices| - 1];
        var text := Join(sp.items, " ");
        var start := charInit + charStarts[first];
        var e := NerEntity(None, sent, text, ToUpper(sp.category), start, start + |text|, tokInit + first, tokInit + last + 1, first, last + 1);
        match EntitiesOf(spans[1..], charStarts, charInit, tokInit, sent)
        case Err(err) => Err(err)
        case Ok(rest) => Ok([e] + rest)
  }

  /**
   * The records exist when every span has a first token with a character
   * offset; otherwise the error is `KeyError`, or `IndexError` for a span
   * without tokens.
   */
  lemma EntitiesOfShape(spans: seq<Span<string>>, charStarts: map<nat, nat>, charInit: nat, tokInit: nat, sent: nat)
    ensures var r := EntitiesOf(spans, charStarts, charInit, tokInit, sent);
      && (r.Ok? <==> forall k :: 0 <= k < |spans| ==> |spans[k].indices| > 0 && spans[k].indices[0] in charStarts)
      && (r.Err? ==> r.error == KeyError || r.error == IndexError)
      && (r.Err? && (forall k :: 0 <= k < |spans| ==> |spans[k].indices| > 0) ==> r.error == KeyError)
      && (r.Ok? ==> |r.value| == |spans| && forall k :: 0 <= k < |spans| ==> EntityFor(r.value[k], spans[k], charStarts, charInit, tokInit, sent))
  {
    EntitiesOfOutcome(spans, charStarts, charInit, tokInit, sent);
    EntitiesOfValues(spans, charStarts, charInit, tokInit, sent);
  }

  lemma {:induction false} EntitiesOfOutcome(spans: seq<Span<string>>, charStarts: map<nat, nat>, charInit: nat, tokInit: nat, sent: nat)
    ensures var r := EntitiesOf(spans, charStarts, charInit, tokInit, sent);
      && (r.Ok? <==> forall k :: 0 <= k < |spans| ==> |spans[k].indices| > 0 && spans[k].indices[0] in charStarts)
      && (r.Err? ==> r.error == KeyError || r.error == IndexError)
      && (r.Err? && (forall k :: 0 <= k < |spans| ==> |spans[k].indices| > 0) ==> r.error == KeyError)
  {
    if spans != [] {
      EntitiesOfOutcome(spans[1..], charStarts, charInit, tokInit, sent);
      assert forall k :: 1 <= k < |spans| ==> spans[k] == spans[1..][k - 1];
    }
  }

  lemma {:induction false} EntitiesOfValues(spans: seq<Span<string>>, charStarts: map<nat, nat>, charInit: nat, tokInit: nat, sent: nat)
    ensures var r := EntitiesOf(spans, charStarts, charInit, tokInit, sent);
      r.Ok? ==> |r.value| == |spans| && forall k :: 0 <= k < |spans| ==> EntityFor(r.value[k], spans[k], charStarts, charInit, tokInit, sent)
  {
    if spans != [] {
      EntitiesOfValues(spans[1..], charStarts, charInit, tokInit, sent);
      var r := EntitiesOf(spans, charStarts, charInit, tokInit, sent);
      if r.Ok? {
        var rest := EntitiesOf(spans[1..], charStarts, charInit, tokInit, sent);
        assert r.value == [r.value[0]] + rest.value;
        forall k | 1 <= k < |spans| ensures EntityFor(r.value[k], spans[k], charStarts, charInit, tokInit, sent) {
          assert r.value[k] == rest.value[k - 1] && spans[k] == spans[1..][k - 1];
        }
      }
    }
  }

  /** `allennlp_ner` for one sentence: the BILOU decoder over the words, then one record per span. */
  function SentenceNer(words: seq<string>, tags: seq<string>, charStarts: map<nat, nat>, charInit: nat, tokInit: nat, sent: nat): Result<seq<NerEntity>>
    requires |tags| <= |words|
  {
    EntitiesOf(NerSpans(Tagged(tags, words), Bilou), charStarts, charInit, tokInit, sent)
  }

  /**
   * The records of one sentence lie inside it, in order and without
   * overlap. Token and character positions are the sentence's own plus the
   * offsets passed in.
   */
  lemma SentenceNerShape(words: seq<string>, tags: seq<string>, charStarts: map<nat, nat>, charInit: nat, tokInit: nat, sent: nat)
    requires |tags| <= |words|
    ensures var r := SentenceNer(words, tags, charStarts, charInit, tokInit, sent);
      (r.Err? ==> r.error == KeyError) &&
      (r.Ok? ==>
        && (forall k :: 0 <= k < |r.value| ==>
              var e := r.value[k];
              && e.id == None && e.sentenceId == sent
              && e.sentenceTokenStart < e.sentenceTokenEnd <= |tags|
              && e.tokenStart == tokInit + e.sentenceTokenStart && e.tokenEnd == tokInit + e.sentenceTokenEnd
              && e.sentenceTokenStart in charStarts
              && e.locationStart == charInit + charStarts[e.sentenceTokenStart]
              && e.locationEnd == e.locationStart + |e.surfaceForm|)
        && (forall k :: 0 <= k < |r.value| - 1 ==> r.value[k].sentenceTokenEnd <= r.value[k + 1].sentenceTokenStart))
  {
    var tagged := Tagged(tags, words);
    NerSpansOrdered(tagged, Bilou);
    var spans := NerSpans(tagged, Bilou);
    EntitiesOfShape(spans, charStarts, charInit, tokInit, sent);
    forall k | 0 <= k < |spans| ensures spans[k].indices[0] <= LastIndex(spans[k]) {
      assert SpanIn(spans[k], tagged);
      if |spans[k].indices| > 1 {
        assert spans[k].indices[0] < spans[k].indices[|spans[k].indices| - 1];
      }
    }
  }

  // ---- add_json_ner_allennlp ----

  /** `f"ent_{i}_{j}_allen"` */
  function NerId(i: nat, j: nat): string
  {
    "ent_" + NatToStr(i) + "_" + NatToStr(j) + "_allen"
  }

  /** The part of an NER id after `ent_`: two numbers and a suffix, separated by `_`. */
  lemma NerIdTail(i: nat, j: nat)
    ensures NerId(i, j)[4..] == NatToStr(i) + ['_'] + (NatToStr(j) + ['_'] + "allen")
  {
    var u := NatToStr(i) + ['_'] + (NatToStr(j) + ['_'] + "allen");
    assert NerId(i, j) == "ent_" + u;
  }

  lemma NerIdInjective(i: nat, j: nat, i': nat, j': nat)
    requires NerId(i, j) == NerId(i', j')
    ensures i == i' && j == j'
  {
    NerIdTail(i, j);
    NerIdTail(i', j');
    DigitsPrefixUnique(NatToStr(i), NatToStr(j) + ['_'] + "allen", NatToStr(i'), NatToStr(j') + ['_'] + "allen", '_');
    DigitsPrefixUnique(NatToStr(j), "allen", NatToStr(j'), "allen", '_');
    NatToStrInjective(i, i');
    NatToStrInjective(j, j');
  }

  function WithIds(es: seq<NerEntity>, i: nat): (r: seq<NerEntity>)
    ensures |r| == |es|
    ensures forall j :: 0 <= j < |es| ==> r[j] == es[j].(id := Some(NerId(i, j)))
  {
    seq(|es|, j requires 0 <= j < |es| => es[j].(id := Some(NerId(i, j))))
  }

  /** Number of token records carrying sentence id `id`. */
  function SentCount(tokens: seq<TokenObject>, id: int): nat
  {
    if tokens == [] then 0 else SentCount(tokens[..|tokens| - 1], id) + (if tokens[|tokens| - 1].sentId == id then 1 else 0)
  }

  function SentIds(tokens: seq<TokenObject>): (ids: seq<int>)
    ensures |ids| == |tokens| && forall k :: 0 <= k < |tokens| ==> ids[k] == tokens[k].sentId
  {
    seq(|tokens|, k requires 0 <= k < |tokens| => tokens[k].sentId)
  }

  /** `sentence_token_lengths`: token counts per sentence id, in ascending id order. */
  function SentenceTokenLengths(tokens: seq<TokenObject>): (lens: seq<nat>)
    ensures var ids := SortedDistinct(SentIds(tokens));
      |lens| == |ids| && forall k :: 0 <= k < |ids| ==> lens[k] == SentCount(tokens, ids[k])
  {
    var ids := SortedDistinct(SentIds(tokens));
    seq(|ids|, k requires 0 <= k < |ids| => SentCount(tokens, ids[k]))
  }

  function SumNat(xs: seq<nat>): nat
  {
    if xs == [] then 0 else SumNat(xs[..|xs| - 1]) + xs[|xs| - 1]
  }

  /** The token counts of the sentence ids `ids`, in order. */
  function CountsOf(tokens: seq<TokenObject>, ids: seq<int>): (cs: seq<nat>)
    ensures |cs| == |ids| && forall k :: 0 <= k < |ids| ==> cs[k] == SentCount(tokens, ids[k])
  {
    seq(|ids|, k requires 0 <= k < |ids| => SentCount(tokens, ids[k]))
  }

  /** How many entries of `ids` equal `x`. */
  function Hits(ids: seq<int>, x: int): nat
  {
    if ids == [] then 0 else Hits(ids[..|ids| - 1], x) + (if ids[|ids| - 1] == x then 1 else 0)
  }

  /** Every token lies in exactly one sentence: the sentence lengths add up to the number of tokens. */
  lemma SentenceLengthsSum(tokens: seq<TokenObject>)
    ensures SumNat(SentenceTokenLengths(tokens)) == |tokens|
  {
    var ids := SortedDistinct(SentIds(tokens));
    assert SentenceTokenLengths(tokens) == CountsOf(tokens, ids);
    forall j | 0 <= j < |tokens| ensures tokens[j].sentId in ids {
      assert SentIds(tokens)[j] == tokens[j].sentId;
    }
    CountsSum(tokens, ids);
  }

  lemma {:induction false} CountsSum(tokens: seq<TokenObject>, ids: seq<int>)
    requires StrictlyIncreasing(ids)
    requires forall j :: 0 <= j < |tokens| ==> tokens[j].sentId in ids
    ensures SumNat(CountsOf(tokens, ids)) == |tokens|
  {
    if tokens == [] {
      CountsEmpty(ids);
    } else {
      var pre, t := tokens[..|tokens| - 1], tokens[|tokens| - 1];
      assert tokens == pre + [t];
      forall j | 0 <= j < |pre| ensures pre[j].sentId in ids {
        assert pre[j] == tokens[j];
      }
      CountsSum(pre, ids);
      CountsSnoc(pre, t, ids);
      HitsOne(ids, t.sentId);
    }
  }

  lemma {:induction false} CountsEmpty(ids: seq<int>)
    ensures SumNat(CountsOf([], ids)) == 0
  {
    if ids != [] {
      CountsEmpty(ids[..|ids| - 1]);
      assert CountsOf([], ids)[..|ids| - 1] == CountsOf([], ids[..|ids| - 1]);
    }
  }

  /** One more token adds one to the count of each id equal to its sentence id. */
  lemma {:induction false} CountsSnoc(tokens: seq<TokenObject>, t: TokenObject, ids: seq<int>)
    ensures SumNat(CountsOf(tokens + [t], ids)) == SumNat(CountsOf(tokens, ids)) + Hits(ids, t.sentId)
  {
    if ids != [] {
      var pre := ids[..|ids| - 1];
      CountsSnoc(tokens, t, pre);
      assert CountsOf(tokens + [t], ids)[..|pre|] == CountsOf(tokens + [t], pre);
      assert CountsOf(tokens, ids)[..|pre|] == CountsOf(tokens, pre);
      assert (tokens + [t])[..|tokens|] == tokens;
    }
  }

  /** A strictly increasing sequence holds each of its elements once. */
  lemma {:induction false} HitsOne(ids: seq<int>, x: int)
    requires StrictlyIncreasing(ids) && x in ids
    ensures Hits(ids, x) == 1
  {
    var pre := ids[..|ids| - 1];
    if ids[|ids| - 1] == x {
      HitsZero(pre, x);
    } else {
      var j :| 0 <= j < |ids| && ids[j] == x;
      assert pre[j] == x;
      HitsOne(pre, x);
    }
  }

  lemma {:induction false} HitsZero(ids: seq<int>, x: int)
    requires forall j :: 0 <= j < |ids| ==> ids[j] < x
    ensures Hits(ids, x) == 0
  {
    if ids != [] {
      HitsZero(ids[..|ids| - 1], x);
    }
  }

  /** A tagged sentence: its text, the tagger's words and tags, and its token-to-character map. */
  datatype NerSentence = NerSentence(text: string, words: seq<string>, tags: seq<string>, charStarts: map<nat, nat>)

  predicate TagsFit(sentences: seq<NerSentence>)
  {
    forall k :: 0 <= k < |sentences| ==> |sentences[k].tags| <= |sentences[k].words|
  }

  /** The inner loop that gives each entity of sentence `i` its id. */
  method NameEntities(es: seq<NerEntity>, i: nat) returns (named: seq<NerEntity>)
    ensures named == WithIds(es, i)
  {
    var j := 0;
    named := [];
    while j < |es|
      invariant j <= |es|
      invariant named == WithIds(es[..j], i)
    {
      named := named + [es[j].(id := Some(NerId(i, j)))];
      j := j + 1;
    }
    assert es[..j] == es;
  }

  /**
   * `add_json_ner_allennlp`: the entities of every sentence, in order, each
   * sentence shifted by its closed-form offsets; the first sentence that
   * fails decides the error.
   */
  method AddJsonNer(sentences: seq<NerSentence>, tokenObjects: seq<TokenObject>) returns (r: Result<seq<NerEntity>>)
    requires TagsFit(sentences)
    ensures r == ConcatResults(NerPieces(sentences, SentenceTokenLengths(tokenObjects), 0))
  {
    var lens := SentenceTokenLengths(tokenObjects);
    var docEntities := [];
    var charOff: nat, tokOff: nat := 0, 0;
    var i := 0;
    PrefixedEmpty(ConcatResults(NerPieces(sentences, lens, 0)));
    while i < |sentences|
      invariant i <= |sentences| && (i <= |lens| || i == 0)
      invariant charOff == CharBase(sentences, i) && tokOff == TokenBase(lens, i)
      invariant Prefixed(docEntities, ConcatResults(NerPieces(sentences, lens, i))) == ConcatResults(NerPieces(sentences, lens, 0))
    {
      var p;
      p, charOff, tokOff := SentenceEntities(sentences, lens, i, charOff, tokOff);
      NerAdvance(sentences, lens, i, docEntities);
      if p.Err? {
        return Err(p.error);
      }
      docEntities := docEntities + p.value;
      i := i + 1;
    }
    assert docEntities + [] == docEntities;
    r := Ok(docEntities);
  }

  /**
   * The body of the document loop for sentence `i`: decode, build the
   * records at the running offsets, name them, and look up the sentence's
   * pre-tokenised length (`IndexError` past the end).
   */
  method SentenceEntities(sentences: seq<NerSentence>, lens: seq<nat>, i: nat, charOff: nat, tokOff: nat)
    returns (p: Result<seq<NerEntity>>, nextChar: nat, nextTok: nat)
    requires TagsFit(sentences) && i < |sentences| && charOff == CharBase(sentences, i) && tokOff == TokenBase(lens, i)
    ensures p == NerPiece(sentences, lens, i)
    ensures p.Ok? ==> nextChar == CharBase(sentences, i + 1) && nextTok == TokenBase(lens, i + 1)
  {
    var s := sentences[i];
    var tagged := Tagged(s.tags, s.words);
    var spans := DecodeEntities(tagged, Bilou);
    var sentenceNer := EntitiesOf(spans, s.charStarts, charOff, tokOff, i);
    if sentenceNer.Err? {
      return Err(sentenceNer.error), charOff, tokOff;
    }
    var named := NameEntities(sentenceNer.value, i);
    if i >= |lens| {
      return Err(IndexError), charOff, tokOff;
    }
    NerBaseNext(sentences, lens, i);
    p, nextChar, nextTok := Ok(named), charOff + |s.text| + 1, tokOff + lens[i];
  }

  /** Character offset of sentence `i`: each earlier sentence counts its length plus one separator. */
  function CharBase(sentences: seq<NerSentence>, i: nat): nat
    requires i <= |sentences|
  {
    if i == 0 then 0 else CharBase(sentences, i - 1) + |sentences[i - 1].text| + 1
  }

  /** Token offset of sentence `i`: the pre-tokenised lengths of the earlier sentences. */
  function TokenBase(lens: seq<nat>, i: nat): nat
  {
    if i == 0 || i > |lens| then 0 else TokenBase(lens, i - 1) + lens[i - 1]
  }

  /** What sentence `i` contributes, computed with its closed-form offsets. */
  function NerPiece(sentences: seq<NerSentence>, lens: seq<nat>, i: nat): (r: Result<seq<NerEntity>>)
    requires TagsFit(sentences) && i < |sentences|
    ensures r.Ok? ==> i < |lens|
  {
    var s := sentences[i];
    match SentenceNer(s.words, s.tags, s.charStarts, CharBase(sentences, i), TokenBase(lens, i), i)
    case Err(e) => Err(e)
    case Ok(es) => if i >= |lens| then Err(IndexError) else Ok(WithIds(es, i))
  }

  /** The pieces of sentences `i` onwards. */
  function NerPieces(sentences: seq<NerSentence>, lens: seq<nat>, i: nat): (ps: seq<Result<seq<NerEntity>>>)
    requires TagsFit(sentences) && i <= |sentences|
    ensures |ps| == |sentences| - i
    decreases |sentences| - i
  {
    if i == |sentences| then [] else [NerPiece(sentences, lens, i)] + NerPieces(sentences, lens, i + 1)
  }

  lemma NerBaseNext(sentences: seq<NerSentence>, lens: seq<nat>, i: nat)
    requires i < |sentences| && i < |lens|
    ensures CharBase(sentences, i + 1) == CharBase(sentences, i) + |sentences[i].text| + 1
    ensures TokenBase(lens, i + 1) == TokenBase(lens, i) + lens[i]
  {
  }

  /** Sentence `i` either fails the document with its error or adds its piece to the entities so far. */
  lemma NerAdvance(sentences: seq<NerSentence>, lens: seq<nat>, i: nat, acc: seq<NerEntity>)
    requires TagsFit(sentences) && i < |sentences|
    ensures var p := NerPiece(sentences, lens, i);
      Prefixed(acc, ConcatResults(NerPieces(sentences, lens, i)))
      == if p.Err? then Err(p.error) else Prefixed(acc + p.value, ConcatResults(NerPieces(sentences, lens, i + 1)))
  {
    ConcatStep(acc, NerPiece(sentences, lens, i), NerPieces(sentences, lens, i + 1));
  }

  /** Every entity of the document gets an id, and no two get the same one. */
  lemma AddJsonNerIdsDistinct(sentences: seq<NerSentence>, tokenObjects: seq<TokenObject>)
    requires TagsFit(sentences)
    ensures var r := ConcatResults(NerPieces(sentences, SentenceTokenLengths(tokenObjects), 0));
      r.Ok? ==> (forall k :: 0 <= k < |r.value| ==> r.value[k].id.Some?)
                && forall a, b :: 0 <= a < b < |r.value| ==> r.value[a].id != r.value[b].id
  {
    var lens := SentenceTokenLengths(tokenObjects);
    var ps := NerPieces(sentences, lens, 0);
    PrefixedEmpty(ConcatResults(ps));
    NerPiecesNamed(sentences, lens, 0);
    ConcatIdsDistinct(ps, 0, []);
    if ConcatResults(ps).Ok? {
      IdsSoFarSome(ConcatResults(ps).value, |ps|);
    }
  }

  /** Entity `j` of `v` carries the id of position `j` of sentence `n`. */
  predicate Named(v: seq<NerEntity>, n: nat)
  {
    forall j :: 0 <= j < |v| ==> v[j].id == Some(NerId(n, j))
  }

  /** Each successful piece names its entities after its own sentence, the first being sentence `i`. */
  predicate PiecesNamed(ps: seq<Result<seq<NerEntity>>>, i: nat)
  {
    forall k :: 0 <= k < |ps| && ps[k].Ok? ==> Named(ps[k].value, i + k)
  }

  lemma NerPieceNamed(sentences: seq<NerSentence>, lens: seq<nat>, i: nat)
    requires TagsFit(sentences) && i < |sentences|
    ensures var p := NerPiece(sentences, lens, i); p.Ok? ==> Named(p.value, i)
  {
  }

  lemma {:induction false} NerPiecesNamed(sentences: seq<NerSentence>, lens: seq<nat>, i: nat)
    requires TagsFit(sentences) && i <= |sentences|
    ensures PiecesNamed(NerPieces(sentences, lens, i), i)
    decreases |sentences| - i
  {
    if i < |sentences| {
      var ps, rest := NerPieces(sentences, lens, i), NerPieces(sentences, lens, i + 1);
      NerPiecesNamed(sentences, lens, i + 1);
      NerPieceNamed(sentences, lens, i);
      assert ps == [NerPiece(sentences, lens, i)] + rest;
      forall k | 0 <= k < |ps| && ps[k].Ok? ensures Named(ps[k].value, i + k) {
        if k > 0 {
          assert ps[k] == rest[k - 1];
        }
      }
    }
  }

  /** Running the pieces after `acc` keeps the ids distinct and each tied to a sentence done. */
  lemma {:induction false} ConcatIdsDistinct(ps: seq<Result<seq<NerEntity>>>, i: nat, acc: seq<NerEntity>)
    requires PiecesNamed(ps, i) && IdsSoFar(acc, i)
    ensures var r := Prefixed(acc, ConcatResults(ps)); r.Ok? ==> IdsSoFar(r.value, i + |ps|)
    decreases |ps|
  {
    if ps == [] {
      assert acc + [] == acc;
    } else {
      assert ps == [ps[0]] + ps[1..];
      ConcatStep(acc, ps[0], ps[1..]);
      if ps[0].Ok? {
        IdsStep(acc, ps[0].value, i);
        assert PiecesNamed(ps[1..], i + 1) by {
          forall k | 0 <= k < |ps[1..]| && ps[1..][k].Ok? ensures Named(ps[1..][k].value, i + 1 + k) {
            assert ps[1..][k] == ps[k + 1];
          }
        }
        ConcatIdsDistinct(ps[1..], i + 1, acc + ps[0].value);
      }
    }
  }

  /** The entity carries the id of some position in some sentence before `bound`. */
  ghost predicate IdBefore(e: NerEntity, bound: nat)
  {
    exists s: nat, j: nat :: s < bound && e.id == Some(NerId(s, j))
  }

  /** Ids so far are distinct, and each belongs to a sentence already done. */
  ghost predicate IdsSoFar(acc: seq<NerEntity>, i: nat)
  {
    && (forall k :: 0 <= k < |acc| ==> IdBefore(acc[k], i))
    && (forall a, b :: 0 <= a < b < |acc| ==> acc[a].id != acc[b].id)
  }

  lemma IdsSoFarSome(acc: seq<NerEntity>, i: nat)
    requires IdsSoFar(acc, i)
    ensures forall k :: 0 <= k < |acc| ==> acc[k].id.Some?
  {
    forall k | 0 <= k < |acc| ensures acc[k].id.Some? {
      assert IdBefore(acc[k], i);
    }
  }

  lemma IdsStep(acc: seq<NerEntity>, v: seq<NerEntity>, i: nat)
    requires IdsSoFar(acc, i) && Named(v, i)
    ensures IdsSoFar(acc + v, i + 1)
  {
    IdsStepBefore(acc, v, i);
    IdsStepDistinct(acc, v, i);
  }

  lemma IdsStepBefore(acc: seq<NerEntity>, v: seq<NerEntity>, i: nat)
    requires (forall k :: 0 <= k < |acc| ==> IdBefore(acc[k], i)) && Named(v, i)
    ensures var acc' := acc + v;
      forall k :: 0 <= k < |acc'| ==> IdBefore(acc'[k], i + 1)
  {
    var acc' := acc + v;
    forall k | 0 <= k < |acc'| ensures IdBefore(acc'[k], i + 1) {
      if k < |acc| {
        assert acc'[k] == acc[k];
        IdBeforeLater(acc[k], i);
      } else {
        assert acc'[k] == v[k - |acc|];
        NamedIdBefore(v, i, k - |acc|);
      }
    }
  }

  lemma IdsStepDistinct(acc: seq<NerEntity>, v: seq<NerEntity>, i: nat)
    requires IdsSoFar(acc, i) && Named(v, i)
    ensures var acc' := acc + v;
      forall a, b :: 0 <= a < b < |acc'| ==> acc'[a].id != acc'[b].id
  {
    var acc' := acc + v;
    forall a, b | 0 <= a < b < |acc'| ensures acc'[a].id != acc'[b].id {
      if b >= |acc| {
        assert acc'[b] == v[b - |acc|];
        if a < |acc| {
          assert acc'[a] == acc[a];
          OldNewDistinct(acc[a], v, i, b - |acc|);
        } else {
          assert acc'[a] == v[a - |acc|];
          NamedDistinct(v, i, a - |acc|, b - |acc|);
        }
      } else {
        assert acc'[a] == acc[a] && acc'[b] == acc[b];
      }
    }
  }

  lemma IdBeforeLater(e: NerEntity, i: nat)
    requires IdBefore(e, i)
    ensures IdBefore(e, i + 1)
  {
    var s: nat, j: nat :| s < i && e.id == Some(NerId(s, j));
  }

  lemma NamedIdBefore(v: seq<NerEntity>, i: nat, j: nat)
    requires Named(v, i) && j < |v|
    ensures IdBefore(v[j], i + 1)
  {
    assert v[j].id == Some(NerId(i, j));
  }

  lemma NerIdDistinct(i: nat, j: nat, i': nat, j': nat)
    requires i != i' || j != j'
    ensures NerId(i, j) != NerId(i', j')
  {
    if NerId(i, j) == NerId(i', j') {
      NerIdInjective(i, j, i', j');
    }
  }

  /** An id of an earlier sentence differs from every id of sentence `i`. */
  lemma OldNewDistinct(e: NerEntity, v: seq<NerEntity>, i: nat, j: nat)
    requires IdBefore(e, i) && Named(v, i) && j < |v|
    ensures e.id != v[j].id
  {
    var s: nat, t: nat :| s < i && e.id == Some(NerId(s, t));
    NerIdDistinct(s, t, i, j);
  }

  lemma NamedDistinct(v: seq<NerEntity>, i: nat, a: nat, b: nat)
    requires Named(v, i) && a < b < |v|
    ensures v[a].id != v[b].id
  {
    NerIdDistinct(i, a, i, b);
  }

  // ---- add_json_srl_allennlp ----

  datatype ArgumentRecord = ArgumentRecord(argumentId: string, surfaceForm: string, locationStart: nat, locationEnd: nat, category: string)

  datatype PredicateRecord = PredicateRecord(
    predicateId: string, sentenceId: string, locationStart: nat, locationEnd: nat,
    surfaceForm: string, arguments: seq<ArgumentRecord>)

  /** The argument records of one predicate; `KeyError` at the first argument whose start has no character offset. */
  function ArgumentRecords(args: seq<SrlArgument>, i: nat, charStarts: map<nat, nat>, charInit: nat): Result<seq<ArgumentRecord>>
  {
    if args == [] then Ok([])
    else
      var arg := args[0];
      if arg.start !in charStarts then Err(KeyError)
      else
        var start := charInit + charStarts[arg.start];
        match ArgumentRecords(args[1..], i, charStarts, charInit)
        case Err(e) => Err(e)
        case Ok(rest) => Ok([ArgumentRecord(NatToStr(i) + "_" + arg.category, arg.text, start, start + |arg.text|, arg.category)] + rest)
  }

  lemma {:induction false} ArgumentRecordsShape(args: seq<SrlArgument>, i: nat, charStarts: map<nat, nat>, charInit: nat)
    ensures var r := ArgumentRecords(args, i, charStarts, charInit);
      && (r.Ok? <==> forall k :: 0 <= k < |args| ==> args[k].start in charStarts)
      && (r.Ok? ==> |r.value| == |args| && forall k :: 0 <= k < |args| ==>
            var a := r.value[k];
            && a.argumentId == NatToStr(i) + "_" + args[k].category && a.category == args[k].category
            && a.surfaceForm == args[k].text
            && a.locationStart == charInit + charStarts[args[k].start] && a.locationEnd == a.locationStart + |a.surfaceForm|)
  {
    if args != [] {
      ArgumentRecordsShape(args[1..], i, charStarts, charInit);
    }
  }

  /** The record of the `j`-th entry `(pos, args)` of the predicate dictionary of sentence `i`. */
  function PredicateRecordOf(tokens: seq<string>, j: nat, pos: nat, args: seq<SrlArgument>, i: nat, charStarts: map<nat, nat>, charInit: nat): Result<PredicateRecord>
  {
    if pos !in charStarts then Err(KeyError)
    else if pos >= |tokens| then Err(IndexError)
    else
      var start := charInit + charStarts[pos];
      match ArgumentRecords(args, i, charStarts, charInit)
      case Err(e) => Err(e)
      case Ok(argRecords) => Ok(PredicateRecord(NatToStr(j), NatToStr(i), start, start + |tokens[pos]|, tokens[pos], argRecords))
  }

  /** The records of the first `n` dictionary entries of one sentence; a predicate without arguments is dropped. */
  function SentenceRecords(out: SrlOutput, n: nat, i: nat, charStarts: map<nat, nat>, charInit: nat): Result<seq<PredicateRecord>>
    requires out.predArgStruct.Valid() && n <= |out.predArgStruct.keys|
  {
    if n == 0 then Ok([])
    else
      match SentenceRecords(out, n - 1, i, charStarts, charInit)
      case Err(e) => Err(e)
      case Ok(rs) =>
        var pos := out.predArgStruct.keys[n - 1];
        match PredicateRecordOf(out.tokens, n - 1, pos, out.predArgStruct.entries[pos], i, charStarts, charInit)
        case Err(e) => Err(e)
        case Ok(p) => if |p.arguments| > 0 then Ok(rs + [p]) else Ok(rs)
  }

  /** A sentence with its SRL tagger output and token-to-character map. */
  datatype SrlSentence = SrlSentence(text: string, words: seq<string>, frames: seq<VerbFrame>, charStarts: map<nat, nat>)

  predicate FramesFit(sentences: seq<SrlSentence>)
  {
    forall k, f :: 0 <= k < |sentences| && 0 <= f < |sentences[k].frames| ==> |sentences[k].frames[f].tags| <= |sentences[k].words|
  }

  function SentenceOutput(s: SrlSentence): (out: SrlOutput)
    requires forall f :: 0 <= f < |s.frames| ==> |s.frames[f].tags| <= |s.words|
    ensures out.predArgStruct.Valid()
  {
    SrlStructKeys(s.words, s.frames);
    SrlOutputOf(s.words, s.frames)
  }

  /** All records of sentence `i`, whose characters start at `charInit`. */
  function SentenceSrl(sentences: seq<SrlSentence>, i: nat, charInit: nat): Result<seq<PredicateRecord>>
    requires FramesFit(sentences) && i < |sentences|
  {
    var s := sentences[i];
    var out := SentenceOutput(s);
    SentenceRecords(out, |out.predArgStruct.keys|, i, s.charStarts, charInit)
  }

  /** The loop over one sentence's predicate dictionary. */
  method SentencePredicates(out: SrlOutput, i: nat, charStarts: map<nat, nat>, charInit: nat) returns (r: Result<seq<PredicateRecord>>)
    requires out.predArgStruct.Valid()
    ensures r == SentenceRecords(out, |out.predArgStruct.keys|, i, charStarts, charInit)
  {
    var rs := [];
    var j := 0;
    while j < |out.predArgStruct.keys|
      invariant j <= |out.predArgStruct.keys|
      invariant SentenceRecords(out, j, i, charStarts, charInit) == Ok(rs)
    {
      var pos := out.predArgStruct.keys[j];
      var p := PredicateRecordOf(out.tokens, j, pos, out.predArgStruct.entries[pos], i, charStarts, charInit);
      if p.Err? {
        RecordsFailFrom(out, j + 1, i, charStarts, charInit);
        return Err(p.error);
      }
      if |p.value.arguments| > 0 {
        rs := rs + [p.value];
      }
      j := j + 1;
    }
    r := Ok(rs);
  }

  lemma {:induction false} RecordsFailFrom(out: SrlOutput, n: nat, i: nat, charStarts: map<nat, nat>, charInit: nat)
    requires out.predArgStruct.Valid() && n <= |out.predArgStruct.keys|
    requires SentenceRecords(out, n, i, charStarts, charInit).Err?
    ensures SentenceRecords(out, |out.predArgStruct.keys|, i, charStarts, charInit) == SentenceRecords(out, n, i, charStarts, charInit)
    decreases |out.predArgStruct.keys| - n
  {
    if n < |out.predArgStruct.keys| {
      RecordsFailFrom(out, n + 1, i, charStarts, charInit);
    }
  }

  /**
   * `add_json_srl_allennlp`: the records of every sentence, in order. An
   * empty sentence contributes nothing and does not move the character
   * offset; every other one shifts later ones by its length plus one.
   */
  method AddJsonSrl(sentences: seq<SrlSentence>) returns (r: Result<seq<PredicateRecord>>)
    requires FramesFit(sentences)
    ensures r == ConcatResults(SrlPieces(sentences, 0))
  {
    var layer := [];
    var charInit: nat := 0;
    var i := 0;
    PrefixedEmpty(ConcatResults(SrlPieces(sentences, 0)));
    while i < |sentences|
      invariant i <= |sentences| && charInit == SrlCharBase(sentences, i)
      invariant Prefixed(layer, ConcatResults(SrlPieces(sentences, i))) == ConcatResults(SrlPieces(sentences, 0))
    {
      var rs;
      rs, charInit := SentenceLayer(sentences, i, charInit);
      SrlAdvance(sentences, i, layer);
      if rs.Err? {
        return Err(rs.error);
      }
      layer := layer + rs.value;
      i := i + 1;
    }
    assert layer + [] == layer;
    r := Ok(layer);
  }

  /**
   * The body of the document loop for sentence `i`: nothing for an empty
   * sentence, its records and the next character offset otherwise.
   */
  method SentenceLayer(sentences: seq<SrlSentence>, i: nat, charInit: nat) returns (rs: Result<seq<PredicateRecord>>, next: nat)
    requires FramesFit(sentences) && i < |sentences| && charInit == SrlCharBase(sentences, i)
    ensures rs == SrlPiece(sentences, i) && next == SrlCharBase(sentences, i + 1)
  {
    var s := sentences[i];
    SrlCharBaseNext(sentences, i);
    if |s.text| == 0 {
      return Ok([]), charInit;
    }
    var out := ParseSrl(s.words, s.frames);
    SrlStructKeys(s.words, s.frames);
    rs := SentencePredicates(out, i, s.charStarts, charInit);
    next := charInit + |s.text| + 1;
  }

  /** Character offset of sentence `i`: only the non-empty earlier sentences count, each with one separator. */
  function SrlCharBase(sentences: seq<SrlSentence>, i: nat): nat
    requires i <= |sentences|
  {
    if i == 0 then 0
    else SrlCharBase(sentences, i - 1) + (if |sentences[i - 1].text| == 0 then 0 else |sentences[i - 1].text| + 1)
  }

  function SrlPiece(sentences: seq<SrlSentence>, i: nat): Result<seq<PredicateRecord>>
    requires FramesFit(sentences) && i < |sentences|
  {
    if |sentences[i].text| == 0 then Ok([]) else SentenceSrl(sentences, i, SrlCharBase(sentences, i))
  }

  function SrlPieces(sentences: seq<SrlSentence>, i: nat): (ps: seq<Result<seq<PredicateRecord>>>)
    requires FramesFit(sentences) && i <= |sentences|
    ensures |ps| == |sentences| - i
    decreases |sentences| - i
  {
    if i == |sentences| then [] else [SrlPiece(sentences, i)] + SrlPieces(sentences, i + 1)
  }

  lemma SrlCharBaseNext(sentences: seq<SrlSentence>, i: nat)
    requires i < |sentences|
    ensures SrlCharBase(sentences, i + 1) == SrlCharBase(sentences, i) + (if |sentences[i].text| == 0 then 0 else |sentences[i].text| + 1)
  {
  }

  /** Sentence `i` either fails the document with its error or adds its records to those so far. */
  lemma SrlAdvance(sentences: seq<SrlSentence>, i: nat, acc: seq<PredicateRecord>)
    requires FramesFit(sentences) && i < |sentences|
    ensures var p := SrlPiece(sentences, i);
      Prefixed(acc, ConcatResults(SrlPieces(sentences, i)))
      == if p.Err? then Err(p.error) else Prefixed(acc + p.value, ConcatResults(SrlPieces(sentences, i + 1)))
  {
    ConcatStep(acc, SrlPiece(sentences, i), SrlPieces(sentences, i + 1));
  }

  /** What a record of sentence `i` looks like. */
  predicate RecordOk(p: PredicateRecord, i: nat, n: nat)
  {
    && |p.arguments| > 0 && p.sentenceId == NatToStr(i)
    && p.locationEnd == p.locationStart + |p.surfaceForm|
    && (exists j: nat :: j < n && p.predicateId == NatToStr(j))
    && forall k :: 0 <= k < |p.arguments| ==>
         var a := p.arguments[k];
         a.argumentId == NatToStr(i) + "_" + a.category && a.locationEnd == a.locationStart + |a.surfaceForm|
  }

  /** Every record looks like one of sentence `i` among the first `n` entries, and no two share a predicate id. */
  predicate RecordsOk(rs: seq<PredicateRecord>, i: nat, n: nat)
  {
    && (forall k :: 0 <= k < |rs| ==> RecordOk(rs[k], i, n))
    && (forall a, b :: 0 <= a < b < |rs| ==> rs[a].predicateId != rs[b].predicateId)
  }

  /**
   * Every record of a sentence has at least one argument and names the
   * sentence. Its predicate id is the entry's position in the dictionary,
   * so ids are distinct within the sentence and skip dropped predicates.
   * Argument ids are `{i}_{label}`, which repeat when a label does.
   */
  lemma {:induction false} SentenceRecordsShape(out: SrlOutput, n: nat, i: nat, charStarts: map<nat, nat>, charInit: nat)
    requires out.predArgStruct.Valid() && n <= |out.predArgStruct.keys|
    ensures var r := SentenceRecords(out, n, i, charStarts, charInit);
      r.Ok? ==> |r.value| <= n && RecordsOk(r.value, i, n)
  {
    if n > 0 {
      SentenceRecordsShape(out, n - 1, i, charStarts, charInit);
      var r0 := SentenceRecords(out, n - 1, i, charStarts, charInit);
      if r0.Ok? {
        var pos := out.predArgStruct.keys[n - 1];
        var p := PredicateRecordOf(out.tokens, n - 1, pos, out.predArgStruct.entries[pos], i, charStarts, charInit);
        RecordsOkLater(r0.value, i, n - 1);
        if p.Ok? && |p.value.arguments| > 0 {
          NewRecordOk(out.tokens, n - 1, pos, out.predArgStruct.entries[pos], i, charStarts, charInit);
          RecordsOkSnoc(r0.value, p.value, i, n - 1);
        }
      }
    }
  }

  /** The record of entry `j`, when it has arguments, looks like one of sentence `i` and carries id `j`. */
  lemma NewRecordOk(tokens: seq<string>, j: nat, pos: nat, args: seq<SrlArgument>, i: nat, charStarts: map<nat, nat>, charInit: nat)
    ensures var p := PredicateRecordOf(tokens, j, pos, args, i, charStarts, charInit);
      p.Ok? && |p.value.arguments| > 0 ==> RecordOk(p.value, i, j + 1) && p.value.predicateId == NatToStr(j)
  {
    ArgumentRecordsShape(args, i, charStarts, charInit);
  }

  lemma RecordOkLater(p: PredicateRecord, i: nat, n: nat)
    requires RecordOk(p, i, n)
    ensures RecordOk(p, i, n + 1)
  {
    var j: nat :| j < n && p.predicateId == NatToStr(j);
  }

  lemma RecordsOkLater(rs: seq<PredicateRecord>, i: nat, n: nat)
    requires RecordsOk(rs, i, n)
    ensures RecordsOk(rs, i, n + 1)
  {
    forall k | 0 <= k < |rs| ensures RecordOk(rs[k], i, n + 1) {
      RecordOkLater(rs[k], i, n);
    }
  }

  /** Appending the record of entry `n` keeps the records well formed: its id is new. */
  lemma RecordsOkSnoc(rs: seq<PredicateRecord>, p: PredicateRecord, i: nat, n: nat)
    requires RecordsOk(rs, i, n) && RecordOk(p, i, n + 1) && p.predicateId == NatToStr(n)
    ensures RecordsOk(rs + [p], i, n + 1)
  {
    var rs' := rs + [p];
    forall k | 0 <= k < |rs'| ensures RecordOk(rs'[k], i, n + 1) {
      if k < |rs| {
        RecordOkLater(rs[k], i, n);
      }
    }
    forall a, b | 0 <= a < b < |rs'| ensures rs'[a].predicateId != rs'[b].predicateId {
      if b == |rs| {
        assert RecordOk(rs[a], i, n);
        var j: nat :| j < n && rs[a].predicateId == NatToStr(j);
        if rs'[a].predicateId == rs'[b].predicateId {
          NatToStrInjective(j, n);
        }
      }
    }
  }

  // ---- add_json_coref_allennlp ----

  /** Word budget of the document handed to the coreference resolver. */
  const CorefWordLimit: nat := 1000

  /**
   * The text handed to the resolver: the longest run of leading sentences
   * whose whitespace-separated words number at most `CorefWordLimit`,
   * joined by single spaces. The resolver's clusters are then given
   * character offsets by `AllenCoref.CorefWithOffsets`.
   */
  method CorefDocument(sentences: seq<string>) returns (doc: string, kept: seq<string>)
    ensures kept <= sentences && WordCount(kept) <= CorefWordLimit
    ensures |kept| < |sentences| ==> WordCount(sentences[..|kept| + 1]) > CorefWordLimit
    ensures doc == Join(kept, " ")
  {
    kept := TruncateForCoref(sentences, CorefWordLimit);
    doc := Join(kept, " ");
  }
}
