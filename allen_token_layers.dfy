/**
 * The NER, SRL and coreference layers of the English AllenNLP front end
 * that reuses the document's own tokenisation (`english/utils_nlp_allen.py`).
 *
 * Positions are first counted in the tagger's tokens, shifted by the
 * number of tagger tokens of the earlier sentences. Character offsets are
 * then read off the document's token records at those positions. The
 * tagger outputs are inputs.
 */
module AllenTokenLayers {
  import opened Common
  import opened PyDict
  import opened BioDecode
  import opened SrlDecode
  import opened AllenCoref

  // ---- allennlp_ner and add_json_ner_allennlp ----

  datatype TokenEntity = TokenEntity(
    id: Option<string>, surfaceForm: string, category: string,
    locationStart: Option<nat>, locationEnd: Option<nat>, tokenStart: nat, tokenEnd: nat)

  /** The decoder's records: no id and no location yet; tokens shifted by `off`, the end one past the last token. */
  function DecodedEntities(spans: seq<Span<string>>, off: nat): Result<seq<TokenEntity>>
  {
    if spans == [] then Ok([])
    else
      var sp := spans[0];
      if |sp.indices| == 0 then Err(IndexError)
      else
        var e := TokenEntity(None, Join(sp.items, " "), ToUpper(sp.category), None, None,
                             off + sp.indices[0], off + sp.indices[|sp.indices| - 1] + 1);
        match DecodedEntities(spans[1..], off)
        case Err(err) => Err(err)
        case Ok(rest) => Ok([e] + rest)
  }

  /** The record of a decoded span whose sentence starts at document token `off`. */
  function DecodedEntity(sp: Span<string>, off: nat): TokenEntity
    requires |sp.indices| > 0
  {
    TokenEntity(None, Join(sp.items, " "), ToUpper(sp.category), None, None, off + sp.indices[0], off + sp.indices[|sp.indices| - 1] + 1)
  }

  /** Decoding fails only on a span without tokens, with `IndexError`; otherwise one record per span, in order. */
  lemma {:induction false} DecodedEntitiesShape(spans: seq<Span<string>>, off: nat)
    ensures var r := DecodedEntities(spans, off);
      && (r.Ok? <==> forall k :: 0 <= k < |spans| ==> |spans[k].indices| > 0)
      && (r.Err? ==> r.error == IndexError)
      && (r.Ok? ==> |r.value| == |spans| && forall k :: 0 <= k < |spans| ==> r.value[k] == DecodedEntity(spans[k], off))
  {
    if spans != [] {
      DecodedEntitiesShape(spans[1..], off);
      var r := DecodedEntities(spans, off);
      if r.Ok? {
        var rest := DecodedEntities(spans[1..], off);
        forall k | 1 <= k < |spans| ensures r.value[k] == DecodedEntity(spans[k], off) {
          assert r.value[k] == rest.value[k - 1] && spans[k] == spans[1..][k - 1];
        }
      } else {
        assert forall k :: 1 <= k < |spans| ==> spans[k] == spans[1..][k - 1];
      }
    }
  }

  /** `allennlp_ner` for one sentence whose first tagger token is document token `off`. */
  function SentenceEntities(words: seq<string>, tags: seq<string>, off: nat): Result<seq<TokenEntity>>
    requires |tags| <= |words|
  {
    DecodedEntities(NerSpans(Tagged(tags, words), Bilou), off)
  }

  /**
   * The decoder never fails. Its entities lie within the sentence, each
   * starting after the previous one ends, with no location yet.
   */
  lemma SentenceEntitiesShape(words: seq<string>, tags: seq<string>, off: nat)
    requires |tags| <= |words|
    ensures var r := SentenceEntities(words, tags, off);
      && r.Ok?
      && (forall k :: 0 <= k < |r.value| ==>
            && r.value[k].id == None && r.value[k].locationStart == None && r.value[k].locationEnd == None
            && off <= r.value[k].tokenStart < r.value[k].tokenEnd <= off + |tags|)
      && (forall k :: 0 <= k < |r.value| - 1 ==> r.value[k].tokenEnd <= r.value[k + 1].tokenStart)
  {
    var tagged := Tagged(tags, words);
    NerSpansOrdered(tagged, Bilou);
    var spans := NerSpans(tagged, Bilou);
    DecodedEntitiesShape(spans, off);
    forall k | 0 <= k < |spans| ensures |spans[k].indices| > 0 && spans[k].indices[0] <= LastIndex(spans[k]) && LastIndex(spans[k]) < |tags| {
      assert SpanIn(spans[k], tagged);
      if |spans[k].indices| > 1 {
        assert spans[k].indices[0] < spans[k].indices[|spans[k].indices| - 1];
      }
    }
  }

  /** The two in-place assignments: the start from token `tokenStart`, the end from token `tokenEnd - 1` (Python indexing). */
  function Locate(e: TokenEntity, tokenObjects: seq<TokenObject>): Result<TokenEntity>
  {
    match PyIndex(tokenObjects, e.tokenStart)
    case None => Err(IndexError)
    case Some(first) =>
      match PyIndex(tokenObjects, e.tokenEnd - 1)
      case None => Err(IndexError)
      case Some(last) => Ok(e.(locationStart := Some(first.startChar), locationEnd := Some(last.endChar)))
  }

  /** The first `n` entities, located; the first one that fails decides. */
  function LocateUpTo(es: seq<TokenEntity>, tokenObjects: seq<TokenObject>, n: nat): Result<seq<TokenEntity>>
    requires n <= |es|
  {
    if n == 0 then Ok([])
    else
      match LocateUpTo(es, tokenObjects, n - 1)
      case Err(err) => Err(err)
      case Ok(done) =>
        match Locate(es[n - 1], tokenObjects)
        case Err(err) => Err(err)
        case Ok(e) => Ok(done + [e])
  }

  /** An entity whose tokens all have records. */
  predicate Locatable(e: TokenEntity, tokenObjects: seq<TokenObject>)
  {
    e.tokenStart < |tokenObjects| && -|tokenObjects| <= e.tokenEnd - 1 < |tokenObjects|
  }

  /**
   * Locating succeeds iff every entity's tokens have records. It then keeps
   * everything but the two locations, which become the first token's
   * `start_char` and the last token's `end_char`.
   */
  lemma {:induction false} LocateUpToShape(es: seq<TokenEntity>, tokenObjects: seq<TokenObject>, n: nat)
    requires n <= |es|
    ensures var r := LocateUpTo(es, tokenObjects, n);
      && (r.Ok? <==> forall k :: 0 <= k < n ==> Locatable(es[k], tokenObjects))
      && (r.Err? ==> r.error == IndexError)
      && (r.Ok? ==> |r.value| == n && forall k :: 0 <= k < n ==>
            && r.value[k] == es[k].(locationStart := r.value[k].locationStart, locationEnd := r.value[k].locationEnd)
            && r.value[k].locationStart == Some(tokenObjects[es[k].tokenStart].startChar)
            && r.value[k].locationEnd == Some(PyIndex(tokenObjects, es[k].tokenEnd - 1).value.endChar))
    decreases n
  {
    if n > 0 {
      LocateUpToShape(es, tokenObjects, n - 1);
    }
  }

  /** A sentence as the NER tagger returns it. */
  datatype TaggedSentence = TaggedSentence(words: seq<string>, tags: seq<string>)

  predicate TagsFit(sentences: seq<TaggedSentence>)
  {
    forall k :: 0 <= k < |sentences| ==> |sentences[k].tags| <= |sentences[k].words|
  }

  /** What sentence `i` adds when its first tagger token is document token `off`. */
  function NerStepOf(s: TaggedSentence, tokenObjects: seq<TokenObject>, off: nat): Result<seq<TokenEntity>>
    requires |s.tags| <= |s.words|
  {
    match SentenceEntities(s.words, s.tags, off)
    case Err(err) => Err(err)
    case Ok(es) => LocateUpTo(es, tokenObjects, |es|)
  }

  /** The in-place location fill over one sentence's entities. */
  method LocateEntities(es: seq<TokenEntity>, tokenObjects: seq<TokenObject>) returns (r: Result<seq<TokenEntity>>)
    ensures r == LocateUpTo(es, tokenObjects, |es|)
  {
    var located := [];
    var j := 0;
    while j < |es|
      invariant j <= |es|
      invariant LocateUpTo(es, tokenObjects, j) == Ok(located)
    {
      var e := es[j];
      var first := PyIndex(tokenObjects, e.tokenStart);
      if first.None? {
        LocateFailFrom(es, tokenObjects, j + 1);
        return Err(IndexError);
      }
      e := e.(locationStart := Some(first.value.startChar));
      var last := PyIndex(tokenObjects, e.tokenEnd - 1);
      if last.None? {
        LocateFailFrom(es, tokenObjects, j + 1);
        return Err(IndexError);
      }
      e := e.(locationEnd := Some(last.value.endChar));
      located := located + [e];
      j := j + 1;
    }
    r := Ok(located);
  }

  lemma {:induction false} LocateFailFrom(es: seq<TokenEntity>, tokenObjects: seq<TokenObject>, n: nat)
    requires n <= |es| && LocateUpTo(es, tokenObjects, n).Err?
    ensures LocateUpTo(es, tokenObjects, |es|) == LocateUpTo(es, tokenObjects, n)
    decreases |es| - n
  {
    if n < |es| {
      LocateFailFrom(es, tokenObjects, n + 1);
    }
  }

  /**
   * `add_json_ner_allennlp`: the located entities of every sentence, in
   * order, each sentence shifted by the tagger token counts of the
   * sentences before it. The first failing lookup decides the error.
   */
  method AddJsonNer(sentences: seq<TaggedSentence>, tokenObjects: seq<TokenObject>) returns (r: Result<seq<TokenEntity>>)
    requires TagsFit(sentences)
    ensures r == ConcatResults(NerPieces(sentences, tokenObjects, 0))
  {
    var docEntities := [];
    var off: nat := 0;
    var i := 0;
    PrefixedEmpty(ConcatResults(NerPieces(sentences, tokenObjects, 0)));
    while i < |sentences|
      invariant i <= |sentences| && off == WordBase(sentences, i)
      invariant Prefixed(docEntities, ConcatResults(NerPieces(sentences, tokenObjects, i))) == ConcatResults(NerPieces(sentences, tokenObjects, 0))
    {
      var p;
      p, off := NerSentenceStep(sentences, tokenObjects, i, off);
      NerAdvance(sentences, tokenObjects, i, docEntities);
      if p.Err? {
        return Err(p.error);
      }
      docEntities := docEntities + p.value;
      i := i + 1;
    }
    assert docEntities + [] == docEntities;
    r := Ok(docEntities);
  }

  /** The body of the document loop for sentence `i`: decode, locate, and move the token offset on. */
  method NerSentenceStep(sentences: seq<TaggedSentence>, tokenObjects: seq<TokenObject>, i: nat, off: nat) returns (p: Result<seq<TokenEntity>>, next: nat)
    requires TagsFit(sentences) && i < |sentences| && off == WordBase(sentences, i)
    ensures p == NerStepOf(sentences[i], tokenObjects, WordBase(sentences, i)) && next == WordBase(sentences, i + 1)
  {
    var s := sentences[i];
    var spans := DecodeEntities(Tagged(s.tags, s.words), Bilou);
    var sentenceNer := DecodedEntities(spans, off);
    next := off + |s.words|;
    if sentenceNer.Err? {
      return Err(sentenceNer.error), next;
    }
    p := LocateEntities(sentenceNer.value, tokenObjects);
  }

  /** Document token of the first tagger token of sentence `i`: the tagger token counts of the earlier sentences. */
  function WordBase(sentences: seq<TaggedSentence>, i: nat): nat
    requires i <= |sentences|
  {
    if i == 0 then 0 else WordBase(sentences, i - 1) + |sentences[i - 1].words|
  }

  function NerPieces(sentences: seq<TaggedSentence>, tokenObjects: seq<TokenObject>, i: nat): (ps: seq<Result<seq<TokenEntity>>>)
    requires TagsFit(sentences) && i <= |sentences|
    ensures |ps| == |sentences| - i
    decreases |sentences| - i
  {
    if i == |sentences| then [] else [NerStepOf(sentences[i], tokenObjects, WordBase(sentences, i))] + NerPieces(sentences, tokenObjects, i + 1)
  }

  /** Sentence `i` either fails the document with its error or adds its entities to those so far. */
  lemma NerAdvance(sentences: seq<TaggedSentence>, tokenObjects: seq<TokenObject>, i: nat, acc: seq<TokenEntity>)
    requires TagsFit(sentences) && i < |sentences|
    ensures var p := NerStepOf(sentences[i], tokenObjects, WordBase(sentences, i));
      Prefixed(acc, ConcatResults(NerPieces(sentences, tokenObjects, i)))
      == if p.Err? then Err(p.error) else Prefixed(acc + p.value, ConcatResults(NerPieces(sentences, tokenObjects, i + 1)))
  {
    ConcatStep(acc, NerStepOf(sentences[i], tokenObjects, WordBase(sentences, i)), NerPieces(sentences, tokenObjects, i + 1));
  }

  /**
   * One sentence's piece: it fails only with `IndexError`, exactly when some
   * decoded entity reaches past the token records; otherwise every entity
   * lies in the sentence's window of document tokens and carries the
   * first token's `start_char` and the last token's `end_char`.
   */
  lemma NerStepShape(s: TaggedSentence, tokenObjects: seq<TokenObject>, off: nat)
    requires |s.tags| <= |s.words|
    ensures var r := NerStepOf(s, tokenObjects, off);
      var es := SentenceEntities(s.words, s.tags, off);
      && es.Ok?
      && (r.Ok? <==> forall k :: 0 <= k < |es.value| ==> Locatable(es.value[k], tokenObjects))
      && (r.Err? ==> r.error == IndexError)
      && (r.Ok? ==> |r.value| == |es.value| && forall k :: 0 <= k < |r.value| ==>
            && off <= r.value[k].tokenStart < r.value[k].tokenEnd <= off + |s.tags|
            && r.value[k].tokenEnd <= |tokenObjects|
            && r.value[k].locationStart == Some(tokenObjects[r.value[k].tokenStart].startChar)
            && r.value[k].locationEnd == Some(tokenObjects[r.value[k].tokenEnd - 1].endChar))
  {
    SentenceEntitiesShape(s.words, s.tags, off);
    var es := SentenceEntities(s.words, s.tags, off).value;
    LocateUpToShape(es, tokenObjects, |es|);
  }

  // ---- add_json_srl_allennlp ----

  datatype TokenArgument = TokenArgument(
    argumentId: string, surfaceForm: string, tokenStart: nat, tokenEnd: nat,
    locationStart: nat, locationEnd: nat, category: string)

  datatype TokenPredicate = TokenPredicate(
    predicateId: string, locationStart: nat, tokenStart: nat, tokenEnd: nat, locationEnd: nat,
    surfaceForm: string, predicateLemma: string, arguments: seq<TokenArgument>)

  /** The argument records of the `j`-th predicate of a sentence starting at document token `off`. */
  function TokenArguments(args: seq<SrlArgument>, j: nat, off: nat, tokenObjects: seq<TokenObject>): Result<seq<TokenArgument>>
  {
    if args == [] then Ok([])
    else
      var arg := args[0];
      if off + arg.start >= |tokenObjects| || off + arg.end >= |tokenObjects| then Err(IndexError)
      else
        match TokenArguments(args[1..], j, off, tokenObjects)
        case Err(err) => Err(err)
        case Ok(rest) => Ok([ArgumentRecord(arg, j, off, tokenObjects)] + rest)
  }

  /** The record of one argument: id `{j}_{label}`, tokens shifted by `off`, characters from the first and last token records. */
  function ArgumentRecord(arg: SrlArgument, j: nat, off: nat, tokenObjects: seq<TokenObject>): TokenArgument
    requires off + arg.start < |tokenObjects| && off + arg.end < |tokenObjects|
  {
    TokenArgument(NatToStr(j) + "_" + arg.category, arg.text, off + arg.start, off + arg.end + 1,
                  tokenObjects[off + arg.start].startChar, tokenObjects[off + arg.end].endChar, arg.category)
  }

  /** The arguments fail only with `IndexError`, exactly when one reaches past the token records; otherwise one record each. */
  lemma {:induction false} TokenArgumentsShape(args: seq<SrlArgument>, j: nat, off: nat, tokenObjects: seq<TokenObject>)
    ensures var r := TokenArguments(args, j, off, tokenObjects);
      && (r.Ok? <==> forall k :: 0 <= k < |args| ==> off + args[k].start < |tokenObjects| && off + args[k].end < |tokenObjects|)
      && (r.Err? ==> r.error == IndexError)
      && (r.Ok? ==> |r.value| == |args| && forall k :: 0 <= k < |args| ==> r.value[k] == ArgumentRecord(args[k], j, off, tokenObjects))
  {
    if args != [] {
      TokenArgumentsShape(args[1..], j, off, tokenObjects);
      var r := TokenArguments(args, j, off, tokenObjects);
      if r.Ok? {
        var rest := TokenArguments(args[1..], j, off, tokenObjects);
        forall k | 1 <= k < |args| ensures r.value[k] == ArgumentRecord(args[k], j, off, tokenObjects) {
          assert r.value[k] == rest.value[k - 1] && args[k] == args[1..][k - 1];
        }
      } else {
        assert forall k :: 1 <= k < |args| ==> args[k] == args[1..][k - 1];
      }
    }
  }

  /** The record of the `j`-th dictionary entry `(pos, args)`; the predicate's token record gives its location, text and lemma. */
  function TokenPredicateOf(j: nat, pos: nat, args: seq<SrlArgument>, off: nat, tokenObjects: seq<TokenObject>): Result<TokenPredicate>
  {
    if off + pos >= |tokenObjects| then Err(IndexError)
    else
      var t := tokenObjects[off + pos];
      match TokenArguments(args, j, off, tokenObjects)
      case Err(err) => Err(err)
      case Ok(argRecords) => Ok(TokenPredicate(NatToStr(j), t.startChar, off + pos, off + pos + 1, t.endChar, t.text, t.lemmaForm, argRecords))
  }

  /** The records of the first `n` dictionary entries; a predicate without arguments is dropped. */
  function TokenSentenceRecords(out: SrlOutput, n: nat, off: nat, tokenObjects: seq<TokenObject>): Result<seq<TokenPredicate>>
    requires out.predArgStruct.Valid() && n <= |out.predArgStruct.keys|
  {
    if n == 0 then Ok([])
    else
      match TokenSentenceRecords(out, n - 1, off, tokenObjects)
      case Err(err) => Err(err)
      case Ok(rs) =>
        var pos := out.predArgStruct.keys[n - 1];
        match TokenPredicateOf(n - 1, pos, out.predArgStruct.entries[pos], off, tokenObjects)
        case Err(err) => Err(err)
        case Ok(p) => if |p.arguments| > 0 then Ok(rs + [p]) else Ok(rs)
  }

  /** A sentence as the SRL tagger returns it. */
  datatype SrlParse = SrlParse(words: seq<string>, frames: seq<VerbFrame>)

  predicate FramesFit(sentences: seq<SrlParse>)
  {
    forall k, f :: 0 <= k < |sentences| && 0 <= f < |sentences[k].frames| ==> |sentences[k].frames[f].tags| <= |sentences[k].words|
  }

  function ParseOutput(s: SrlParse): (out: SrlOutput)
    requires forall f :: 0 <= f < |s.frames| ==> |s.frames[f].tags| <= |s.words|
    ensures out.predArgStruct.Valid()
  {
    SrlStructKeys(s.words, s.frames);
    SrlOutputOf(s.words, s.frames)
  }

  function SrlStepOf(s: SrlParse, off: nat, tokenObjects: seq<TokenObject>): Result<seq<TokenPredicate>>
    requires forall f :: 0 <= f < |s.frames| ==> |s.frames[f].tags| <= |s.words|
  {
    var out := ParseOutput(s);
    TokenSentenceRecords(out, |out.predArgStruct.keys|, off, tokenObjects)
  }

  lemma {:induction false} RecordsFailFrom(out: SrlOutput, n: nat, off: nat, tokenObjects: seq<TokenObject>)
    requires out.predArgStruct.Valid() && n <= |out.predArgStruct.keys|
    requires TokenSentenceRecords(out, n, off, tokenObjects).Err?
    ensures TokenSentenceRecords(out, |out.predArgStruct.keys|, off, tokenObjects) == TokenSentenceRecords(out, n, off, tokenObjects)
    decreases |out.predArgStruct.keys| - n
  {
    if n < |out.predArgStruct.keys| {
      RecordsFailFrom(out, n + 1, off, tokenObjects);
    }
  }

  /** The loop over one sentence's predicate dictionary. */
  method SentencePredicates(out: SrlOutput, off: nat, tokenObjects: seq<TokenObject>) returns (r: Result<seq<TokenPredicate>>)
    requires out.predArgStruct.Valid()
    ensures r == TokenSentenceRecords(out, |out.predArgStruct.keys|, off, tokenObjects)
  {
    var rs := [];
    var j := 0;
    while j < |out.predArgStruct.keys|
      invariant j <= |out.predArgStruct.keys|
      invariant TokenSentenceRecords(out, j, off, tokenObjects) == Ok(rs)
    {
      var pos := out.predArgStruct.keys[j];
      var p := TokenPredicateOf(j, pos, out.predArgStruct.entries[pos], off, tokenObjects);
      if p.Err? {
        RecordsFailFrom(out, j + 1, off, tokenObjects);
        return Err(p.error);
      }
      if |p.value.arguments| > 0 {
        rs := rs + [p.value];
      }
      j := j + 1;
    }
    r := Ok(rs);
  }

  /**
   * `add_json_srl_allennlp`: the records of every sentence, in order, each
   * sentence shifted by the SRL tagger token counts of the sentences
   * before it.
   */
  method AddJsonSrl(sentences: seq<SrlParse>, tokenObjects: seq<TokenObject>) returns (r: Result<seq<TokenPredicate>>)
    requires FramesFit(sentences)
    ensures r == ConcatResults(SrlPieces(sentences, tokenObjects, 0))
  {
    var layer := [];
    var off: nat := 0;
    var i := 0;
    PrefixedEmpty(ConcatResults(SrlPieces(sentences, tokenObjects, 0)));
    while i < |sentences|
      invariant i <= |sentences| && off == ParseBase(sentences, i)
      invariant Prefixed(layer, ConcatResults(SrlPieces(sentences, tokenObjects, i))) == ConcatResults(SrlPieces(sentences, tokenObjects, 0))
    {
      var rs;
      rs, off := SrlSentenceStep(sentences, tokenObjects, i, off);
      SrlAdvance(sentences, tokenObjects, i, layer);
      if rs.Err? {
        return Err(rs.error);
      }
      layer := layer + rs.value;
      i := i + 1;
    }
    assert layer + [] == layer;
    r := Ok(layer);
  }

  /** The body of the document loop for sentence `i`: parse, build the records, and move the token offset on. */
  method SrlSentenceStep(sentences: seq<SrlParse>, tokenObjects: seq<TokenObject>, i: nat, off: nat) returns (rs: Result<seq<TokenPredicate>>, next: nat)
    requires FramesFit(sentences) && i < |sentences| && off == ParseBase(sentences, i)
    ensures rs == SrlStepOf(sentences[i], ParseBase(sentences, i), tokenObjects) && next == ParseBase(sentences, i + 1)
  {
    var s := sentences[i];
    var out := ParseSrl(s.words, s.frames);
    SrlStructKeys(s.words, s.frames);
    assert out == ParseOutput(s);
    rs := SentencePredicates(out, off, tokenObjects);
    next := off + |out.tokens|;
  }

  function ParseBase(sentences: seq<SrlParse>, i: nat): nat
    requires i <= |sentences|
  {
    if i == 0 then 0 else ParseBase(sentences, i - 1) + |sentences[i - 1].words|
  }

  function SrlPieces(sentences: seq<SrlParse>, tokenObjects: seq<TokenObject>, i: nat): (ps: seq<Result<seq<TokenPredicate>>>)
    requires FramesFit(sentences) && i <= |sentences|
    ensures |ps| == |sentences| - i
    decreases |sentences| - i
  {
    if i == |sentences| then [] else [SrlStepOf(sentences[i], ParseBase(sentences, i), tokenObjects)] + SrlPieces(sentences, tokenObjects, i + 1)
  }

  /** Sentence `i` either fails the document with its error or adds its records to those so far. */
  lemma SrlAdvance(sentences: seq<SrlParse>, tokenObjects: seq<TokenObject>, i: nat, acc: seq<TokenPredicate>)
    requires FramesFit(sentences) && i < |sentences|
    ensures var p := SrlStepOf(sentences[i], ParseBase(sentences, i), tokenObjects);
      Prefixed(acc, ConcatResults(SrlPieces(sentences, tokenObjects, i)))
      == if p.Err? then Err(p.error) else Prefixed(acc + p.value, ConcatResults(SrlPieces(sentences, tokenObjects, i + 1)))
  {
    ConcatStep(acc, SrlStepOf(sentences[i], ParseBase(sentences, i), tokenObjects), SrlPieces(sentences, tokenObjects, i + 1));
  }

  /** What a record of a sentence starting at document token `off` looks like, apart from its id. */
  predicate RecordFields(p: TokenPredicate, off: nat, tokenObjects: seq<TokenObject>)
  {
    && off <= p.tokenStart < |tokenObjects| && p.tokenEnd == p.tokenStart + 1
    && p.locationStart == tokenObjects[p.tokenStart].startChar && p.locationEnd == tokenObjects[p.tokenStart].endChar
    && p.surfaceForm == tokenObjects[p.tokenStart].text && p.predicateLemma == tokenObjects[p.tokenStart].lemmaForm
    && forall k :: 0 <= k < |p.arguments| ==>
         var a := p.arguments[k];
         && off <= a.tokenStart < |tokenObjects| && off < a.tokenEnd <= |tokenObjects|
         && a.locationStart == tokenObjects[a.tokenStart].startChar && a.locationEnd == tokenObjects[a.tokenEnd - 1].endChar
  }

  lemma TokenPredicateOfShape(j: nat, pos: nat, args: seq<SrlArgument>, off: nat, tokenObjects: seq<TokenObject>)
    ensures var p := TokenPredicateOf(j, pos, args, off, tokenObjects);
      p.Ok? ==> RecordFields(p.value, off, tokenObjects) && p.value.predicateId == NatToStr(j) && |p.value.arguments| == |args|
  {
    TokenArgumentsShape(args, j, off, tokenObjects);
  }

  /** A record of the first `n` dictionary entries: it has arguments and is the `j`-th entry for some `j < n`. */
  predicate PredicateOk(p: TokenPredicate, n: nat, off: nat, tokenObjects: seq<TokenObject>)
  {
    && |p.arguments| > 0 && RecordFields(p, off, tokenObjects)
    && exists j: nat :: j < n && p.predicateId == NatToStr(j)
  }

  /** Every record is one of the first `n` entries, and no two share a predicate id. */
  predicate PredicatesOk(rs: seq<TokenPredicate>, n: nat, off: nat, tokenObjects: seq<TokenObject>)
  {
    && (forall k :: 0 <= k < |rs| ==> PredicateOk(rs[k], n, off, tokenObjects))
    && (forall a, b :: 0 <= a < b < |rs| ==> rs[a].predicateId != rs[b].predicateId)
  }

  /**
   * Every record of a sentence has arguments, takes the predicate's
   * location, text and lemma from its token record, and has an id no other
   * record of the sentence has. Argument spans run from the first token's
   * `start_char` to the last token's `end_char`.
   */
  lemma {:induction false} TokenRecordsShape(out: SrlOutput, n: nat, off: nat, tokenObjects: seq<TokenObject>)
    requires out.predArgStruct.Valid() && n <= |out.predArgStruct.keys|
    ensures var r := TokenSentenceRecords(out, n, off, tokenObjects);
      r.Ok? ==> |r.value| <= n && PredicatesOk(r.value, n, off, tokenObjects)
  {
    if n > 0 {
      TokenRecordsShape(out, n - 1, off, tokenObjects);
      var r0 := TokenSentenceRecords(out, n - 1, off, tokenObjects);
      if r0.Ok? {
        var pos := out.predArgStruct.keys[n - 1];
        var p := TokenPredicateOf(n - 1, pos, out.predArgStruct.entries[pos], off, tokenObjects);
        TokenPredicateOfShape(n - 1, pos, out.predArgStruct.entries[pos], off, tokenObjects);
        PredicatesOkLater(r0.value, n - 1, off, tokenObjects);
        if p.Ok? && |p.value.arguments| > 0 {
          PredicatesOkSnoc(r0.value, p.value, n - 1, off, tokenObjects);
        }
      }
    }
  }

  lemma PredicateOkLater(p: TokenPredicate, n: nat, off: nat, tokenObjects: seq<TokenObject>)
    requires PredicateOk(p, n, off, tokenObjects)
    ensures PredicateOk(p, n + 1, off, tokenObjects)
  {
    var j: nat :| j < n && p.predicateId == NatToStr(j);
  }

  lemma PredicatesOkLater(rs: seq<TokenPredicate>, n: nat, off: nat, tokenObjects: seq<TokenObject>)
    requires PredicatesOk(rs, n, off, tokenObjects)
    ensures PredicatesOk(rs, n + 1, off, tokenObjects)
  {
    forall k | 0 <= k < |rs| ensures PredicateOk(rs[k], n + 1, off, tokenObjects) {
      PredicateOkLater(rs[k], n, off, tokenObjects);
    }
  }

  /** Appending the record of entry `n` keeps the records well formed: its id is new. */
  lemma PredicatesOkSnoc(rs: seq<TokenPredicate>, p: TokenPredicate, n: nat, off: nat, tokenObjects: seq<TokenObject>)
    requires PredicatesOk(rs, n, off, tokenObjects) && |p.arguments| > 0 && RecordFields(p, off, tokenObjects)
    requires p.predicateId == NatToStr(n)
    ensures PredicatesOk(rs + [p], n + 1, off, tokenObjects)
  {
    var rs' := rs + [p];
    forall k | 0 <= k < |rs'| ensures PredicateOk(rs'[k], n + 1, off, tokenObjects) {
      if k < |rs| {
        PredicateOkLater(rs[k], n, off, tokenObjects);
      }
    }
    forall a, b | 0 <= a < b < |rs'| ensures rs'[a].predicateId != rs'[b].predicateId {
      if b == |rs| {
        assert PredicateOk(rs[a], n, off, tokenObjects);
        var j: nat :| j < n && rs[a].predicateId == NatToStr(j);
        if rs'[a].predicateId == rs'[b].predicateId {
          NatToStrInjective(j, n);
        }
      }
    }
  }

  // ---- add_json_coref_allennlp ----

  /** Word budget of the document handed to the coreference resolver. */
  const CorefWordLimit: nat := 400

  /**
   * The coreference layer. The resolver sees the longest run of leading
   * sentences within `CorefWordLimit` words, joined by spaces; it returns
   * its tokens and clusters. The mentions are keyed by cluster, and their
   * character offsets are filled only when the resolver's token count
   * equals the number of token records.
   */
  method AddJsonCoref(sentences: seq<string>, resolverTokens: seq<string>, clusters: seq<seq<TokenSpan>>, tokenObjects: seq<TokenObject>)
    returns (doc: string, layer: Dict<nat, seq<TokenMention>>)
    ensures exists kept :: && kept <= sentences && WordCount(kept) <= CorefWordLimit
                           && (|kept| < |sentences| ==> WordCount(sentences[..|kept| + 1]) > CorefWordLimit)
                           && doc == Join(kept, " ")
    ensures layer == FillAll(TokenClusters(resolverTokens, clusters), |resolverTokens|, tokenObjects)
  {
    var kept := TruncateForCoref(sentences, CorefWordLimit);
    doc := Join(kept, " ");
    layer := FillLocations(TokenClusters(resolverTokens, clusters), |resolverTokens|, tokenObjects);
  }
}
