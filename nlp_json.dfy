/**
 * The conversion of a tagger's token records into the pipelines' JSON
 * structures: the per-token record, the grouping of tokens into sentences
 * by `sent_id`, the morphology layer built from those groups, the
 * per-language `nlp_to_dict` envelopes, the empty template, and the
 * document-level offsets of the Dutch Flair NER layer.
 */

module NlpJson {
  import opened Common
  import opened PyDict

  /** A token record of a tagger's output (an entry of `token_objs`); `M` is the tagger's morphology value. */
  datatype NlpToken<M> = NlpToken(id: int, text: string, lemmaForm: string, upos: string, xpos: string,
                                  depHead: int, depRel: string, morph: M, spaceAfter: bool,
                                  startChar: int, endChar: int, sentId: int, nerIob: string)

  /** The `MISC` field of a JSON token; only the Finnish pipeline fills `NamedEntityLabel`. */
  datatype Misc = Misc(spaceAfter: bool, startChar: int, endChar: int, namedEntityLabel: Option<string>)

  /** The `TokenJSON` dataclass. */
  datatype TokenJson<F> = TokenJson(id: int, form: string, lemmaForm: string, upos: string, xpos: string,
                                    head: int, depRel: string, deps: Option<string>, misc: Misc, feats: F)

  /** `nlp_token2json_token`: the fields copied one to one, `DEPS` empty, the morphology kept as `FEATS`. */
  function TokenToJson<M>(t: NlpToken<M>): TokenJson<M>
  {
    TokenJson(t.id, t.text, t.lemmaForm, t.upos, t.xpos, t.depHead, t.depRel, None,
              Misc(t.spaceAfter, t.startChar, t.endChar, None), t.morph)
  }

  /** Reading a token record back from its JSON token and the two fields the JSON does not carry. */
  function TokenFromJson<M>(j: TokenJson<M>, sentId: int, nerIob: string): NlpToken<M>
  {
    NlpToken(j.id, j.form, j.lemmaForm, j.upos, j.xpos, j.head, j.depRel, j.feats, j.misc.spaceAfter,
             j.misc.startChar, j.misc.endChar, sentId, nerIob)
  }

  /** The JSON token loses nothing but the sentence number and the NER tag, has no `DEPS` and no NER label. */
  lemma TokenJsonRoundTrip<M>(t: NlpToken<M>)
    ensures TokenFromJson(TokenToJson(t), t.sentId, t.nerIob) == t
    ensures TokenToJson(t).deps == None && TokenToJson(t).misc.namedEntityLabel == None
  {
  }

  function Texts<M>(toks: seq<NlpToken<M>>): (ts: seq<string>)
    ensures |ts| == |toks| && forall i :: 0 <= i < |toks| ==> ts[i] == toks[i].text
  {
    seq(|toks|, i requires 0 <= i < |toks| => toks[i].text)
  }

  function SentIds<M>(toks: seq<NlpToken<M>>): (ids: seq<int>)
    ensures |ids| == |toks| && forall i :: 0 <= i < |toks| ==> ids[i] == toks[i].sentId
  {
    seq(|toks|, i requires 0 <= i < |toks| => toks[i].sentId)
  }

  // ---- grouping tokens by sent_id ----

  /** `sentencized[sent_id].append(tok)` on the defaultdict. */
  function AddToSentence<M>(d: Dict<int, seq<NlpToken<M>>>, t: NlpToken<M>): Dict<int, seq<NlpToken<M>>>
  {
    d.Put(t.sentId, (if t.sentId in d.entries then d.entries[t.sentId] else []) + [t])
  }

  function Sentencize<M>(toks: seq<NlpToken<M>>): Dict<int, seq<NlpToken<M>>>
  {
    if toks == [] then Empty() else AddToSentence(Sentencize(toks[..|toks| - 1]), toks[|toks| - 1])
  }

  /** The grouping loop shared by every `nlp_to_dict` and `add_morphosyntax`. */
  method GroupBySentence<M>(toks: seq<NlpToken<M>>) returns (sentencized: Dict<int, seq<NlpToken<M>>>)
    ensures sentencized == Sentencize(toks)
  {
    sentencized := Empty();
    var k := 0;
    while k < |toks|
      invariant k <= |toks|
      invariant sentencized == Sentencize(toks[..k])
    {
      assert toks[..k + 1][..k] == toks[..k];
      sentencized := AddToSentence(sentencized, toks[k]);
      k := k + 1;
    }
    assert toks[..k] == toks;
  }

  /** The tokens of sentence `s`, in input order. */
  function InSentence<M>(toks: seq<NlpToken<M>>, s: int): seq<NlpToken<M>>
  {
    if toks == [] then []
    else InSentence(toks[..|toks| - 1], s) + (if toks[|toks| - 1].sentId == s then [toks[|toks| - 1]] else [])
  }

  lemma {:induction false} InSentenceAbsent<M>(toks: seq<NlpToken<M>>, s: int)
    requires s !in SentIds(toks)
    ensures InSentence(toks, s) == []
  {
    if toks != [] {
      var pre := toks[..|toks| - 1];
      assert toks[|toks| - 1].sentId == SentIds(toks)[|toks| - 1];
      forall x | x in SentIds(pre) ensures x in SentIds(toks) {
        var i :| 0 <= i < |pre| && SentIds(pre)[i] == x;
        assert SentIds(toks)[i] == x;
      }
      InSentenceAbsent(pre, s);
    }
  }

  /** The groups are keyed by the distinct sentence numbers in first-appearance order and hold each sentence's tokens in order. */
  ghost predicate Grouped<M>(d: Dict<int, seq<NlpToken<M>>>, toks: seq<NlpToken<M>>)
  {
    d.Valid() && d.keys == Dedup(SentIds(toks)) && forall s :: s in d.entries ==> d.entries[s] == InSentence(toks, s)
  }

  lemma GroupedSnoc<M>(d: Dict<int, seq<NlpToken<M>>>, toks: seq<NlpToken<M>>, t: NlpToken<M>)
    requires Grouped(d, toks)
    ensures Grouped(AddToSentence(d, t), toks + [t])
  {
    var toks' := toks + [t];
    assert toks'[..|toks|] == toks;
    assert SentIds(toks') == SentIds(toks) + [t.sentId];
    assert SentIds(toks')[..|toks|] == SentIds(toks);
    DedupMembers(SentIds(toks));
    if t.sentId !in d.entries {
      InSentenceAbsent(toks, t.sentId);
    }
  }

  /**
   * Grouping by `sent_id` makes one group per distinct sentence number, in
   * first-appearance order, holding that sentence's tokens in input order.
   */
  lemma {:induction false} SentencizeSpec<M>(toks: seq<NlpToken<M>>)
    ensures Grouped(Sentencize(toks), toks)
  {
    if toks != [] {
      var pre := toks[..|toks| - 1];
      SentencizeSpec(pre);
      assert toks == pre + [toks[|toks| - 1]];
      GroupedSnoc(Sentencize(pre), pre, toks[|toks| - 1]);
    }
  }

  // ---- the morphology layer ----

  /** One entry of the morphology layer. */
  datatype MorphSentence<F> = MorphSentence(paragraph: Option<int>, sentence: Option<int>, text: string, words: seq<TokenJson<F>>)

  function Words<M>(sentence: seq<NlpToken<M>>): (ws: seq<TokenJson<M>>)
    ensures |ws| == |sentence| && forall i :: 0 <= i < |sentence| ==> ws[i] == TokenToJson(sentence[i])
  {
    seq(|sentence|, i requires 0 <= i < |sentence| => TokenToJson(sentence[i]))
  }

  /** The entry of one group: its text is the group's own token texts joined by spaces. */
  function SentenceEntry<M>(paragraph: Option<int>, numbered: bool, sentId: int, sentence: seq<NlpToken<M>>): MorphSentence<M>
  {
    MorphSentence(paragraph, if numbered then Some(sentId) else None, Join(Texts(sentence), " "), Words(sentence))
  }

  /** The entries of the first `n` groups; `numbered` says whether the entry records its `sent_id`. */
  function Morphology<M>(d: Dict<int, seq<NlpToken<M>>>, paragraph: Option<int>, numbered: bool, n: nat): seq<MorphSentence<M>>
    requires d.Valid() && n <= |d.keys|
  {
    seq(n, i requires 0 <= i < n => SentenceEntry(paragraph, numbered, d.keys[i], d.entries[d.keys[i]]))
  }

  lemma MorphologySnoc<M>(d: Dict<int, seq<NlpToken<M>>>, paragraph: Option<int>, numbered: bool, n: nat)
    requires d.Valid() && n < |d.keys|
    ensures Morphology(d, paragraph, numbered, n + 1)
      == Morphology(d, paragraph, numbered, n) + [SentenceEntry(paragraph, numbered, d.keys[n], d.entries[d.keys[n]])]
  {
    assert d.keys[n] in d.keys;
  }

  /** The grouping loop followed by the loop over `sentencized.items()`. */
  method MorphologyOf<M>(toks: seq<NlpToken<M>>, paragraph: Option<int>, numbered: bool) returns (ms: seq<MorphSentence<M>>)
    ensures var d := Sentencize(toks); d.Valid() && ms == Morphology(d, paragraph, numbered, |d.keys|)
  {
    var sentencized := GroupBySentence(toks);
    SentencizeSpec(toks);
    ms := [];
    var n := 0;
    while n < |sentencized.keys|
      invariant n <= |sentencized.keys|
      invariant ms == Morphology(sentencized, paragraph, numbered, n)
    {
      var sentId := sentencized.keys[n];
      MorphologySnoc(sentencized, paragraph, numbered, n);
      ms := ms + [SentenceEntry(paragraph, numbered, sentId, sentencized.entries[sentId])];
      n := n + 1;
    }
  }

  /** The morphology layer of a token list. */
  function MorphologyLayer<M>(toks: seq<NlpToken<M>>, paragraph: Option<int>, numbered: bool): seq<MorphSentence<M>>
  {
    SentencizeSpec(toks);
    var d := Sentencize(toks);
    Morphology(d, paragraph, numbered, |d.keys|)
  }

  /**
   * The morphology layer has one entry per distinct `sent_id`, in order of
   * first appearance; each entry carries the given paragraph, its sentence
   * number when numbered, the text of its own tokens joined by spaces, and
   * its tokens' JSON records in input order.
   */
  lemma MorphologySpec<M>(toks: seq<NlpToken<M>>, paragraph: Option<int>, numbered: bool)
    ensures var ms, ids := MorphologyLayer(toks, paragraph, numbered), Dedup(SentIds(toks));
      && |ms| == |ids|
      && forall i :: 0 <= i < |ms| ==>
           && ms[i].paragraph == paragraph
           && ms[i].sentence == (if numbered then Some(ids[i]) else None)
           && ms[i].text == Join(Texts(InSentence(toks, ids[i])), " ")
           && ms[i].words == Words(InSentence(toks, ids[i]))
  {
    SentencizeSpec(toks);
    var d := Sentencize(toks);
    forall i | 0 <= i < |d.keys| ensures d.keys[i] in d.entries {
    }
  }

  /** The entries follow the sentence numbers' first appearances and name each once. */
  lemma MorphologyOrder<M>(toks: seq<NlpToken<M>>)
    ensures var ms := MorphologyLayer(toks, None, true);
      && (forall s :: (exists i :: 0 <= i < |ms| && ms[i].sentence == Some(s)) <==> s in SentIds(toks))
      && forall a, b :: 0 <= a < b < |ms| ==> (ms[a].sentence.Some? && ms[b].sentence.Some?
           && FirstIndex(SentIds(toks), ms[a].sentence.value) < FirstIndex(SentIds(toks), ms[b].sentence.value))
  {
    var ms, ids := MorphologyLayer(toks, None, true), Dedup(SentIds(toks));
    MorphologySpec(toks, None, true);
    DedupSpec(SentIds(toks));
    forall s ensures (exists i :: 0 <= i < |ms| && ms[i].sentence == Some(s)) <==> s in SentIds(toks) {
      if s in SentIds(toks) {
        assert s in ids;
        var i :| 0 <= i < |ids| && ids[i] == s;
        assert ms[i].sentence == Some(s);
      }
    }
  }

  // ---- the nlp_to_dict envelopes ----

  /** The tagger output handed to `nlp_to_dict`; an absent optional layer is `None`. */
  datatype NlpOutput<M, L> = NlpOutput(inputText: string, tokenObjs: seq<NlpToken<M>>, entities: Option<seq<L>>,
                                       timeExpressions: Option<seq<L>>, semanticRoles: Option<seq<L>>, coreference: Option<seq<L>>)

  /** `nlp_dict.get(layer, [])` */
  function OrEmpty<L>(o: Option<seq<L>>): (r: seq<L>)
    ensures o.None? ==> r == []
    ensures o.Some? ==> r == o.value
  {
    if o.Some? then o.value else []
  }

  /** The `data` of english/utils/nlp_common.py's `nlp_to_dict`; tokenization and morphology are keyed by the model name. */
  datatype CommonDoc<M, L> = CommonDoc(text: string, tokenization: map<string, seq<string>>, morphology: map<string, seq<MorphSentence<M>>>,
                                       entities: seq<L>, timeExpressions: seq<L>, semanticRoles: seq<L>, coreference: seq<L>)

  /** `add_morphosyntax`: paragraph 0 and the sentence number on every entry. */
  function AddMorphosyntax<M>(toks: seq<NlpToken<M>>): seq<MorphSentence<M>>
  {
    MorphologyLayer(toks, Some(0), true)
  }

  function CommonNlpToDict<M, L>(nd: NlpOutput<M, L>, model: string): CommonDoc<M, L>
  {
    CommonDoc(nd.inputText, map[model := Texts(nd.tokenObjs)], map[model := AddMorphosyntax(nd.tokenObjs)],
              OrEmpty(nd.entities), OrEmpty(nd.timeExpressions), OrEmpty(nd.semanticRoles), OrEmpty(nd.coreference))
  }

  /**
   * english/utils/nlp_common.py: the tokenization is the token texts in
   * order under the model's name, the morphology has paragraph 0 and one
   * numbered entry per sentence, and absent layers become empty.
   */
  lemma CommonNlpToDictSpec<M, L>(nd: NlpOutput<M, L>, model: string)
    ensures var doc := CommonNlpToDict(nd, model);
      && doc.text == nd.inputText
      && doc.tokenization.Keys == {model} && |doc.tokenization[model]| == |nd.tokenObjs|
      && (forall i :: 0 <= i < |nd.tokenObjs| ==> doc.tokenization[model][i] == nd.tokenObjs[i].text)
      && doc.morphology.Keys == {model} && |doc.morphology[model]| == |Dedup(SentIds(nd.tokenObjs))|
      && (forall i :: 0 <= i < |doc.morphology[model]| ==> (doc.morphology[model][i].paragraph == Some(0)
            && doc.morphology[model][i].sentence == Some(Dedup(SentIds(nd.tokenObjs))[i])))
      && (nd.entities.None? ==> doc.entities == []) && (nd.timeExpressions.None? ==> doc.timeExpressions == [])
      && (nd.semanticRoles.None? ==> doc.semanticRoles == []) && (nd.coreference.None? ==> doc.coreference == [])
  {
    MorphologySpec(nd.tokenObjs, Some(0), true);
  }

  /** The `data` of dutch/utils_nlp.py's `nlp_to_dict`. */
  datatype DutchDoc<M, L> = DutchDoc(text: string, morphology: seq<MorphSentence<M>>, entities: seq<L>,
                                     timeExpressions: seq<L>, semanticRoles: seq<L>)

  function DutchNlpToDict<M, L>(nd: NlpOutput<M, L>): DutchDoc<M, L>
  {
    DutchDoc(nd.inputText, MorphologyLayer(nd.tokenObjs, None, true), OrEmpty(nd.entities),
             OrEmpty(nd.timeExpressions), OrEmpty(nd.semanticRoles))
  }

  /**
   * dutch/utils_nlp.py: one morphology entry per distinct `sent_id` with
   * `sentence` set to it and no paragraph, and absent layers become empty.
   */
  lemma DutchNlpToDictSpec<M, L>(nd: NlpOutput<M, L>)
    ensures var doc, ids := DutchNlpToDict(nd), Dedup(SentIds(nd.tokenObjs));
      && |doc.morphology| == |ids|
      && (forall i :: 0 <= i < |ids| ==> (doc.morphology[i].paragraph == None && doc.morphology[i].sentence == Some(ids[i])
            && doc.morphology[i].words == Words(InSentence(nd.tokenObjs, ids[i]))))
      && (nd.entities.None? ==> doc.entities == []) && (nd.timeExpressions.None? ==> doc.timeExpressions == [])
      && (nd.semanticRoles.None? ==> doc.semanticRoles == [])
  {
    MorphologySpec(nd.tokenObjs, None, true);
  }

  /** The `data` of english/utils_nlp.py's `nlp_to_dict`. */
  datatype EnglishDoc<M, L> = EnglishDoc(text: string, morphology: seq<MorphSentence<M>>, entities: seq<L>, timeExps: seq<L>, events: seq<L>)

  /** `nlp_dict['entities']` is read without a default: its absence raises KeyError. */
  function EnglishNlpToDict<M, L>(nd: NlpOutput<M, L>): Result<EnglishDoc<M, L>>
  {
    if nd.entities.None? then Err(KeyError)
    else Ok(EnglishDoc(nd.inputText, MorphologyLayer(nd.tokenObjs, None, true), nd.entities.value, [], []))
  }

  /**
   * english/utils_nlp.py: the document fails exactly when the entities are
   * absent; otherwise they pass through unchanged, the time expressions and
   * events are always empty, and the morphology has one numbered entry per
   * sentence.
   */
  lemma EnglishNlpToDictSpec<M, L>(nd: NlpOutput<M, L>)
    ensures EnglishNlpToDict(nd).Err? <==> nd.entities.None?
    ensures EnglishNlpToDict(nd).Err? ==> EnglishNlpToDict(nd).error == KeyError
    ensures var r, ids := EnglishNlpToDict(nd), Dedup(SentIds(nd.tokenObjs));
      r.Ok? ==> (r.value.entities == nd.entities.value && r.value.timeExps == [] && r.value.events == []
        && |r.value.morphology| == |ids|
        && forall i :: 0 <= i < |ids| ==> (r.value.morphology[i].sentence == Some(ids[i])
             && r.value.morphology[i].words == Words(InSentence(nd.tokenObjs, ids[i]))))
  {
    MorphologySpec(nd.tokenObjs, None, true);
  }

  // ---- create_nlp_template ----

  /** The `data` of a stored or fresh document, as far as the template fixes it. */
  datatype Template<L> = Template(text: string, tokenization: map<string, seq<string>>, morphology: map<string, seq<L>>,
                                  entities: seq<L>, timeExpressions: seq<L>, semanticRoles: seq<L>, coreference: seq<L>)

  function DefaultTemplate<L>(text: string): Template<L>
  {
    Template(text, map[], map[], [], [], [], [])
  }

  /**
   * `create_nlp_template(text, filepath)`; `stored` is what the file at
   * `filepath` holds, `None` when it does not exist.
   */
  function CreateNlpTemplate<L>(text: string, filepath: Option<string>, stored: Option<Template<L>>): (r: (Template<L>, bool))
    ensures !Truthy(filepath) ==> r == (DefaultTemplate(text), false)
    ensures Truthy(filepath) && stored.None? ==> r == (DefaultTemplate(text), false)
    ensures r.1 <==> Truthy(filepath) && stored.Some?
    ensures r.1 ==> r.0 == stored.value
  {
    if !Truthy(filepath) then (DefaultTemplate(text), false)
    else if stored.Some? then (stored.value, true)
    else (DefaultTemplate(text), false)
  }

  /** A fresh template holds the text and nothing else. */
  lemma FreshTemplateEmpty<L>(text: string)
    ensures var (t, fromFile) := CreateNlpTemplate<L>(text, None, None);
      !fromFile && t.text == text && t.tokenization == map[] && t.morphology == map[]
      && t.entities == [] && t.timeExpressions == [] && t.semanticRoles == [] && t.coreference == []
  {
  }

  // ---- add_json_flair_ner (dutch/utils_nlp.py) ----

  /** A tagged span of one sentence, with offsets within that sentence. */
  datatype FlairSpan = FlairSpan(entity: string, text: string, start: int, end: int)

  datatype NerRecord = NerRecord(id: nat, category: string, surfaceForm: string, locationStart: int, locationEnd: int, methodName: string)

  const FlairDutchModel: string := "flair_ner-dutch-large"

  function NerRecordOf(i: nat, e: FlairSpan, offset: int): NerRecord
  {
    NerRecord(i, e.entity, e.text, offset + e.start, offset + e.end, FlairDutchModel)
  }

  /** The records of one sentence at a document offset. */
  function SentenceRecords(i: nat, spans: seq<FlairSpan>, offset: int): (rs: seq<NerRecord>)
    ensures |rs| == |spans| && forall j :: 0 <= j < |spans| ==> rs[j] == NerRecordOf(i, spans[j], offset)
  {
    seq(|spans|, j requires 0 <= j < |spans| => NerRecordOf(i, spans[j], offset))
  }

  datatype FlairState = FlairState(records: seq<NerRecord>, docOffset: int)

  /** The first `n` sentences; the next offset reads `sentences[i]` (IndexError past its end). */
  function FlairRun(tagged: seq<seq<FlairSpan>>, sentences: seq<string>, n: nat): Result<FlairState>
    requires n <= |tagged|
  {
    if n == 0 then Ok(FlairState([], 0))
    else
      match FlairRun(tagged, sentences, n - 1)
      case Err(e) => Err(e)
      case Ok(st) =>
        if n - 1 >= |sentences| then Err(IndexError)
        else Ok(FlairState(st.records + SentenceRecords(n - 1, tagged[n - 1], st.docOffset), st.docOffset + |sentences[n - 1]|))
  }

  function AddJsonFlairNerSpec(tagged: seq<seq<FlairSpan>>, sentences: seq<string>): Result<seq<NerRecord>>
  {
    match FlairRun(tagged, sentences, |tagged|)
    case Err(e) => Err(e)
    case Ok(st) => Ok(st.records)
  }

  lemma {:induction false} FlairErrStays(tagged: seq<seq<FlairSpan>>, sentences: seq<string>, n: nat)
    requires n <= |tagged| && FlairRun(tagged, sentences, n).Err?
    ensures FlairRun(tagged, sentences, |tagged|) == FlairRun(tagged, sentences, n)
    decreases |tagged| - n
  {
    if n < |tagged| {
      FlairErrStays(tagged, sentences, n + 1);
    }
  }

  /** `add_json_flair_ner` */
  method AddJsonFlairNer(tagged: seq<seq<FlairSpan>>, sentences: seq<string>) returns (r: Result<seq<NerRecord>>)
    ensures r == AddJsonFlairNerSpec(tagged, sentences)
  {
    var nerAll: seq<NerRecord> := [];
    var docOffset := 0;
    var i := 0;
    while i < |tagged|
      invariant i <= |tagged|
      invariant FlairRun(tagged, sentences, i) == Ok(FlairState(nerAll, docOffset))
    {
      var j := 0;
      var before := nerAll;
      while j < |tagged[i]|
        invariant j <= |tagged[i]|
        invariant nerAll == before + SentenceRecords(i, tagged[i][..j], docOffset)
      {
        assert SentenceRecords(i, tagged[i][..j + 1], docOffset) == SentenceRecords(i, tagged[i][..j], docOffset) + [NerRecordOf(i, tagged[i][j], docOffset)];
        nerAll := nerAll + [NerRecordOf(i, tagged[i][j], docOffset)];
        j := j + 1;
      }
      assert tagged[i][..j] == tagged[i];
      if i >= |sentences| {
        FlairErrStays(tagged, sentences, i + 1);
        return Err(IndexError);
      }
      docOffset := docOffset + |sentences[i]|;
      i := i + 1;
    }
    r := Ok(nerAll);
  }

  /** The summed lengths of the first `n` sentences, joined with no separator. */
  function PrefixLength(sentences: seq<string>, n: nat): nat
    requires n <= |sentences|
  {
    if n == 0 then 0 else PrefixLength(sentences, n - 1) + |sentences[n - 1]|
  }

  /** The records of the first `n` sentences, each shifted by the summed lengths of the sentences before it. */
  function ShiftedRecords(tagged: seq<seq<FlairSpan>>, sentences: seq<string>, n: nat): seq<NerRecord>
    requires n <= |tagged| && n <= |sentences|
  {
    if n == 0 then [] else ShiftedRecords(tagged, sentences, n - 1) + SentenceRecords(n - 1, tagged[n - 1], PrefixLength(sentences, n - 1))
  }

  lemma {:induction false} FlairRunSpec(tagged: seq<seq<FlairSpan>>, sentences: seq<string>, n: nat)
    requires n <= |tagged|
    ensures FlairRun(tagged, sentences, n).Err? <==> n > |sentences|
    ensures n <= |sentences| ==> FlairRun(tagged, sentences, n) == Ok(FlairState(ShiftedRecords(tagged, sentences, n), PrefixLength(sentences, n)))
  {
    if n > 0 {
      FlairRunSpec(tagged, sentences, n - 1);
    }
  }

  /**
   * One record per tagged span, sentence by sentence and in order, each
   * with `ID` its sentence's index and its offsets shifted by the summed
   * lengths of the earlier sentences; fewer sentence texts than tagged
   * sentences raise IndexError.
   */
  lemma AddJsonFlairNerCorrect(tagged: seq<seq<FlairSpan>>, sentences: seq<string>)
    ensures AddJsonFlairNerSpec(tagged, sentences).Err? <==> |tagged| > |sentences|
    ensures |tagged| <= |sentences| ==> AddJsonFlairNerSpec(tagged, sentences) == Ok(ShiftedRecords(tagged, sentences, |tagged|))
  {
    FlairRunSpec(tagged, sentences, |tagged|);
  }
}
