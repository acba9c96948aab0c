/**
 * The Finnish Stanza post-processing (finnish/utils_nlp.py): the parsing
 * of UD feature strings, the repair of BIOES entity tags into BIO, and the
 * Finnish `nlp_to_dict`.
 */

module FinnishNlp {
  import opened Common
  import opened PyDict
  import opened NlpJson

  // ---- process_feats ----

  /** One `key=value` piece written into the dict; a piece without exactly one '=' cannot be unpacked (ValueError). */
  function FeatStep(d: Dict<string, string>, piece: string): Result<Dict<string, string>>
  {
    var kv := Split(piece, '=');
    if |kv| != 2 then Err(ValueError) else Ok(d.Put(kv[0], kv[1]))
  }

  function FeatsRun(pieces: seq<string>): Result<Dict<string, string>>
  {
    if pieces == [] then Ok(Empty())
    else
      match FeatsRun(pieces[..|pieces| - 1])
      case Err(e) => Err(e)
      case Ok(d) => FeatStep(d, pieces[|pieces| - 1])
  }

  /** `process_feats(feats)`: `None` for a missing or empty string, else the pieces between '|' read in order. */
  function ProcessFeats(feats: Option<string>): Result<Option<Dict<string, string>>>
  {
    if !Truthy(feats) then Ok(None)
    else
      match FeatsRun(Split(feats.value, '|'))
      case Err(e) => Err(e)
      case Ok(d) => Ok(Some(d))
  }

  lemma FeatsRunNext(pieces: seq<string>, n: nat)
    requires n < |pieces| && FeatsRun(pieces[..n]).Ok?
    ensures FeatsRun(pieces[..n + 1]) == FeatStep(FeatsRun(pieces[..n]).value, pieces[n])
  {
    assert pieces[..n + 1][..n] == pieces[..n];
  }

  lemma {:induction false} FeatsErrStays(pieces: seq<string>, n: nat)
    requires n <= |pieces| && FeatsRun(pieces[..n]).Err?
    ensures FeatsRun(pieces) == FeatsRun(pieces[..n])
    decreases |pieces| - n
  {
    if n < |pieces| {
      assert pieces[..n + 1][..n] == pieces[..n];
      FeatsErrStays(pieces, n + 1);
    } else {
      assert pieces[..n] == pieces;
    }
  }

  /** The loop of `process_feats`. */
  method ProcessFeatsLoop(feats: Option<string>) returns (r: Result<Option<Dict<string, string>>>)
    ensures r == ProcessFeats(feats)
  {
    if !Truthy(feats) {
      return Ok(None);
    }
    var pieces := Split(feats.value, '|');
    var results: Dict<string, string> := Empty();
    var n := 0;
    while n < |pieces|
      invariant n <= |pieces|
      invariant FeatsRun(pieces[..n]) == Ok(results)
    {
      FeatsRunNext(pieces, n);
      var kv := Split(pieces[n], '=');
      if |kv| != 2 {
        FeatsErrStays(pieces, n + 1);
        return Err(ValueError);
      }
      results := results.Put(kv[0], kv[1]);
      n := n + 1;
    }
    assert pieces[..n] == pieces;
    r := Ok(Some(results));
  }

  /** The piece holds exactly one '='. */
  predicate WellFormedPiece(piece: string)
  {
    CountChar(piece, '=') == 1
  }

  /** The feature string fails exactly when one of its pieces does not hold exactly one '='. */
  lemma {:induction false} FeatsErrIff(pieces: seq<string>)
    ensures FeatsRun(pieces).Err? <==> exists i :: 0 <= i < |pieces| && !WellFormedPiece(pieces[i])
    ensures FeatsRun(pieces).Err? ==> FeatsRun(pieces).error == ValueError
  {
    if pieces != [] {
      var pre, last := pieces[..|pieces| - 1], pieces[|pieces| - 1];
      FeatsErrIff(pre);
      var prev := FeatsRun(pre);
      if prev.Err? {
        assert FeatsRun(pieces) == prev;
        var i :| 0 <= i < |pre| && !WellFormedPiece(pre[i]);
        assert pieces[i] == pre[i];
      } else {
        assert FeatsRun(pieces) == FeatStep(prev.value, last);
        FeatStepErr(prev.value, last);
        if WellFormedPiece(last) {
          forall i | 0 <= i < |pieces| ensures WellFormedPiece(pieces[i]) {
            if i < |pre| {
              assert pieces[i] == pre[i];
            }
          }
        } else {
          assert !WellFormedPiece(pieces[|pre|]);
        }
      }
    }
  }

  /** One piece fails exactly when it does not hold exactly one '='. */
  lemma FeatStepErr(d: Dict<string, string>, piece: string)
    ensures FeatStep(d, piece).Err? <==> !WellFormedPiece(piece)
    ensures FeatStep(d, piece).Err? ==> FeatStep(d, piece).error == ValueError
  {
    SplitCount(piece, '=');
  }

  /** The value of the last piece with key `k`. */
  function LastValue(pieces: seq<string>, k: string): Option<string>
  {
    if pieces == [] then None
    else
      var kv := Split(pieces[|pieces| - 1], '=');
      if |kv| == 2 && kv[0] == k then Some(kv[1]) else LastValue(pieces[..|pieces| - 1], k)
  }

  /** Later keys overwrite earlier ones: each key maps to the value of its last piece, and only keys that occur are present. */
  lemma {:induction false} FeatsLastWins(pieces: seq<string>, k: string)
    requires FeatsRun(pieces).Ok?
    ensures FeatsRun(pieces).value.Valid() && FeatsRun(pieces).value.Get(k) == LastValue(pieces, k)
  {
    if pieces != [] {
      FeatsLastWins(pieces[..|pieces| - 1], k);
    }
  }

  /** `"|".join(f"{k}={v}" for k, v in d.items())` */
  function Pairs(d: Dict<string, string>): (ps: seq<string>)
    requires d.Valid()
    ensures |ps| == |d.keys| && forall i :: 0 <= i < |d.keys| ==> ps[i] == d.keys[i] + "=" + d.entries[d.keys[i]]
  {
    seq(|d.keys|, i requires 0 <= i < |d.keys| => d.keys[i] + "=" + d.entries[d.keys[i]])
  }

  function Serialize(d: Dict<string, string>): string
    requires d.Valid()
  {
    Join(Pairs(d), "|")
  }

  /** A map that could have come from a feature string: non-empty, with no '|' or '=' in its keys and values. */
  ghost predicate Encodable(d: Dict<string, string>)
  {
    d.Valid() && |d.keys| > 0 && forall k :: k in d.entries ==> '|' !in k && '=' !in k && '|' !in d.entries[k] && '=' !in d.entries[k]
  }

  lemma PieceSplits(k: string, v: string)
    requires '=' !in k && '=' !in v
    ensures Split(k + "=" + v, '=') == [k, v]
  {
    assert Join([k, v], "=") == k + "=" + v by {
      assert [k, v][1..] == [v];
    }
    SplitJoin([k, v], '=');
  }

  /** The dict rebuilt from the first `n` pieces of a serialized map. */
  function Restricted(d: Dict<string, string>, n: nat): Dict<string, string>
    requires d.Valid() && n <= |d.keys|
  {
    Dict(d.keys[..n], map k | k in d.keys[..n] :: d.entries[k])
  }

  lemma RestrictedSnoc(d: Dict<string, string>, n: nat)
    requires d.Valid() && 0 < n <= |d.keys|
    ensures d.keys[n - 1] !in Restricted(d, n - 1).entries
    ensures Restricted(d, n - 1).Put(d.keys[n - 1], d.entries[d.keys[n - 1]]) == Restricted(d, n)
  {
    var k := d.keys[n - 1];
    assert k in d.entries;
    forall j | 0 <= j < n - 1 ensures d.keys[j] != k {
    }
    assert k !in d.keys[..n - 1];
    assert d.keys[..n] == d.keys[..n - 1] + [k];
  }

  lemma {:induction false} PairsRebuild(d: Dict<string, string>, n: nat)
    requires Encodable(d) && n <= |d.keys|
    ensures FeatsRun(Pairs(d)[..n]) == Ok(Restricted(d, n))
  {
    if n > 0 {
      var ps := Pairs(d)[..n];
      assert ps[..n - 1] == Pairs(d)[..n - 1];
      PairsRebuild(d, n - 1);
      var k := d.keys[n - 1];
      assert k in d.entries;
      PieceSplits(k, d.entries[k]);
      assert ps[n - 1] == k + "=" + d.entries[k];
      RestrictedSnoc(d, n);
      assert FeatsRun(ps) == FeatStep(Restricted(d, n - 1), ps[n - 1]);
    }
  }

  /**
   * A non-empty map whose keys and values contain neither '|' nor '=' is
   * recovered, keys in order, from its `k=v|...` string.
   */
  lemma FeatsRoundTrip(d: Dict<string, string>)
    requires Encodable(d)
    ensures ProcessFeats(Some(Serialize(d))) == Ok(Some(d))
  {
    var ps := Pairs(d);
    PairsSplit(d);
    SerializeNonEmpty(d);
    PairsRebuild(d, |d.keys|);
    assert ps[..|d.keys|] == ps;
    RestrictedAll(d);
  }

  lemma PairsSplit(d: Dict<string, string>)
    requires Encodable(d)
    ensures Split(Serialize(d), '|') == Pairs(d)
  {
    var ps := Pairs(d);
    forall p | p in ps ensures '|' !in p {
      var i :| 0 <= i < |ps| && ps[i] == p;
      assert d.keys[i] in d.entries;
    }
    SplitJoin(ps, '|');
  }

  lemma SerializeNonEmpty(d: Dict<string, string>)
    requires Encodable(d)
    ensures |Serialize(d)| > 0
  {
    var ps := Pairs(d);
    assert |ps[0]| > 0;
    if |ps| > 1 {
      assert Serialize(d) == ps[0] + "|" + Join(ps[1..], "|");
    }
  }

  lemma RestrictedAll(d: Dict<string, string>)
    requires d.Valid()
    ensures Restricted(d, |d.keys|) == d
  {
    assert d.keys[..|d.keys|] == d.keys;
    assert Restricted(d, |d.keys|).entries == d.entries;
  }

  // ---- fix_ner_entities ----

  /** A Stanza token: its BIOES tag and the number of words it was split into. */
  datatype StanzaToken = StanzaToken(ner: string, wordCount: nat)

  /** The tag recoding: S-X becomes B-X, I-X after an O (or at the start) becomes B-X, E-X becomes I-X. */
  function Convert(prev: string, tag: string): string
  {
    if HeadIs(tag, 'S') || (prev == "O" && HeadIs(tag, 'I')) then "B" + tag[1..]
    else if HeadIs(tag, 'E') then "I" + tag[1..]
    else tag
  }

  /** No recoded tag starts with S or E; tags that start with neither S, E nor I are unchanged. */
  lemma ConvertSpec(prev: string, tag: string)
    ensures var r := Convert(prev, tag);
      && !HeadIs(r, 'S') && !HeadIs(r, 'E')
      && (!HeadIs(tag, 'S') && !HeadIs(tag, 'E') && !HeadIs(tag, 'I') ==> r == tag)
      && (HeadIs(r, 'I') <==> (HeadIs(tag, 'I') && prev != "O") || HeadIs(tag, 'E'))
  {
  }

  datatype FixState = FixState(labels: seq<string>, prev: string)

  /** One token: a token of several words first contributes that many copies of its raw tag. */
  function FixStep(st: FixState, tok: StanzaToken): FixState
  {
    var extra := if tok.wordCount > 1 then Repeat(tok.ner, tok.wordCount) else [];
    var tag := Convert(st.prev, tok.ner);
    FixState(st.labels + extra + [tag], tag)
  }

  function FixRun(tokens: seq<StanzaToken>): FixState
  {
    if tokens == [] then FixState([], "O") else FixStep(FixRun(tokens[..|tokens| - 1]), tokens[|tokens| - 1])
  }

  /** `fix_ner_entities` */
  method FixNerEntities(tokens: seq<StanzaToken>) returns (nerLabels: seq<string>)
    ensures nerLabels == FixRun(tokens).labels
  {
    nerLabels := [];
    var prevLabel := "O";
    var k := 0;
    while k < |tokens|
      invariant k <= |tokens|
      invariant FixRun(tokens[..k]) == FixState(nerLabels, prevLabel)
    {
      assert tokens[..k + 1][..k] == tokens[..k];
      var nerLabel := tokens[k].ner;
      var tokLen := tokens[k].wordCount;
      if tokLen > 1 {
        nerLabels := nerLabels + Repeat(nerLabel, tokLen);
      }
      if HeadIs(nerLabel, 'S') || (prevLabel == "O" && HeadIs(nerLabel, 'I')) {
        nerLabel := "B" + nerLabel[1..];
      } else if HeadIs(nerLabel, 'E') {
        nerLabel := "I" + nerLabel[1..];
      }
      nerLabels := nerLabels + [nerLabel];
      prevLabel := nerLabel;
      k := k + 1;
    }
    assert tokens[..k] == tokens;
  }

  /** The number of tags a token contributes. */
  function Width(tok: StanzaToken): nat
  {
    if tok.wordCount > 1 then tok.wordCount + 1 else 1
  }

  function TotalWidth(tokens: seq<StanzaToken>): nat
  {
    if tokens == [] then 0 else TotalWidth(tokens[..|tokens| - 1]) + Width(tokens[|tokens| - 1])
  }

  /**
   * A token of n > 1 words contributes n copies of its raw tag followed by
   * the recoded one, any other token just the recoded tag.
   */
  lemma {:induction false} FixLength(tokens: seq<StanzaToken>)
    ensures |FixRun(tokens).labels| == TotalWidth(tokens)
  {
    if tokens != [] {
      FixLength(tokens[..|tokens| - 1]);
    }
  }

  /** Each token's raw copies sit just before its recoded tag. */
  lemma FixStepBlock(tokens: seq<StanzaToken>, tok: StanzaToken)
    ensures var before, after := FixRun(tokens).labels, FixRun(tokens + [tok]).labels;
      && |after| == |before| + Width(tok)
      && after[..|before|] == before
      && (forall j :: |before| <= j < |after| - 1 ==> after[j] == tok.ner)
      && after[|after| - 1] == Convert(FixRun(tokens).prev, tok.ner)
  {
    assert (tokens + [tok])[..|tokens|] == tokens;
  }

  /** The output tag before position `i`, "O" at the start. */
  function PrevTag(out: seq<string>, i: nat): string
    requires i <= |out|
  {
    if i == 0 then "O" else out[i - 1]
  }

  predicate SingleWords(tokens: seq<StanzaToken>)
  {
    forall i :: 0 <= i < |tokens| ==> tokens[i].wordCount <= 1
  }

  /**
   * With single-word tokens there is one tag per token, each recoded from
   * the previous output tag ("O" at the start), and no tag starts with S
   * or E.
   */
  lemma {:induction false} FixSingleWords(tokens: seq<StanzaToken>)
    requires SingleWords(tokens)
    ensures var out := FixRun(tokens).labels;
      && |out| == |tokens|
      && (tokens != [] ==> FixRun(tokens).prev == out[|out| - 1])
      && (tokens == [] ==> FixRun(tokens).prev == "O")
      && forall i {:trigger tokens[i]} :: 0 <= i < |out| ==>
           && out[i] == Convert(PrevTag(out, i), tokens[i].ner)
           && !HeadIs(out[i], 'S') && !HeadIs(out[i], 'E')
  {
    if tokens != [] {
      var pre := tokens[..|tokens| - 1];
      assert SingleWords(pre) by {
        forall i | 0 <= i < |pre| ensures pre[i].wordCount <= 1 {
          assert pre[i] == tokens[i];
        }
      }
      FixSingleWords(pre);
      var last := tokens[|tokens| - 1];
      assert last.wordCount <= 1;
      var out0, out := FixRun(pre).labels, FixRun(tokens).labels;
      var tag := Convert(FixRun(pre).prev, last.ner);
      assert FixRun(tokens) == FixStep(FixRun(pre), last);
      assert out == out0 + [tag];
      assert PrevTag(out0, |out0|) == FixRun(pre).prev;
      RecodedSnoc(out0, pre, tag, last);
      assert tokens == pre + [last];
      forall i | 0 <= i < |out| ensures !HeadIs(out[i], 'S') && !HeadIs(out[i], 'E') {
        ConvertSpec(PrevTag(out, i), tokens[i].ner);
      }
    }
  }

  /** Recoding one more single-word token after tags that were each recoded from their predecessor. */
  lemma RecodedSnoc(out0: seq<string>, pre: seq<StanzaToken>, tag: string, last: StanzaToken)
    requires |out0| == |pre| && forall i {:trigger pre[i]} :: 0 <= i < |out0| ==> out0[i] == Convert(PrevTag(out0, i), pre[i].ner)
    requires tag == Convert(PrevTag(out0, |out0|), last.ner)
    ensures var out, tokens := out0 + [tag], pre + [last];
      forall i {:trigger tokens[i]} :: 0 <= i < |out| ==> out[i] == Convert(PrevTag(out, i), tokens[i].ner)
  {
    var out, tokens := out0 + [tag], pre + [last];
    forall i | 0 <= i < |out| ensures out[i] == Convert(PrevTag(out, i), tokens[i].ner) {
      assert PrevTag(out, i) == PrevTag(out0, i);
      if i < |out0| {
        assert out[i] == out0[i] && tokens[i] == pre[i];
      }
    }
  }

  /**
   * With single-word tokens an I tag at the start or right after an O
   * comes only from an E tag: the recoding sends I-X after O to B-X but
   * E-X after O to I-X.
   */
  lemma IAfterOOnlyFromE(tokens: seq<StanzaToken>, i: nat)
    requires SingleWords(tokens) && i < |tokens| && i < |FixRun(tokens).labels|
    requires var out := FixRun(tokens).labels; HeadIs(out[i], 'I') && (i == 0 || out[i - 1] == "O")
    ensures HeadIs(tokens[i].ner, 'E')
  {
    FixSingleWords(tokens);
    var out := FixRun(tokens).labels;
    ConvertSpec(PrevTag(out, i), tokens[i].ner);
  }

  /** An E-X tag after an O yields an I-X tag right after an O, which is not valid BIO. */
  lemma EAfterOAsWritten()
    ensures FixRun([StanzaToken("O", 1), StanzaToken("E-PER", 1)]).labels == ["O", "I-PER"]
  {
    var t := [StanzaToken("O", 1), StanzaToken("E-PER", 1)];
    assert t[..1] == [StanzaToken("O", 1)];
    assert [StanzaToken("O", 1)][..0] == [];
    assert "O"[..1] == "O";
    assert Convert("O", "O") == "O";
    assert FixRun(t[..1]) == FixState([] + [] + ["O"], "O");
    assert "E-PER"[..1] == "E" && "E-PER"[1..] == "-PER";
    assert Convert("O", "E-PER") == "I-PER";
    assert FixRun(t) == FixState(["O"] + [] + ["I-PER"], "I-PER");
  }

  /** The recoding as BIO needs it: after an O (or at the start) both I-X and E-X open an entity. */
  function ConvertCorrected(prev: string, tag: string): string
  {
    if HeadIs(tag, 'S') || (prev == "O" && (HeadIs(tag, 'I') || HeadIs(tag, 'E'))) then "B" + tag[1..]
    else if HeadIs(tag, 'E') then "I" + tag[1..]
    else tag
  }

  function FixRunCorrected(tokens: seq<StanzaToken>): FixState
  {
    if tokens == [] then FixState([], "O")
    else
      var st := FixRunCorrected(tokens[..|tokens| - 1]);
      var tok := tokens[|tokens| - 1];
      var tag := ConvertCorrected(st.prev, tok.ner);
      FixState(st.labels + (if tok.wordCount > 1 then Repeat(tok.ner, tok.wordCount) else []) + [tag], tag)
  }

  /**
   * With the corrected recoding and single-word tokens the output is valid
   * BIO: one tag per token, none starting with S or E, and no I tag at the
   * start or right after an O.
   */
  lemma {:induction false} FixCorrectedIsBio(tokens: seq<StanzaToken>)
    requires SingleWords(tokens)
    ensures var out := FixRunCorrected(tokens).labels;
      && |out| == |tokens|
      && (tokens != [] ==> FixRunCorrected(tokens).prev == out[|out| - 1])
      && (tokens == [] ==> FixRunCorrected(tokens).prev == "O")
      && forall i :: 0 <= i < |out| ==>
           && !HeadIs(out[i], 'S') && !HeadIs(out[i], 'E')
           && (HeadIs(out[i], 'I') ==> PrevTag(out, i) != "O")
  {
    if tokens != [] {
      var pre := tokens[..|tokens| - 1];
      assert SingleWords(pre) by {
        forall i | 0 <= i < |pre| ensures pre[i].wordCount <= 1 {
          assert pre[i] == tokens[i];
        }
      }
      FixCorrectedIsBio(pre);
      var last := tokens[|tokens| - 1];
      assert last.wordCount <= 1;
      var out0, out := FixRunCorrected(pre).labels, FixRunCorrected(tokens).labels;
      var prev := FixRunCorrected(pre).prev;
      var tag := ConvertCorrected(prev, last.ner);
      assert out == out0 + [] + [tag];
      assert out == out0 + [tag];
      forall i | 0 <= i < |out|
        ensures !HeadIs(out[i], 'S') && !HeadIs(out[i], 'E')
        ensures HeadIs(out[i], 'I') ==> PrevTag(out, i) != "O"
      {
        if i < |out0| {
          assert out[i] == out0[i];
          if i > 0 {
            assert out[i - 1] == out0[i - 1];
          }
        } else {
          assert out[i] == tag;
          ConvertCorrectedSpec(prev, last.ner);
          if i > 0 {
            assert out[i - 1] == out0[i - 1] == prev;
          }
        }
      }
    }
  }

  /** The corrected recoding never yields S or E, and yields I only after a tag other than O. */
  lemma ConvertCorrectedSpec(prev: string, tag: string)
    ensures var r := ConvertCorrected(prev, tag);
      !HeadIs(r, 'S') && !HeadIs(r, 'E') && (HeadIs(r, 'I') ==> prev != "O")
  {
  }

  // ---- nlp_to_dict ----

  /** The JSON token of the Finnish pipeline: parsed features and the NER tag in MISC (ValueError from the features). */
  function FinnishTokenToJson(t: NlpToken<Option<string>>): Result<TokenJson<Option<Dict<string, string>>>>
  {
    match ProcessFeats(t.morph)
    case Err(e) => Err(e)
    case Ok(feats) =>
      Ok(TokenJson(t.id, t.text, t.lemmaForm, t.upos, t.xpos, t.depHead, t.depRel, None,
                   Misc(t.spaceAfter, t.startChar, t.endChar, Some(t.nerIob)), feats))
  }

  /** `[asdict(nlp_token2json_token(tok)) for tok in sentence]`, raising at the first bad feature string. */
  function FinnishWords(sentence: seq<NlpToken<Option<string>>>): Result<seq<TokenJson<Option<Dict<string, string>>>>>
  {
    if sentence == [] then Ok([])
    else
      match FinnishWords(sentence[..|sentence| - 1])
      case Err(e) => Err(e)
      case Ok(ws) =>
        match FinnishTokenToJson(sentence[|sentence| - 1])
        case Err(e) => Err(e)
        case Ok(w) => Ok(ws + [w])
  }

  /** The words fail exactly when a token's features do; otherwise each word is its token's record. */
  lemma {:induction false} FinnishWordsSpec(sentence: seq<NlpToken<Option<string>>>)
    ensures FinnishWords(sentence).Err? <==> exists j :: 0 <= j < |sentence| && ProcessFeats(sentence[j].morph).Err?
    ensures FinnishWords(sentence).Ok? ==>
      |FinnishWords(sentence).value| == |sentence|
      && forall j :: 0 <= j < |sentence| ==> Ok(FinnishWords(sentence).value[j]) == FinnishTokenToJson(sentence[j])
  {
    if sentence != [] {
      var pre := sentence[..|sentence| - 1];
      FinnishWordsSpec(pre);
      if exists j :: 0 <= j < |pre| && ProcessFeats(pre[j].morph).Err? {
        var j :| 0 <= j < |pre| && ProcessFeats(pre[j].morph).Err?;
        assert sentence[j] == pre[j];
      }
      if exists j :: 0 <= j < |sentence| && ProcessFeats(sentence[j].morph).Err? {
        var j :| 0 <= j < |sentence| && ProcessFeats(sentence[j].morph).Err?;
        if j < |pre| {
          assert pre[j] == sentence[j];
        }
      }
      if FinnishWords(sentence).Ok? {
        var ws := FinnishWords(sentence).value;
        forall j | 0 <= j < |sentence| ensures Ok(ws[j]) == FinnishTokenToJson(sentence[j]) {
          if j < |pre| {
            assert ws[j] == FinnishWords(pre).value[j];
            assert sentence[j] == pre[j];
          }
        }
      }
    }
  }

  /** The entries of the first `n` groups: no paragraph, no sentence number, and the text of the whole document. */
  function FinnishMorph(d: Dict<int, seq<NlpToken<Option<string>>>>, allText: string, n: nat): Result<seq<MorphSentence<Option<Dict<string, string>>>>>
    requires d.Valid() && n <= |d.keys|
  {
    if n == 0 then Ok([])
    else
      match FinnishMorph(d, allText, n - 1)
      case Err(e) => Err(e)
      case Ok(ms) =>
        match FinnishWords(d.entries[d.keys[n - 1]])
        case Err(e) => Err(e)
        case Ok(ws) => Ok(ms + [MorphSentence(None, None, allText, ws)])
  }

  /** The `data` of the Finnish `nlp_to_dict`; both layers name the model "stanza_fi". */
  datatype FinnishDoc<L> = FinnishDoc(text: string, morphoModel: string, morphoSyntax: seq<MorphSentence<Option<Dict<string, string>>>>,
                                      entities: seq<L>, tokenizationModel: string, tokenization: seq<string>)

  const StanzaFi: string := "stanza_fi"

  function FinnishNlpToDictSpec<L>(nd: NlpOutput<Option<string>, L>): Result<FinnishDoc<L>>
  {
    SentencizeSpec(nd.tokenObjs);
    var d := Sentencize(nd.tokenObjs);
    var tokens := Texts(nd.tokenObjs);
    match FinnishMorph(d, Join(tokens, " "), |d.keys|)
    case Err(e) => Err(e)
    case Ok(ms) => Ok(FinnishDoc(nd.inputText, StanzaFi, ms, OrEmpty(nd.entities), StanzaFi, tokens))
  }

  lemma {:induction false} FinnishMorphErrStays(d: Dict<int, seq<NlpToken<Option<string>>>>, allText: string, n: nat)
    requires d.Valid() && n <= |d.keys| && FinnishMorph(d, allText, n).Err?
    ensures FinnishMorph(d, allText, |d.keys|) == FinnishMorph(d, allText, n)
    decreases |d.keys| - n
  {
    if n < |d.keys| {
      FinnishMorphErrStays(d, allText, n + 1);
    }
  }

  /** The first loop of the Finnish `nlp_to_dict`: grouping and the token texts together. */
  method GroupWithTexts(toks: seq<NlpToken<Option<string>>>) returns (sentencized: Dict<int, seq<NlpToken<Option<string>>>>, tokens: seq<string>)
    ensures sentencized == Sentencize(toks) && tokens == Texts(toks)
  {
    sentencized := Empty();
    tokens := [];
    var k := 0;
    while k < |toks|
      invariant k <= |toks|
      invariant sentencized == Sentencize(toks[..k]) && tokens == Texts(toks[..k])
    {
      assert toks[..k + 1][..k] == toks[..k];
      sentencized := AddToSentence(sentencized, toks[k]);
      tokens := tokens + [toks[k].text];
      k := k + 1;
    }
    assert toks[..k] == toks;
  }

  /** The Finnish `nlp_to_dict`. */
  method FinnishNlpToDict<L>(nd: NlpOutput<Option<string>, L>) returns (r: Result<FinnishDoc<L>>)
    ensures r == FinnishNlpToDictSpec(nd)
  {
    var sentencized, tokens := GroupWithTexts(nd.tokenObjs);
    SentencizeSpec(nd.tokenObjs);
    var tokenObjs := MorphLoop(sentencized, Join(tokens, " "));
    if tokenObjs.Err? {
      return Err(tokenObjs.error);
    }
    r := Ok(FinnishDoc(nd.inputText, StanzaFi, tokenObjs.value, OrEmpty(nd.entities), StanzaFi, tokens));
  }

  /** The second loop of the Finnish `nlp_to_dict`: one morphology entry per group. */
  method MorphLoop(d: Dict<int, seq<NlpToken<Option<string>>>>, sentText: string)
    returns (r: Result<seq<MorphSentence<Option<Dict<string, string>>>>>)
    requires d.Valid()
    ensures r == FinnishMorph(d, sentText, |d.keys|)
  {
    var tokenObjs := [];
    var n := 0;
    while n < |d.keys|
      invariant n <= |d.keys|
      invariant FinnishMorph(d, sentText, n) == Ok(tokenObjs)
    {
      var words := FinnishWords(d.entries[d.keys[n]]);
      if words.Err? {
        FinnishMorphErrStays(d, sentText, n + 1);
        return Err(words.error);
      }
      FinnishMorphStep(d, sentText, n, tokenObjs, words.value);
      tokenObjs := tokenObjs + [MorphSentence(None, None, sentText, words.value)];
      n := n + 1;
    }
    r := Ok(tokenObjs);
  }

  lemma FinnishMorphStep(d: Dict<int, seq<NlpToken<Option<string>>>>, allText: string, n: nat,
                         ms: seq<MorphSentence<Option<Dict<string, string>>>>, ws: seq<TokenJson<Option<Dict<string, string>>>>)
    requires d.Valid() && n < |d.keys|
    requires FinnishMorph(d, allText, n) == Ok(ms) && FinnishWords(d.entries[d.keys[n]]) == Ok(ws)
    ensures FinnishMorph(d, allText, n + 1) == Ok(ms + [MorphSentence(None, None, allText, ws)])
  {
  }

  lemma {:induction false} FinnishMorphSpec(d: Dict<int, seq<NlpToken<Option<string>>>>, allText: string, n: nat)
    requires d.Valid() && n <= |d.keys| && FinnishMorph(d, allText, n).Ok?
    ensures var ms := FinnishMorph(d, allText, n).value;
      |ms| == n && forall i :: 0 <= i < n ==> (ms[i].paragraph == None && ms[i].sentence == None && ms[i].text == allText
        && Ok(ms[i].words) == FinnishWords(d.entries[d.keys[i]]))
  {
    if n > 0 {
      FinnishMorphSpec(d, allText, n - 1);
      var ms0 := FinnishMorph(d, allText, n - 1).value;
      var ms := FinnishMorph(d, allText, n).value;
      forall i | 0 <= i < n
        ensures ms[i].paragraph == None && ms[i].sentence == None && ms[i].text == allText
        ensures Ok(ms[i].words) == FinnishWords(d.entries[d.keys[i]])
      {
        if i < n - 1 {
          assert ms[i] == ms0[i];
        }
      }
    }
  }

  /**
   * The Finnish document has one morphology entry per distinct `sent_id`,
   * in first-appearance order, each holding that sentence's words but the
   * text of the whole document; the tokenization is every token's text in
   * order, and absent entities become empty. It fails exactly when some
   * token's feature string is malformed.
   */
  lemma FinnishNlpToDictCorrect<L>(nd: NlpOutput<Option<string>, L>)
    ensures FinnishNlpToDictSpec(nd).Err? <==> exists j :: 0 <= j < |nd.tokenObjs| && ProcessFeats(nd.tokenObjs[j].morph).Err?
    ensures var r, ids := FinnishNlpToDictSpec(nd), Dedup(SentIds(nd.tokenObjs));
      r.Ok? ==> (r.value.tokenization == Texts(nd.tokenObjs) && (nd.entities.None? ==> r.value.entities == [])
        && |r.value.morphoSyntax| == |ids|
        && forall i :: 0 <= i < |ids| ==> (r.value.morphoSyntax[i].text == Join(Texts(nd.tokenObjs), " ")
             && r.value.morphoSyntax[i].sentence == None
             && Ok(r.value.morphoSyntax[i].words) == FinnishWords(InSentence(nd.tokenObjs, ids[i]))))
  {
    var toks := nd.tokenObjs;
    SentencizeSpec(toks);
    if FinnishNlpToDictSpec(nd).Ok? {
      FinnishOkShape(nd);
      FinnishOkFeats(toks);
    } else {
      FinnishErrFeats(toks);
    }
  }

  lemma FinnishOkShape<L>(nd: NlpOutput<Option<string>, L>)
    requires FinnishNlpToDictSpec(nd).Ok?
    ensures var r, ids := FinnishNlpToDictSpec(nd), Dedup(SentIds(nd.tokenObjs));
      r.value.tokenization == Texts(nd.tokenObjs) && (nd.entities.None? ==> r.value.entities == [])
        && |r.value.morphoSyntax| == |ids|
        && forall i :: 0 <= i < |ids| ==> (r.value.morphoSyntax[i].text == Join(Texts(nd.tokenObjs), " ")
             && r.value.morphoSyntax[i].sentence == None
             && Ok(r.value.morphoSyntax[i].words) == FinnishWords(InSentence(nd.tokenObjs, ids[i])))
  {
    var toks := nd.tokenObjs;
    SentencizeSpec(toks);
    var d := Sentencize(toks);
    FinnishMorphSpec(d, Join(Texts(toks), " "), |d.keys|);
  }

  /** When every group converts, every token's features parse. */
  lemma FinnishOkFeats(toks: seq<NlpToken<Option<string>>>)
    requires Sentencize(toks).Valid() && FinnishMorph(Sentencize(toks), Join(Texts(toks), " "), |Sentencize(toks).keys|).Ok?
    ensures forall j :: 0 <= j < |toks| ==> ProcessFeats(toks[j].morph).Ok?
  {
    SentencizeSpec(toks);
    var d := Sentencize(toks);
    var allText := Join(Texts(toks), " ");
    FinnishMorphSpec(d, allText, |d.keys|);
    forall j | 0 <= j < |toks| ensures ProcessFeats(toks[j].morph).Ok? {
      TokenFeatsOk(toks, allText, j);
    }
  }

  lemma TokenFeatsOk(toks: seq<NlpToken<Option<string>>>, allText: string, j: nat)
    requires j < |toks| && Sentencize(toks).Valid()
    requires FinnishMorph(Sentencize(toks), allText, |Sentencize(toks).keys|).Ok?
    ensures ProcessFeats(toks[j].morph).Ok?
  {
    SentencizeSpec(toks);
    var d := Sentencize(toks);
    FinnishMorphSpec(d, allText, |d.keys|);
    var s := toks[j].sentId;
    assert s == SentIds(toks)[j];
    DedupMembers(SentIds(toks));
    assert s in d.keys;
    var i :| 0 <= i < |d.keys| && d.keys[i] == s;
    var ins := InSentence(toks, s);
    assert FinnishWords(ins).Ok?;
    InSentenceHas(toks, j);
    var k :| 0 <= k < |ins| && ins[k] == toks[j];
    FinnishWordsSpec(ins);
    assert !ProcessFeats(ins[k].morph).Err?;
  }

  /** When some group fails, some token's features are malformed. */
  lemma FinnishErrFeats(toks: seq<NlpToken<Option<string>>>)
    requires Sentencize(toks).Valid() && FinnishMorph(Sentencize(toks), Join(Texts(toks), " "), |Sentencize(toks).keys|).Err?
    ensures exists j :: 0 <= j < |toks| && ProcessFeats(toks[j].morph).Err?
  {
    SentencizeSpec(toks);
    var d := Sentencize(toks);
    var allText := Join(Texts(toks), " ");
    var n := FirstErr(d, allText, |d.keys|);
    var s := d.keys[n];
    FinnishWordsSpec(InSentence(toks, s));
    var k :| 0 <= k < |InSentence(toks, s)| && ProcessFeats(InSentence(toks, s)[k].morph).Err?;
    InSentenceFrom(toks, s, k);
  }

  /** The group that makes the morphology fail. */
  lemma {:induction false} FirstErr(d: Dict<int, seq<NlpToken<Option<string>>>>, allText: string, n: nat) returns (i: nat)
    requires d.Valid() && n <= |d.keys| && FinnishMorph(d, allText, n).Err?
    ensures i < n && FinnishWords(d.entries[d.keys[i]]).Err?
  {
    if FinnishMorph(d, allText, n - 1).Err? {
      i := FirstErr(d, allText, n - 1);
    } else {
      i := n - 1;
    }
  }

  /** A token sits in its own sentence's group. */
  lemma {:induction false} InSentenceHas<M>(toks: seq<NlpToken<M>>, j: nat)
    requires j < |toks|
    ensures toks[j] in InSentence(toks, toks[j].sentId)
  {
    var pre := toks[..|toks| - 1];
    if j < |pre| {
      assert pre[j] == toks[j];
      InSentenceHas(pre, j);
    }
  }

  /** Every member of a group is an input token. */
  lemma {:induction false} InSentenceFrom<M>(toks: seq<NlpToken<M>>, s: int, k: nat)
    requires k < |InSentence(toks, s)|
    ensures exists j :: 0 <= j < |toks| && toks[j] == InSentence(toks, s)[k]
  {
    var pre := toks[..|toks| - 1];
    var g0 := InSentence(pre, s);
    if k < |g0| {
      InSentenceFrom(pre, s, k);
      var j :| 0 <= j < |pre| && pre[j] == g0[k];
      assert toks[j] == pre[j];
    } else {
      assert InSentence(toks, s)[k] == toks[|toks| - 1];
    }
  }
}
