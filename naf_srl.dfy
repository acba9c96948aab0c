/**
 * The NAF side of the English pipeline (`english/en_text_to_naf.py`):
 * cutting the NAF word forms into sentences, and building the SRL layer,
 * whose predicates and roles point at NAF terms `t1`, `t2`, ... by
 * document position. The SRL tagger's output per sentence is an input;
 * its decoding is `SrlDecode`.
 */
module NafSrl {
  import opened Common
  import opened PyDict
  import opened SrlDecode

  // ---- get_naf_sentences ----

  /** A NAF word form: its text and its sentence number. */
  datatype Wf = Wf(text: string, sent: int)

  /** The loop from token `i` on; each token is compared with the next one, the last with itself. */
  function GroupRun(tokens: seq<Wf>, i: nat, curr: seq<Wf>, acc: seq<seq<Wf>>): seq<seq<Wf>>
    requires |tokens| > 0
    decreases |tokens| - i
  {
    if i >= |tokens| then (if |curr| > 0 then acc + [curr] else acc)
    else
      var next := if i + 1 < |tokens| then tokens[i + 1] else tokens[|tokens| - 1];
      var curr' := curr + [tokens[i]];
      if tokens[i].sent != next.sent then GroupRun(tokens, i + 1, [], acc + [curr'])
      else GroupRun(tokens, i + 1, curr', acc)
  }

  /** `get_naf_sentences`; an empty document fails on `naf_tokens[-1]`. */
  function NafSentences(tokens: seq<Wf>): Result<seq<seq<Wf>>>
  {
    if tokens == [] then Err(IndexError) else Ok(GroupRun(tokens, 0, [], []))
  }

  method GetNafSentences(tokens: seq<Wf>) returns (r: Result<seq<seq<Wf>>>)
    ensures r == NafSentences(tokens)
  {
    if |tokens| == 0 {
      return Err(IndexError);
    }
    var shifted := tokens[1..] + [tokens[|tokens| - 1]];
    var sentences := [];
    var curr := [];
    var i := 0;
    while i < |tokens|
      invariant i <= |tokens|
      invariant GroupRun(tokens, i, curr, sentences) == GroupRun(tokens, 0, [], [])
    {
      assert shifted[i] == if i + 1 < |tokens| then tokens[i + 1] else tokens[|tokens| - 1];
      curr := curr + [tokens[i]];
      if tokens[i].sent != shifted[i].sent {
        sentences := sentences + [curr];
        curr := [];
      }
      i := i + 1;
    }
    if |curr| > 0 {
      sentences := sentences + [curr];
    }
    r := Ok(sentences);
  }

  /** All tokens of a group carry the group's first sentence number. */
  predicate Uniform(g: seq<Wf>)
  {
    forall k :: 0 <= k < |g| ==> g[k].sent == g[0].sent
  }

  /** Non-empty, single-sentence groups, and neighbouring groups belong to different sentences. */
  ghost predicate SentenceGroups(groups: seq<seq<Wf>>)
  {
    && (forall k :: 0 <= k < |groups| ==> |groups[k]| > 0 && Uniform(groups[k]))
    && (forall k :: 0 <= k < |groups| - 1 ==> groups[k][|groups[k]| - 1].sent != groups[k + 1][0].sent)
  }

  ghost predicate GroupInvariant(tokens: seq<Wf>, i: nat, curr: seq<Wf>, acc: seq<seq<Wf>>)
  {
    && i <= |tokens|
    && Flatten(acc) + curr == tokens[..i]
    && SentenceGroups(acc) && Uniform(curr)
    && (acc != [] && curr != [] ==> acc[|acc| - 1][|acc[|acc| - 1]| - 1].sent != curr[0].sent)
    && (acc != [] && curr == [] && i < |tokens| ==> acc[|acc| - 1][|acc[|acc| - 1]| - 1].sent != tokens[i].sent)
    && (curr != [] && i < |tokens| ==> curr[|curr| - 1].sent == tokens[i].sent)
  }

  /** Appending token `i` to the current group keeps the prefix and the uniformity. */
  lemma GroupExtend(tokens: seq<Wf>, i: nat, curr: seq<Wf>, acc: seq<seq<Wf>>)
    requires i < |tokens| && GroupInvariant(tokens, i, curr, acc)
    ensures Flatten(acc) + (curr + [tokens[i]]) == tokens[..i + 1]
    ensures Uniform(curr + [tokens[i]])
  {
    assert tokens[..i + 1] == tokens[..i] + [tokens[i]];
    var curr' := curr + [tokens[i]];
    if curr != [] {
      assert curr'[0] == curr[0];
    }
  }

  /** Closing a non-empty, uniform group that differs from the previous one keeps the groups well formed. */
  lemma GroupsSnoc(acc: seq<seq<Wf>>, g: seq<Wf>)
    requires SentenceGroups(acc) && |g| > 0 && Uniform(g)
    requires acc != [] ==> acc[|acc| - 1][|acc[|acc| - 1]| - 1].sent != g[0].sent
    ensures SentenceGroups(acc + [g])
  {
    var acc' := acc + [g];
    forall k | 0 <= k < |acc'| ensures |acc'[k]| > 0 && Uniform(acc'[k]) {
      if k < |acc| {
        assert acc'[k] == acc[k];
      }
    }
    forall k | 0 <= k < |acc'| - 1 ensures acc'[k][|acc'[k]| - 1].sent != acc'[k + 1][0].sent {
      if k < |acc| - 1 {
        assert acc'[k] == acc[k] && acc'[k + 1] == acc[k + 1];
      } else {
        assert acc'[k] == acc[|acc| - 1] && acc'[k + 1] == g;
      }
    }
  }

  /** A sentence boundary after token `i`: the extended group is closed. */
  lemma GroupCut(tokens: seq<Wf>, i: nat, curr: seq<Wf>, acc: seq<seq<Wf>>)
    requires i < |tokens| && GroupInvariant(tokens, i, curr, acc)
    requires i + 1 < |tokens| ==> tokens[i].sent != tokens[i + 1].sent
    ensures GroupInvariant(tokens, i + 1, [], acc + [curr + [tokens[i]]])
  {
    var curr' := curr + [tokens[i]];
    GroupExtend(tokens, i, curr, acc);
    if acc != [] && curr == [] {
      assert curr'[0] == tokens[i];
    } else if curr != [] {
      assert curr'[0] == curr[0];
    }
    GroupsSnoc(acc, curr');
    var acc': seq<seq<Wf>> := acc + [curr'];
    FlattenSnoc(acc, curr');
    assert Flatten(acc') + [] == tokens[..i + 1];
    assert acc'[|acc'| - 1] == curr';
  }

  /** After the last token the open group, if any, is closed. */
  lemma GroupFinish(tokens: seq<Wf>, curr: seq<Wf>, acc: seq<seq<Wf>>)
    requires |tokens| > 0 && GroupInvariant(tokens, |tokens|, curr, acc)
    ensures Flatten(GroupRun(tokens, |tokens|, curr, acc)) == tokens
    ensures SentenceGroups(GroupRun(tokens, |tokens|, curr, acc))
  {
    assert tokens[..|tokens|] == tokens;
    if |curr| > 0 {
      FlattenSnoc(acc, curr);
      GroupsSnoc(acc, curr);
    } else {
      assert Flatten(acc) + [] == Flatten(acc);
    }
  }

  /** No boundary after token `i`: the group stays open. */
  lemma GroupKeep(tokens: seq<Wf>, i: nat, curr: seq<Wf>, acc: seq<seq<Wf>>)
    requires i < |tokens| && GroupInvariant(tokens, i, curr, acc)
    requires i + 1 < |tokens| ==> tokens[i].sent == tokens[i + 1].sent
    ensures GroupInvariant(tokens, i + 1, curr + [tokens[i]], acc)
  {
    GroupExtend(tokens, i, curr, acc);
    var curr' := curr + [tokens[i]];
    if acc != [] {
      if curr != [] {
        assert curr'[0] == curr[0];
      } else {
        assert curr'[0] == tokens[i];
      }
    }
  }

  lemma {:induction false} GroupRunGroups(tokens: seq<Wf>, i: nat, curr: seq<Wf>, acc: seq<seq<Wf>>)
    requires |tokens| > 0 && GroupInvariant(tokens, i, curr, acc)
    ensures Flatten(GroupRun(tokens, i, curr, acc)) == tokens && SentenceGroups(GroupRun(tokens, i, curr, acc))
    decreases |tokens| - i
  {
    if i >= |tokens| {
      GroupFinish(tokens, curr, acc);
    } else {
      var next := if i + 1 < |tokens| then tokens[i + 1] else tokens[|tokens| - 1];
      var curr' := curr + [tokens[i]];
      if tokens[i].sent != next.sent {
        assert GroupRun(tokens, i, curr, acc) == GroupRun(tokens, i + 1, [], acc + [curr']);
        GroupCut(tokens, i, curr, acc);
        GroupRunGroups(tokens, i + 1, [], acc + [curr']);
      } else {
        assert GroupRun(tokens, i, curr, acc) == GroupRun(tokens, i + 1, curr', acc);
        GroupKeep(tokens, i, curr, acc);
        GroupRunGroups(tokens, i + 1, curr', acc);
      }
    }
  }

  /**
   * A non-empty document is cut into its sentences: the groups concatenate
   * back to the tokens, each is non-empty and carries one sentence number,
   * and neighbouring groups carry different ones. An empty document fails.
   */
  lemma NafSentencesPartition(tokens: seq<Wf>)
    ensures NafSentences(tokens).Err? <==> tokens == []
    ensures NafSentences(tokens).Ok? ==>
      Flatten(NafSentences(tokens).value) == tokens && SentenceGroups(NafSentences(tokens).value)
  {
    if tokens != [] {
      assert GroupInvariant(tokens, 0, [], []);
      GroupRunGroups(tokens, 0, [], []);
    }
  }

  // ---- add_naf_srl_layer ----

  /** NAF term id of document token `k` (0-based): `f"t{k+1}"`. */
  function TermId(k: nat): string
  {
    "t" + NatToStr(k + 1)
  }

  lemma TermIdInjective(k: nat, k': nat)
    requires TermId(k) == TermId(k')
    ensures k == k'
  {
    assert TermId(k)[1..] == NatToStr(k + 1);
    assert TermId(k')[1..] == NatToStr(k' + 1);
    NatToStrInjective(k + 1, k' + 1);
  }

  /** The term ids of document tokens `lo` up to, not including, `hi`. */
  function TermSpan(lo: nat, hi: nat): (span: seq<string>)
    ensures |span| == if lo < hi then hi - lo else 0
    ensures forall j :: 0 <= j < |span| ==> span[j] == TermId(lo + j)
  {
    var ks := Range(lo, hi);
    seq(|ks|, j requires 0 <= j < |ks| => TermId(ks[j]))
  }

  /** A term is in `range(lo, hi)` exactly when its position is. */
  lemma TermSpanMembers(lo: nat, hi: nat, k: nat)
    ensures TermId(k) in TermSpan(lo, hi) <==> lo <= k < hi
  {
    var span := TermSpan(lo, hi);
    if TermId(k) in span {
      var j :| 0 <= j < |span| && span[j] == TermId(k);
      TermIdInjective(k, lo + j);
    }
    if lo <= k < hi {
      assert span[k - lo] == TermId(k);
    }
  }

  datatype NafRole = NafRole(semRole: string, span: seq<string>)

  datatype NafPredicate = NafPredicate(surfaceForm: string, span: seq<string>, roles: seq<NafRole>)

  /** A role covers the terms of its argument's tokens, both ends included. */
  function RoleOf(arg: SrlArgument, off: nat): NafRole
  {
    NafRole(arg.category, TermSpan(off + arg.start, off + arg.end + 1))
  }

  function Roles(args: seq<SrlArgument>, off: nat): (roles: seq<NafRole>)
    ensures |roles| == |args| && forall j :: 0 <= j < |args| ==> roles[j] == RoleOf(args[j], off)
  {
    seq(|args|, j requires 0 <= j < |args| => RoleOf(args[j], off))
  }

  function PredicateOf(out: SrlOutput, pos: nat, args: seq<SrlArgument>, off: nat): Result<NafPredicate>
  {
    if pos >= |out.tokens| then Err(IndexError)
    else Ok(NafPredicate(out.tokens[pos], [TermId(off + pos)], Roles(args, off)))
  }

  /** The predicates of the first `n` dictionary entries of a sentence that starts at document token `off`. */
  function SentencePredicates(out: SrlOutput, n: nat, off: nat): Result<seq<NafPredicate>>
    requires out.predArgStruct.Valid() && n <= |out.predArgStruct.keys|
  {
    if n == 0 then Ok([])
    else
      match SentencePredicates(out, n - 1, off)
      case Err(e) => Err(e)
      case Ok(ps) =>
        var pos := out.predArgStruct.keys[n - 1];
        match PredicateOf(out, pos, out.predArgStruct.entries[pos], off)
        case Err(e) => Err(e)
        case Ok(p) => Ok(ps + [p])
  }

  /** A sentence's SRL tagger output, before decoding. */
  datatype SrlParse = SrlParse(words: seq<string>, frames: seq<VerbFrame>)

  predicate FramesFit(parses: seq<SrlParse>)
  {
    forall k, f :: 0 <= k < |parses| && 0 <= f < |parses[k].frames| ==> |parses[k].frames[f].tags| <= |parses[k].words|
  }

  /** One sentence's decoded output (`allennlp_srl`). */
  function ParseOutput(s: SrlParse): (out: SrlOutput)
    requires forall f :: 0 <= f < |s.frames| ==> |s.frames[f].tags| <= |s.words|
    ensures out.predArgStruct.Valid() && out.tokens == s.words
  {
    SrlStructKeys(s.words, s.frames);
    SrlOutputOf(s.words, s.frames)
  }

  /** The decoded outputs, one per sentence (`srl_doc_info`). */
  function Outputs(parses: seq<SrlParse>): (outs: seq<SrlOutput>)
    requires FramesFit(parses)
    ensures |outs| == |parses| && AllValid(outs)
    ensures forall k :: 0 <= k < |parses| ==> outs[k] == ParseOutput(parses[k]) && outs[k].tokens == parses[k].words
  {
    seq(|parses|, k requires 0 <= k < |parses| => ParseOutput(parses[k]))
  }

  ghost predicate AllValid(outs: seq<SrlOutput>)
  {
    forall k :: 0 <= k < |outs| ==> outs[k].predArgStruct.Valid()
  }

  /** The SRL layer and the final predicate counter. */
  datatype NafSrlLayer = NafSrlLayer(predicates: seq<NafPredicate>, counter: nat)

  function SentenceLayer(out: SrlOutput, off: nat): Result<seq<NafPredicate>>
    requires out.predArgStruct.Valid()
  {
    SentencePredicates(out, |out.predArgStruct.keys|, off)
  }

  /** The second loop, from sentence `i` on. */
  function LayerLoop(outs: seq<SrlOutput>, i: nat, off: nat, counter: nat, acc: seq<NafPredicate>): Result<NafSrlLayer>
    requires AllValid(outs)
    decreases |outs| - i
  {
    if i >= |outs| then Ok(NafSrlLayer(acc, counter))
    else
      match SentenceLayer(outs[i], off)
      case Err(e) => Err(e)
      case Ok(ps) => LayerLoop(outs, i + 1, off + |outs[i].tokens|, counter + |outs[i].predArgStruct.keys|, acc + ps)
  }

  /** The first loop's assertion: the tagger kept the NAF tokenisation of every sentence. */
  predicate TokenCountsAgree(sentences: seq<seq<Wf>>, outs: seq<SrlOutput>)
    requires |sentences| == |outs|
  {
    forall i :: 0 <= i < |outs| ==> |outs[i].tokens| == |sentences[i]|
  }

  /** `add_naf_srl_layer`, after `get_naf_sentences`, given the tagger's answer for each sentence. */
  function NafSrlOf(sentences: seq<seq<Wf>>, parses: seq<SrlParse>): Result<NafSrlLayer>
    requires |sentences| == |parses| && FramesFit(parses)
  {
    var outs := Outputs(parses);
    if !TokenCountsAgree(sentences, outs) then Err(AssertionError) else LayerLoop(outs, 0, 0, 0, [])
  }

  method SentenceToNaf(out: SrlOutput, off: nat) returns (r: Result<seq<NafPredicate>>)
    requires out.predArgStruct.Valid()
    ensures r == SentenceLayer(out, off)
  {
    var ps := [];
    var j := 0;
    while j < |out.predArgStruct.keys|
      invariant j <= |out.predArgStruct.keys|
      invariant SentencePredicates(out, j, off) == Ok(ps)
    {
      var pos := out.predArgStruct.keys[j];
      var args := out.predArgStruct.entries[pos];
      var roles := [];
      var a := 0;
      while a < |args|
        invariant a <= |args|
        invariant roles == Roles(args[..a], off)
      {
        assert args[..a + 1] == args[..a] + [args[a]];
        roles := roles + [RoleOf(args[a], off)];
        a := a + 1;
      }
      assert args[..a] == args;
      if pos >= |out.tokens| {
        PredicatesFailFrom(out, j + 1, off);
        return Err(IndexError);
      }
      ps := ps + [NafPredicate(out.tokens[pos], [TermId(off + pos)], roles)];
      j := j + 1;
    }
    r := Ok(ps);
  }

  lemma {:induction false} PredicatesFailFrom(out: SrlOutput, n: nat, off: nat)
    requires out.predArgStruct.Valid() && n <= |out.predArgStruct.keys|
    requires SentencePredicates(out, n, off).Err?
    ensures SentencePredicates(out, |out.predArgStruct.keys|, off) == SentencePredicates(out, n, off)
    decreases |out.predArgStruct.keys| - n
  {
    if n < |out.predArgStruct.keys| {
      PredicatesFailFrom(out, n + 1, off);
    }
  }

  /** The first loop: one tagger call per sentence, and the token-count assertion. */
  method TagSentences(sentences: seq<seq<Wf>>, parses: seq<SrlParse>) returns (r: Result<seq<SrlOutput>>)
    requires |sentences| == |parses| && FramesFit(parses)
    ensures r == if TokenCountsAgree(sentences, Outputs(parses)) then Ok(Outputs(parses)) else Err(AssertionError)
  {
    var outs := [];
    var i := 0;
    while i < |sentences|
      invariant i <= |sentences| && outs == Outputs(parses)[..i]
      invariant forall k :: 0 <= k < i ==> |outs[k].tokens| == |sentences[k]|
    {
      var out := ParseSrl(parses[i].words, parses[i].frames);
      assert out == Outputs(parses)[i];
      if |out.tokens| != |sentences[i]| {
        return Err(AssertionError);
      }
      outs := outs + [out];
      i := i + 1;
    }
    assert outs == Outputs(parses);
    r := Ok(outs);
  }

  /** The second loop, over the decoded outputs. */
  method BuildLayer(outs: seq<SrlOutput>) returns (r: Result<NafSrlLayer>)
    requires AllValid(outs)
    ensures r == LayerLoop(outs, 0, 0, 0, [])
  {
    var counter: nat := 0;
    var off: nat := 0;
    var all := [];
    var i := 0;
    while i < |outs|
      invariant i <= |outs|
      invariant LayerLoop(outs, i, off, counter, all) == LayerLoop(outs, 0, 0, 0, [])
    {
      var ps := SentenceToNaf(outs[i], off);
      if ps.Err? {
        return Err(ps.error);
      }
      all := all + ps.value;
      counter := counter + |outs[i].predArgStruct.keys|;
      off := off + |outs[i].tokens|;
      i := i + 1;
    }
    r := Ok(NafSrlLayer(all, counter));
  }

  method AddNafSrlLayer(sentences: seq<seq<Wf>>, parses: seq<SrlParse>) returns (r: Result<NafSrlLayer>)
    requires |sentences| == |parses| && FramesFit(parses)
    ensures r == NafSrlOf(sentences, parses)
  {
    var outs := TagSentences(sentences, parses);
    if outs.Err? {
      return Err(outs.error);
    }
    r := BuildLayer(outs.value);
  }

  /**
   * Every dictionary entry becomes one predicate, in key order: nothing is
   * dropped, the predicate's term is the entry's token shifted by the
   * sentence offset, and its roles are the entry's arguments.
   */
  lemma {:induction false} SentencePredicatesCount(out: SrlOutput, n: nat, off: nat)
    requires out.predArgStruct.Valid() && n <= |out.predArgStruct.keys|
    ensures var r := SentencePredicates(out, n, off);
      r.Ok? ==> |r.value| == n && forall j :: 0 <= j < n ==>
        var pos := out.predArgStruct.keys[j];
        && pos < |out.tokens|
        && r.value[j] == NafPredicate(out.tokens[pos], [TermId(off + pos)], Roles(out.predArgStruct.entries[pos], off))
  {
    if n > 0 {
      SentencePredicatesCount(out, n - 1, off);
    }
  }

  /** A sentence fails iff one of its entries points past its tokens, and then with `IndexError`. */
  lemma {:induction false} SentencePredicatesFail(out: SrlOutput, n: nat, off: nat)
    requires out.predArgStruct.Valid() && n <= |out.predArgStruct.keys|
    ensures var r := SentencePredicates(out, n, off);
      && (r.Err? <==> exists j :: 0 <= j < n && out.predArgStruct.keys[j] >= |out.tokens|)
      && (r.Err? ==> r.error == IndexError)
  {
    if n > 0 {
      SentencePredicatesFail(out, n - 1, off);
    }
  }

  /** Document position of the first token of sentence `i`. */
  function NafBase(outs: seq<SrlOutput>, i: nat): nat
    requires i <= |outs|
  {
    if i == 0 then 0 else NafBase(outs, i - 1) + |outs[i - 1].tokens|
  }

  function LayerPieces(outs: seq<SrlOutput>, i: nat): (ps: seq<Result<seq<NafPredicate>>>)
    requires AllValid(outs) && i <= |outs|
    ensures |ps| == |outs| - i
    decreases |outs| - i
  {
    if i == |outs| then [] else [SentenceLayer(outs[i], NafBase(outs, i))] + LayerPieces(outs, i + 1)
  }

  /** Total number of dictionary entries of sentences `i` onwards. */
  function EntriesFrom(outs: seq<SrlOutput>, i: nat): nat
    requires i <= |outs|
    decreases |outs| - i
  {
    if i == |outs| then 0 else |outs[i].predArgStruct.keys| + EntriesFrom(outs, i + 1)
  }

  lemma LayerAccStep(loop: Result<NafSrlLayer>, c: Result<seq<NafPredicate>>, p: seq<NafPredicate>,
                      cr: Result<seq<NafPredicate>>, acc: seq<NafPredicate>, counter: nat, entries: nat, rest: nat)
    requires c == if cr.Err? then Err(cr.error) else Ok(p + cr.value)
    requires loop == if cr.Err? then Err(cr.error) else Ok(NafSrlLayer(acc + p + cr.value, counter + entries + rest))
    ensures loop == if c.Err? then Err(c.error) else Ok(NafSrlLayer(acc + c.value, counter + (entries + rest)))
  {
    if cr.Ok? {
      assert acc + p + cr.value == acc + (p + cr.value);
    }
  }

  lemma {:induction false} LayerLoopIsConcat(outs: seq<SrlOutput>, i: nat, counter: nat, acc: seq<NafPredicate>)
    requires AllValid(outs) && i <= |outs|
    ensures var c := ConcatResults(LayerPieces(outs, i));
      LayerLoop(outs, i, NafBase(outs, i), counter, acc)
      == if c.Err? then Err(c.error) else Ok(NafSrlLayer(acc + c.value, counter + EntriesFrom(outs, i)))
    decreases |outs| - i
  {
    var loop := LayerLoop(outs, i, NafBase(outs, i), counter, acc);
    var c := ConcatResults(LayerPieces(outs, i));
    if i < |outs| {
      var p := SentenceLayer(outs[i], NafBase(outs, i));
      var cr := ConcatResults(LayerPieces(outs, i + 1));
      assert c == if p.Err? then Err(p.error) else if cr.Err? then Err(cr.error) else Ok(p.value + cr.value) by {
        assert LayerPieces(outs, i) == [p] + LayerPieces(outs, i + 1);
        ConcatCons(p, LayerPieces(outs, i + 1));
      }
      if p.Err? {
        assert loop == Err(p.error);
        assert c == Err(p.error);
      } else {
        var entries := |outs[i].predArgStruct.keys|;
        var next := LayerLoop(outs, i + 1, NafBase(outs, i + 1), counter + entries, acc + p.value);
        assert loop == next by {
          assert NafBase(outs, i + 1) == NafBase(outs, i) + |outs[i].tokens|;
        }
        assert c == if cr.Err? then Err(cr.error) else Ok(p.value + cr.value);
        assert EntriesFrom(outs, i) == entries + EntriesFrom(outs, i + 1);
        LayerLoopIsConcat(outs, i + 1, counter + entries, acc + p.value);
        LayerAccStep(loop, c, p.value, cr, acc, counter, entries, EntriesFrom(outs, i + 1));
      }
    } else {
      assert acc + [] == acc;
    }
  }

  /**
   * The layer holds every sentence's predicates in order, each sentence's
   * term ids shifted by the token counts of the sentences before it, and
   * the counter ends at the number of dictionary entries. It fails with
   * `AssertionError` iff some sentence's tagger tokens differ in number
   * from its NAF tokens.
   */
  lemma NafSrlIsConcat(sentences: seq<seq<Wf>>, parses: seq<SrlParse>)
    requires |sentences| == |parses| && FramesFit(parses)
    ensures var outs := Outputs(parses);
      var r := NafSrlOf(sentences, parses);
      && (!TokenCountsAgree(sentences, outs) <==> r == Err(AssertionError))
      && (TokenCountsAgree(sentences, outs) ==>
            var c := ConcatResults(LayerPieces(outs, 0));
            r == if c.Err? then Err(c.error) else Ok(NafSrlLayer(c.value, EntriesFrom(outs, 0))))
  {
    var outs := Outputs(parses);
    assert NafBase(outs, 0) == 0;
    LayerLoopIsConcat(outs, 0, 0, []);
    var c := ConcatResults(LayerPieces(outs, 0));
    if TokenCountsAgree(sentences, outs) {
      assert NafSrlOf(sentences, parses) == LayerLoop(outs, 0, 0, 0, []);
      PiecesNeverAssert(outs, 0);
      if c.Ok? {
        assert [] + c.value == c.value;
      }
    }
  }

  /** Sentence pieces can fail only with `IndexError`. */
  lemma {:induction false} PiecesNeverAssert(outs: seq<SrlOutput>, i: nat)
    requires AllValid(outs) && i <= |outs|
    ensures ConcatResults(LayerPieces(outs, i)).Err? ==> ConcatResults(LayerPieces(outs, i)).error == IndexError
    decreases |outs| - i
  {
    if i < |outs| {
      var p := SentenceLayer(outs[i], NafBase(outs, i));
      assert LayerPieces(outs, i) == [p] + LayerPieces(outs, i + 1);
      ConcatCons(p, LayerPieces(outs, i + 1));
      SentencePredicatesFail(outs[i], |outs[i].predArgStruct.keys|, NafBase(outs, i));
      PiecesNeverAssert(outs, i + 1);
    }
  }

  /** The counter always ends at the number of predicates in the layer. */
  lemma {:induction false} CounterCountsPredicates(outs: seq<SrlOutput>, i: nat)
    requires AllValid(outs) && i <= |outs|
    ensures var c := ConcatResults(LayerPieces(outs, i));
      c.Ok? ==> |c.value| == EntriesFrom(outs, i)
    decreases |outs| - i
  {
    if i < |outs| {
      var p := SentenceLayer(outs[i], NafBase(outs, i));
      assert LayerPieces(outs, i) == [p] + LayerPieces(outs, i + 1);
      ConcatCons(p, LayerPieces(outs, i + 1));
      SentencePredicatesCount(outs[i], |outs[i].predArgStruct.keys|, NafBase(outs, i));
      CounterCountsPredicates(outs, i + 1);
    }
  }

  /** A role of an argument spanning tokens `start..end` lists the distinct terms of exactly those tokens, in order. */
  lemma RoleSpan(arg: SrlArgument, off: nat)
    requires arg.start <= arg.end
    ensures var span := RoleOf(arg, off).span;
      && |span| == arg.end - arg.start + 1
      && span[0] == TermId(off + arg.start) && span[|span| - 1] == TermId(off + arg.end)
      && forall a, b :: 0 <= a < b < |span| ==> span[a] != span[b]
  {
    var span := RoleOf(arg, off).span;
    forall a, b | 0 <= a < b < |span| ensures span[a] != span[b] {
      if span[a] == span[b] {
        TermIdInjective(off + arg.start + a, off + arg.start + b);
      }
    }
  }
}
