/**
 * Semantic-role decoding as `allennlp_srl` does it. For every verb frame
 * the tagger returns, one loop over its BIO tags collects the arguments.
 * "B-V" marks the verb itself and plays the part of "O" for the argument
 * being built. The results land in one `SRL_Output` whose
 * predicate-to-arguments dictionary is keyed by the verb's token position.
 */
module SrlDecode {
  import opened Common
  import opened PyDict
  import opened BioDecode

  /** `(token_index, surface_form)` of a predicate. */
  datatype Predicate = Predicate(index: nat, verb: string)

  datatype SrlArgument = SrlArgument(pred: Predicate, text: string, category: string, start: nat, end: nat)

  /** One verb frame of the tagger's output: the verb and one tag per word. */
  datatype VerbFrame = VerbFrame(verb: string, tags: seq<string>)

  datatype SrlOutput = SrlOutput(
    tokens: seq<string>,
    predicates: seq<Predicate>,
    argLabels: seq<seq<string>>,
    predArgStruct: Dict<nat, seq<SrlArgument>>)

  datatype SrlState = SrlState(predIndex: nat, category: string, indices: seq<nat>, tokens: seq<string>, args: seq<SrlArgument>)

  /** A state with a category always has at least one collected token. */
  predicate SrlOk(st: SrlState)
  {
    |st.indices| == |st.tokens| && (|st.category| > 0 ==> |st.indices| > 0)
  }

  function ArgumentOf(st: SrlState, predIndex: nat, verb: string): SrlArgument
    requires SrlOk(st) && |st.category| > 0
  {
    SrlArgument(Predicate(predIndex, verb), Join(st.tokens, " "), st.category, st.indices[0], st.indices[|st.indices| - 1])
  }

  /** One iteration of the inner loop: tag `tag` at position `ix`. */
  function SrlStep(st: SrlState, ix: nat, tag: string, word: string, verb: string): (r: SrlState)
    requires SrlOk(st)
    ensures SrlOk(r)
  {
    if tag == "B-V" then
      if |st.category| > 0 then SrlState(ix, "", [], [], st.args + [ArgumentOf(st, ix, verb)])
      else st.(predIndex := ix)
    else if StartsWith(tag, "B-") then
      if |st.category| > 0 then SrlState(st.predIndex, tag[2..], [ix], [word], st.args + [ArgumentOf(st, st.predIndex, verb)])
      else SrlState(st.predIndex, tag[2..], st.indices + [ix], st.tokens + [word], st.args)
    else if StartsWith(tag, "I-") then
      SrlState(st.predIndex, st.category, st.indices + [ix], st.tokens + [word], st.args)
    else if tag == "O" && |st.category| > 0 then
      SrlState(st.predIndex, "", [], [], st.args + [ArgumentOf(st, st.predIndex, verb)])
    else st
  }

  function SrlRun(tags: seq<string>, words: seq<string>, verb: string, i: nat, st: SrlState): (r: SrlState)
    requires |tags| <= |words| && SrlOk(st)
    ensures SrlOk(r)
    decreases |tags| - i
  {
    if i >= |tags| then st else SrlRun(tags, words, verb, i + 1, SrlStep(st, i, tags[i], words[i], verb))
  }

  const SrlStart := SrlState(0, "", [], [], [])

  /** The predicate index and the arguments decoded from one verb frame. */
  function FrameResult(frame: VerbFrame, words: seq<string>): SrlState
    requires |frame.tags| <= |words|
  {
    SrlRun(frame.tags, words, frame.verb, 0, SrlStart)
  }

  /** The inner loop of `allennlp_srl` for one verb frame. */
  method DecodeFrame(frame: VerbFrame, words: seq<string>) returns (predIndex: nat, args: seq<SrlArgument>)
    requires |frame.tags| <= |words|
    ensures predIndex == FrameResult(frame, words).predIndex
    ensures args == FrameResult(frame, words).args
  {
    predIndex, args := 0, [];
    var tokens: seq<string>, indices: seq<nat>, category := [], [], "";
    var ix := 0;
    while ix < |frame.tags|
      invariant ix <= |frame.tags|
      invariant SrlOk(SrlState(predIndex, category, indices, tokens, args))
      invariant SrlRun(frame.tags, words, frame.verb, ix, SrlState(predIndex, category, indices, tokens, args)) == FrameResult(frame, words)
    {
      var tag := frame.tags[ix];
      ghost var next := SrlStep(SrlState(predIndex, category, indices, tokens, args), ix, tag, words[ix], frame.verb);
      if tag == "B-V" {
        predIndex := ix;
        if |category| > 0 {
          args := args + [SrlArgument(Predicate(predIndex, frame.verb), Join(tokens, " "), category, indices[0], indices[|indices| - 1])];
          category, indices, tokens := "", [], [];
        }
      } else if StartsWith(tag, "B-") {
        if |category| > 0 {
          args := args + [SrlArgument(Predicate(predIndex, frame.verb), Join(tokens, " "), category, indices[0], indices[|indices| - 1])];
          indices, tokens := [], [];
        }
        category := tag[2..];
        tokens := tokens + [words[ix]];
        indices := indices + [ix];
      } else if StartsWith(tag, "I-") {
        tokens := tokens + [words[ix]];
        indices := indices + [ix];
      } else if tag == "O" && |category| > 0 {
        args := args + [SrlArgument(Predicate(predIndex, frame.verb), Join(tokens, " "), category, indices[0], indices[|indices| - 1])];
        category, indices, tokens := "", [], [];
      }
      assert SrlState(predIndex, category, indices, tokens, args) == next;
      ix := ix + 1;
    }
  }

  // ---- the argument spans are the entity decoder's spans, with "B-V" read as "O" ----

  /** The tags as the entity decoder would need them to find the same spans. */
  function VerbAsOutside(tags: seq<string>, words: seq<string>): (tagged: seq<(string, string)>)
    requires |tags| <= |words|
    ensures |tagged| == |tags|
  {
    seq(|tags|, p requires 0 <= p < |tags| => (if tags[p] == "B-V" then "O" else tags[p], words[p]))
  }

  /** An argument carries exactly the category, joined text and first and last positions of a span. */
  predicate ArgumentMatches(arg: SrlArgument, sp: Span<string>)
  {
    && |sp.indices| > 0
    && arg.category == sp.category && arg.text == Join(sp.items, " ")
    && arg.start == sp.indices[0] && arg.end == sp.indices[|sp.indices| - 1]
  }

  predicate ArgumentsMatch(args: seq<SrlArgument>, spans: seq<Span<string>>)
  {
    |args| == |spans| && forall k :: 0 <= k < |args| ==> ArgumentMatches(args[k], spans[k])
  }

  predicate StatesAgree(st: SrlState, nst: NerState<string>)
  {
    st.category == nst.category && st.indices == nst.indices && st.tokens == nst.items && ArgumentsMatch(st.args, nst.emitted)
  }

  lemma {:induction false} AgreeRun(tags: seq<string>, words: seq<string>, verb: string, i: nat, st: SrlState, nst: NerState<string>)
    requires |tags| <= |words| && i <= |tags| && SrlOk(st) && StatesAgree(st, nst)
    ensures StatesAgree(SrlRun(tags, words, verb, i, st), NerRun(VerbAsOutside(tags, words), i, nst, Bio))
    decreases |tags| - i
  {
    if i < |tags| {
      var tagged := VerbAsOutside(tags, words);
      var st' := SrlStep(st, i, tags[i], words[i], verb);
      var nst' := NerStep(nst, i, tagged[i].0, tagged[i].1, Bio);
      if |st'.args| > |st.args| {
        var a, e := st'.args, nst'.emitted;
        assert forall k :: 0 <= k < |st.args| ==> a[k] == st.args[k] && e[k] == nst.emitted[k];
      }
      assert StatesAgree(st', nst');
      AgreeRun(tags, words, verb, i + 1, st', nst');
    }
  }

  /** Each frame's arguments are the entity decoder's spans over the same tags, "B-V" counting as "O". */
  lemma ArgumentsAreSpans(frame: VerbFrame, words: seq<string>)
    requires |frame.tags| <= |words|
    ensures ArgumentsMatch(FrameResult(frame, words).args, NerSpans(VerbAsOutside(frame.tags, words), Bio))
  {
    AgreeRun(frame.tags, words, frame.verb, 0, SrlStart, NerStart());
  }

  // ---- the predicate a frame reports ----

  /** The last position tagged "B-V" before `i`, or 0 when there is none. */
  function LastVerbBefore(tags: seq<string>, i: nat): (p: nat)
    requires i <= |tags|
    ensures p == 0 || (p < i && tags[p] == "B-V")
    ensures forall q :: p < q < i ==> tags[q] != "B-V"
  {
    if i == 0 then 0 else if tags[i - 1] == "B-V" then i - 1 else LastVerbBefore(tags, i - 1)
  }

  /** The state's predicate index is the last verb position seen; arguments point at 0 or at some verb position. */
  ghost predicate PredicateKnown(tags: seq<string>, verb: string, i: nat, st: SrlState)
    requires i <= |tags|
  {
    && st.predIndex == LastVerbBefore(tags, i)
    && forall k :: 0 <= k < |st.args| ==>
         st.args[k].pred.verb == verb && st.args[k].pred.index < |tags|
         && (st.args[k].pred.index == 0 || tags[st.args[k].pred.index] == "B-V")
  }

  lemma {:induction false} PredicateRun(tags: seq<string>, words: seq<string>, verb: string, i: nat, st: SrlState)
    requires |tags| <= |words| && i <= |tags| && SrlOk(st) && PredicateKnown(tags, verb, i, st)
    requires i == 0 ==> st.args == []
    ensures PredicateKnown(tags, verb, |tags|, SrlRun(tags, words, verb, i, st))
    decreases |tags| - i
  {
    if i < |tags| {
      var st' := SrlStep(st, i, tags[i], words[i], verb);
      if |st'.args| > |st.args| {
        var a := st'.args;
        assert forall k :: 0 <= k < |st.args| ==> a[k] == st.args[k];
      }
      assert PredicateKnown(tags, verb, i + 1, st');
      PredicateRun(tags, words, verb, i + 1, st');
    }
  }

  /**
   * A frame reports the last "B-V" position as its predicate (0 when the
   * frame has no "B-V"); every argument names the verb and either 0 or a
   * "B-V" position. An argument closed before the verb is seen keeps 0.
   */
  lemma FramePredicate(frame: VerbFrame, words: seq<string>)
    requires |frame.tags| <= |words|
    ensures FrameResult(frame, words).predIndex == LastVerbBefore(frame.tags, |frame.tags|)
    ensures forall k :: 0 <= k < |FrameResult(frame, words).args| ==>
              var arg := FrameResult(frame, words).args[k];
              arg.pred.verb == frame.verb && (arg.pred.index == 0 || (arg.pred.index < |frame.tags| && frame.tags[arg.pred.index] == "B-V"))
  {
    PredicateRun(frame.tags, words, frame.verb, 0, SrlStart);
  }

  // ---- all frames of a sentence ----

  /** What `allennlp_srl` returns after the first frames have been processed. */
  function SrlOutputOf(words: seq<string>, frames: seq<VerbFrame>): (out: SrlOutput)
    requires forall f :: 0 <= f < |frames| ==> |frames[f].tags| <= |words|
    ensures out.tokens == words
  {
    if frames == [] then SrlOutput(words, [], [], Empty())
    else
      var out := SrlOutputOf(words, frames[..|frames| - 1]);
      var frame := frames[|frames| - 1];
      var res := FrameResult(frame, words);
      SrlOutput(out.tokens, out.predicates + [Predicate(res.predIndex, frame.verb)], out.argLabels + [frame.tags],
                out.predArgStruct.Put(res.predIndex, res.args))
  }

  /** `allennlp_srl`, after the predictor has produced `words` and `frames`. */
  method ParseSrl(words: seq<string>, frames: seq<VerbFrame>) returns (out: SrlOutput)
    requires forall f :: 0 <= f < |frames| ==> |frames[f].tags| <= |words|
    ensures out == SrlOutputOf(words, frames)
  {
    out := SrlOutput(words, [], [], Empty());
    var f := 0;
    while f < |frames|
      invariant f <= |frames|
      invariant out == SrlOutputOf(words, frames[..f])
    {
      var frame := frames[f];
      var predIndex, args := DecodeFrame(frame, words);
      out := SrlOutput(out.tokens, out.predicates + [Predicate(predIndex, frame.verb)], out.argLabels + [frame.tags],
                       out.predArgStruct.Put(predIndex, args));
      assert frames[..f + 1][..f] == frames[..f];
      f := f + 1;
    }
    assert frames[..f] == frames;
  }

  /** One predicate and one tag row per frame, in order. */
  lemma {:induction false} SrlPredicates(words: seq<string>, frames: seq<VerbFrame>)
    requires forall f :: 0 <= f < |frames| ==> |frames[f].tags| <= |words|
    ensures var out := SrlOutputOf(words, frames);
      && out.tokens == words
      && |out.predicates| == |frames| && |out.argLabels| == |frames|
      && (forall f :: 0 <= f < |frames| ==>
            out.argLabels[f] == frames[f].tags
            && out.predicates[f] == Predicate(FrameResult(frames[f], words).predIndex, frames[f].verb))
  {
    if frames != [] {
      var init, last := frames[..|frames| - 1], frames[|frames| - 1];
      SrlPredicates(words, init);
      var out0, out := SrlOutputOf(words, init), SrlOutputOf(words, frames);
      var res := FrameResult(last, words);
      assert out.predicates == out0.predicates + [Predicate(res.predIndex, last.verb)];
      assert out.argLabels == out0.argLabels + [last.tags];
      forall f | 0 <= f < |frames|
        ensures out.argLabels[f] == frames[f].tags
        ensures out.predicates[f] == Predicate(FrameResult(frames[f], words).predIndex, frames[f].verb)
      {
        if f < |init| {
          assert init[f] == frames[f];
          assert out.argLabels[f] == out0.argLabels[f] && out.predicates[f] == out0.predicates[f];
        } else {
          assert f == |init| && frames[f] == last;
        }
      }
    }
  }

  /** The dictionary's keys are exactly the reported predicate positions, each once. */
  lemma SrlStructKeys(words: seq<string>, frames: seq<VerbFrame>)
    requires forall f :: 0 <= f < |frames| ==> |frames[f].tags| <= |words|
    ensures var out := SrlOutputOf(words, frames);
      && out.predArgStruct.Valid() && |out.predicates| == |frames|
      && (forall p :: p in out.predArgStruct.entries <==> exists f :: 0 <= f < |frames| && out.predicates[f].index == p)
  {
    var out := SrlOutputOf(words, frames);
    SrlStructValid(words, frames);
    SrlPredicates(words, frames);
    forall p | p in out.predArgStruct.entries ensures exists f :: 0 <= f < |frames| && out.predicates[f].index == p {
      var f := SrlKeyFrom(words, frames, p);
      assert out.predicates[f].index == p;
    }
    forall f | 0 <= f < |frames| ensures out.predicates[f].index in out.predArgStruct.entries {
      SrlKeyPresent(words, frames, f);
    }
  }

  lemma {:induction false} SrlStructValid(words: seq<string>, frames: seq<VerbFrame>)
    requires forall f :: 0 <= f < |frames| ==> |frames[f].tags| <= |words|
    ensures SrlOutputOf(words, frames).predArgStruct.Valid()
  {
    if frames != [] {
      SrlStructValid(words, frames[..|frames| - 1]);
    }
  }

  /** Every key was written by some frame. */
  lemma {:induction false} SrlKeyFrom(words: seq<string>, frames: seq<VerbFrame>, p: nat) returns (f: nat)
    requires forall f :: 0 <= f < |frames| ==> |frames[f].tags| <= |words|
    requires p in SrlOutputOf(words, frames).predArgStruct.entries
    ensures f < |frames| && FrameResult(frames[f], words).predIndex == p
  {
    var init := frames[..|frames| - 1];
    if p == FrameResult(frames[|frames| - 1], words).predIndex {
      f := |frames| - 1;
    } else {
      f := SrlKeyFrom(words, init, p);
      assert init[f] == frames[f];
    }
  }

  /** Every frame's position is a key. */
  lemma {:induction false} SrlKeyPresent(words: seq<string>, frames: seq<VerbFrame>, f: nat)
    requires forall f :: 0 <= f < |frames| ==> |frames[f].tags| <= |words|
    requires f < |frames|
    ensures FrameResult(frames[f], words).predIndex in SrlOutputOf(words, frames).predArgStruct.entries
  {
    var init := frames[..|frames| - 1];
    if f < |init| {
      SrlKeyPresent(words, init, f);
      assert init[f] == frames[f];
    }
  }

  /**
   * A predicate position maps to the arguments of the LAST frame reporting
   * it: a later frame with the same verb position overwrites earlier ones.
   */
  lemma {:induction false} SrlStructLastWriter(words: seq<string>, frames: seq<VerbFrame>, f: nat)
    requires forall f :: 0 <= f < |frames| ==> |frames[f].tags| <= |words|
    requires f < |frames|
    requires forall g :: f < g < |frames| ==> FrameResult(frames[g], words).predIndex != FrameResult(frames[f], words).predIndex
    ensures var p := FrameResult(frames[f], words).predIndex;
      p in SrlOutputOf(words, frames).predArgStruct.entries
      && SrlOutputOf(words, frames).predArgStruct.entries[p] == FrameResult(frames[f], words).args
  {
    var init := frames[..|frames| - 1];
    if f < |init| {
      assert forall g :: 0 <= g < |init| ==> init[g] == frames[g];
      SrlStructLastWriter(words, init, f);
    }
  }
}
