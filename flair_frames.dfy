/**
 * Merging Flair frame senses into AllenNLP semantic-role propositions:
 * a proposition takes the sense of the frame with the same character
 * span, or failing that of the frame with the same sentence and surface
 * form, and every proposition is tallied as a match, a fuzzy match or a
 * non-match.
 */
module FlairFrames {
  import opened Common

  /** A Flair frame: where it is, and its `predicateSense` (`None` for a null value). */
  datatype Frame = Frame(locationStart: int, locationEnd: int, sentenceId: int, surfaceForm: string, predicateSense: Option<string>)

  /** An AllenNLP proposition; `predicateSense` is `None` while the key is absent. */
  datatype Proposition = Proposition(locationStart: int, locationEnd: int, sentenceId: int, surfaceForm: string,
                                     predicateSense: Option<string>)

  datatype MatchKind = Match | FuzzyMatch | NonMatch

  /** `f"{locationStart}_{locationEnd}"` */
  function SpanKey(start: int, end: int): string
  {
    IntToStr(start) + "_" + IntToStr(end)
  }

  /** `f"{sentenceID}_{surfaceForm}"` */
  function SecondKey(sentenceId: int, surfaceForm: string): string
  {
    IntToStr(sentenceId) + "_" + surfaceForm
  }

  lemma SpanKeyInjective(start: int, end: int, start': int, end': int)
    requires SpanKey(start, end) == SpanKey(start', end')
    ensures start == start' && end == end'
  {
    IntToStrChars(start);
    IntToStrChars(start');
    SeparatedUnique(IntToStr(start), IntToStr(end), IntToStr(start'), IntToStr(end'), '_');
    IntToStrInjective(start, start');
    IntToStrInjective(end, end');
  }

  lemma SecondKeyInjective(sentenceId: int, surfaceForm: string, sentenceId': int, surfaceForm': string)
    requires SecondKey(sentenceId, surfaceForm) == SecondKey(sentenceId', surfaceForm')
    ensures sentenceId == sentenceId' && surfaceForm == surfaceForm'
  {
    IntToStrChars(sentenceId);
    IntToStrChars(sentenceId');
    SeparatedUnique(IntToStr(sentenceId), surfaceForm, IntToStr(sentenceId'), surfaceForm', '_');
    IntToStrInjective(sentenceId, sentenceId');
  }

  /**
   * The two tables are keyed by what their string keys print; the two
   * lemmas above show that distinct spans, and distinct pairs of sentence
   * and surface form, print distinct keys.
   */
  type SpanTableKey = (int, int)
  type SecondTableKey = (int, string)

  /** `d.get(k)` */
  function Get<K>(d: map<K, Option<string>>, k: K): Option<string>
  {
    if k in d then d[k] else None
  }

  /** `frame_spans` after the given frames: each frame writes its sense under its span. */
  function SpanTable(frames: seq<Frame>): map<SpanTableKey, Option<string>>
  {
    if frames == [] then map[]
    else
      var f := frames[|frames| - 1];
      SpanTable(frames[..|frames| - 1])[(f.locationStart, f.locationEnd) := f.predicateSense]
  }

  /** `second_chance` after the given frames: each frame writes its sense under its sentence and surface form. */
  function SecondTable(frames: seq<Frame>): map<SecondTableKey, Option<string>>
  {
    if frames == [] then map[]
    else
      var f := frames[|frames| - 1];
      SecondTable(frames[..|frames| - 1])[(f.sentenceId, f.surfaceForm) := f.predicateSense]
  }

  /** One proposition against the two tables; a falsy sense counts as no match. */
  function MergeOne(p: Proposition, spans: map<SpanTableKey, Option<string>>, second: map<SecondTableKey, Option<string>>)
    : (r: (Proposition, MatchKind))
    ensures r.0 == p.(predicateSense := r.0.predicateSense)
    ensures r.1 == Match <==> Truthy(Get(spans, (p.locationStart, p.locationEnd)))
    ensures r.1 == Match ==> r.0.predicateSense == Get(spans, (p.locationStart, p.locationEnd))
    ensures r.1 == FuzzyMatch <==>
      !Truthy(Get(spans, (p.locationStart, p.locationEnd))) && Truthy(Get(second, (p.sentenceId, p.surfaceForm)))
    ensures r.1 == FuzzyMatch ==> r.0.predicateSense == Get(second, (p.sentenceId, p.surfaceForm))
    ensures r.1 == NonMatch ==> r.0 == p
  {
    var senseMatch := Get(spans, (p.locationStart, p.locationEnd));
    if Truthy(senseMatch) then (p.(predicateSense := senseMatch), Match)
    else
      var fuzzy := Get(second, (p.sentenceId, p.surfaceForm));
      if Truthy(fuzzy) then (p.(predicateSense := fuzzy), FuzzyMatch) else (p, NonMatch)
  }

  /** `merge_frames_srl(srl_roles, frame_list)`, with the tally it prints returned as `stats`. */
  method MergeFramesSrl(srlRoles: seq<Proposition>, frameList: seq<Frame>)
    returns (merged: seq<Proposition>, stats: seq<MatchKind>)
    ensures |merged| == |srlRoles| && |stats| == |srlRoles|
    ensures forall i :: 0 <= i < |srlRoles| ==>
      (merged[i], stats[i]) == MergeOne(srlRoles[i], SpanTable(frameList), SecondTable(frameList))
  {
    var frameSpans: map<SpanTableKey, Option<string>> := map[];
    var secondChance: map<SecondTableKey, Option<string>> := map[];
    var k := 0;
    while k < |frameList|
      invariant k <= |frameList|
      invariant frameSpans == SpanTable(frameList[..k]) && secondChance == SecondTable(frameList[..k])
    {
      var obj := frameList[k];
      assert frameList[..k + 1][..k] == frameList[..k];
      frameSpans := frameSpans[(obj.locationStart, obj.locationEnd) := obj.predicateSense];
      secondChance := secondChance[(obj.sentenceId, obj.surfaceForm) := obj.predicateSense];
      k := k + 1;
    }
    assert frameList[..k] == frameList;
    merged, stats := [], [];
    var j := 0;
    while j < |srlRoles|
      invariant j <= |srlRoles| && |merged| == j && |stats| == j
      invariant forall i :: 0 <= i < j ==> (merged[i], stats[i]) == MergeOne(srlRoles[i], frameSpans, secondChance)
    {
      var proposition := srlRoles[j];
      var senseMatch := Get(frameSpans, (proposition.locationStart, proposition.locationEnd));
      if Truthy(senseMatch) {
        proposition := proposition.(predicateSense := senseMatch);
        stats := stats + [Match];
      } else if Truthy(Get(secondChance, (proposition.sentenceId, proposition.surfaceForm))) {
        proposition := proposition.(predicateSense := Get(secondChance, (proposition.sentenceId, proposition.surfaceForm)));
        stats := stats + [FuzzyMatch];
      } else {
        stats := stats + [NonMatch];
      }
      merged := merged + [proposition];
      j := j + 1;
    }
  }

  /** Frame `j` is the last one with span `key`. */
  predicate LastWithSpan(frames: seq<Frame>, j: int, key: SpanTableKey)
  {
    0 <= j < |frames| && (frames[j].locationStart, frames[j].locationEnd) == key
    && forall l :: j < l < |frames| ==> (frames[l].locationStart, frames[l].locationEnd) != key
  }

  /** Frame `j` is the last one with sentence and surface form `key`. */
  predicate LastWithSecond(frames: seq<Frame>, j: int, key: SecondTableKey)
  {
    0 <= j < |frames| && (frames[j].sentenceId, frames[j].surfaceForm) == key
    && forall l :: j < l < |frames| ==> (frames[l].sentenceId, frames[l].surfaceForm) != key
  }

  /** The span table holds exactly the frames' spans. */
  lemma {:induction false} SpanTableKeys(frames: seq<Frame>, key: SpanTableKey)
    ensures key in SpanTable(frames) <==>
      exists j :: 0 <= j < |frames| && (frames[j].locationStart, frames[j].locationEnd) == key
  {
    if frames != [] {
      var pre, f, n := frames[..|frames| - 1], frames[|frames| - 1], |frames| - 1;
      SpanTableKeys(pre, key);
      if (f.locationStart, f.locationEnd) != key {
        if j :| 0 <= j < |frames| && (frames[j].locationStart, frames[j].locationEnd) == key {
          assert j < n && pre[j] == frames[j];
        }
        if j :| 0 <= j < |pre| && (pre[j].locationStart, pre[j].locationEnd) == key {
          assert pre[j] == frames[j];
        }
      } else {
        assert (frames[n].locationStart, frames[n].locationEnd) == key;
      }
    }
  }

  /** The last frame with a given span wins. */
  lemma {:induction false} SpanTableLastWins(frames: seq<Frame>, key: SpanTableKey, j: int)
    requires LastWithSpan(frames, j, key)
    ensures key in SpanTable(frames) && SpanTable(frames)[key] == frames[j].predicateSense
  {
    var pre, f, n := frames[..|frames| - 1], frames[|frames| - 1], |frames| - 1;
    if j < n {
      assert pre[j] == frames[j];
      assert LastWithSpan(pre, j, key) by {
        forall l | j < l < |pre| ensures (pre[l].locationStart, pre[l].locationEnd) != key {
          assert pre[l] == frames[l];
        }
      }
      SpanTableLastWins(pre, key, j);
    }
  }

  /** The second-chance table holds exactly the frames' sentences and surface forms. */
  lemma {:induction false} SecondTableKeys(frames: seq<Frame>, key: SecondTableKey)
    ensures key in SecondTable(frames) <==>
      exists j :: 0 <= j < |frames| && (frames[j].sentenceId, frames[j].surfaceForm) == key
  {
    if frames != [] {
      var pre, f, n := frames[..|frames| - 1], frames[|frames| - 1], |frames| - 1;
      SecondTableKeys(pre, key);
      if (f.sentenceId, f.surfaceForm) != key {
        if j :| 0 <= j < |frames| && (frames[j].sentenceId, frames[j].surfaceForm) == key {
          assert j < n && pre[j] == frames[j];
        }
        if j :| 0 <= j < |pre| && (pre[j].sentenceId, pre[j].surfaceForm) == key {
          assert pre[j] == frames[j];
        }
      } else {
        assert (frames[n].sentenceId, frames[n].surfaceForm) == key;
      }
    }
  }

  /** The last frame with a given sentence and surface form wins. */
  lemma {:induction false} SecondTableLastWins(frames: seq<Frame>, key: SecondTableKey, j: int)
    requires LastWithSecond(frames, j, key)
    ensures key in SecondTable(frames) && SecondTable(frames)[key] == frames[j].predicateSense
  {
    var pre, f, n := frames[..|frames| - 1], frames[|frames| - 1], |frames| - 1;
    if j < n {
      assert pre[j] == frames[j];
      assert LastWithSecond(pre, j, key) by {
        forall l | j < l < |pre| ensures (pre[l].sentenceId, pre[l].surfaceForm) != key {
          assert pre[l] == frames[l];
        }
      }
      SecondTableLastWins(pre, key, j);
    }
  }

  /** A proposition takes the truthy sense of the last frame with its span. */
  lemma MergeFromSpan(p: Proposition, frames: seq<Frame>, j: int)
    requires LastWithSpan(frames, j, (p.locationStart, p.locationEnd)) && Truthy(frames[j].predicateSense)
    ensures MergeOne(p, SpanTable(frames), SecondTable(frames)) == (p.(predicateSense := frames[j].predicateSense), Match)
  {
    SpanTableLastWins(frames, (p.locationStart, p.locationEnd), j);
  }

  /**
   * With no frame at its span, a proposition takes the truthy sense of the
   * last frame with its sentence and surface form.
   */
  lemma MergeFromSecond(p: Proposition, frames: seq<Frame>, j: int)
    requires forall l :: 0 <= l < |frames| ==> (frames[l].locationStart, frames[l].locationEnd) != (p.locationStart, p.locationEnd)
    requires LastWithSecond(frames, j, (p.sentenceId, p.surfaceForm)) && Truthy(frames[j].predicateSense)
    ensures MergeOne(p, SpanTable(frames), SecondTable(frames)) == (p.(predicateSense := frames[j].predicateSense), FuzzyMatch)
  {
    SpanTableKeys(frames, (p.locationStart, p.locationEnd));
    SecondTableLastWins(frames, (p.sentenceId, p.surfaceForm), j);
  }

  /** A proposition that no frame shares a span or a sentence and surface form with is left as it is. */
  lemma MergeNoFrame(p: Proposition, frames: seq<Frame>)
    requires forall l :: 0 <= l < |frames| ==> (frames[l].locationStart, frames[l].locationEnd) != (p.locationStart, p.locationEnd)
    requires forall l :: 0 <= l < |frames| ==> (frames[l].sentenceId, frames[l].surfaceForm) != (p.sentenceId, p.surfaceForm)
    ensures MergeOne(p, SpanTable(frames), SecondTable(frames)) == (p, NonMatch)
  {
    SpanTableKeys(frames, (p.locationStart, p.locationEnd));
    SecondTableKeys(frames, (p.sentenceId, p.surfaceForm));
  }
}
