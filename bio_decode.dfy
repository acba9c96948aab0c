/**
 * The tag decoders that turn one tag per token into spans.
 *
 * The entity decoder is the loop of `allennlp_ner` (BILOU tags) and of the
 * Slovenian `bio2entities` (BIO tags). The argument decoder is the inner
 * loop of `allennlp_srl`, which the English pipelines copy verbatim.
 * Both keep the source's quirks. Tokens of an `I-` tag that arrives before
 * any `B-` are kept and join the next entity. An entity still open after
 * the last tag is never emitted: there is no flush after the loop.
 */
module BioDecode {
  import opened Common

  /** What the decoders accumulate: a category, token positions and the tokens themselves. */
  datatype Span<T> = Span(category: string, indices: seq<nat>, items: seq<T>)

  datatype Scheme = Bio | Bilou

  datatype NerState<T> = NerState(category: string, indices: seq<nat>, items: seq<T>, emitted: seq<Span<T>>)

  function OpenSpan<T>(st: NerState<T>): Span<T>
  {
    Span(st.category, st.indices, st.items)
  }

  function NerStart<T>(): NerState<T>
  {
    NerState("", [], [], [])
  }

  /** One iteration of the decoding loop, for the tag at position `ix`. */
  function NerStep<T>(st: NerState<T>, ix: nat, tag: string, item: T, scheme: Scheme): NerState<T>
  {
    if scheme == Bilou && StartsWith(tag, "U-") then
      NerState("", [], [], st.emitted + [Span(tag[2..], [ix], [item])])
    else if StartsWith(tag, "B-") then
      if |st.category| > 0 then NerState(tag[2..], [ix], [item], st.emitted + [OpenSpan(st)])
      else NerState(tag[2..], st.indices + [ix], st.items + [item], st.emitted)
    else if StartsWith(tag, "I-") || (scheme == Bilou && StartsWith(tag, "L-")) then
      NerState(st.category, st.indices + [ix], st.items + [item], st.emitted)
    else if tag == "O" && |st.category| > 0 then
      NerState("", [], [], st.emitted + [OpenSpan(st)])
    else st
  }

  /** Pair each tag with the token at its position (`enumerate(tags)` indexing into the words). */
  function Tagged<T>(tags: seq<string>, items: seq<T>): (tagged: seq<(string, T)>)
    requires |tags| <= |items|
    ensures |tagged| == |tags|
    ensures forall p :: 0 <= p < |tags| ==> tagged[p] == (tags[p], items[p])
  {
    seq(|tags|, p requires 0 <= p < |tags| => (tags[p], items[p]))
  }

  /** The loop from position `i` on, starting in state `st`. */
  function NerRun<T>(tagged: seq<(string, T)>, i: nat, st: NerState<T>, scheme: Scheme): NerState<T>
    decreases |tagged| - i
  {
    if i >= |tagged| then st else NerRun(tagged, i + 1, NerStep(st, i, tagged[i].0, tagged[i].1, scheme), scheme)
  }

  /** The spans the decoder emits for a tagged token sequence. */
  function NerSpans<T>(tagged: seq<(string, T)>, scheme: Scheme): seq<Span<T>>
  {
    NerRun(tagged, 0, NerStart(), scheme).emitted
  }

  /** The decoding loop itself. */
  method DecodeEntities<T>(tagged: seq<(string, T)>, scheme: Scheme) returns (spans: seq<Span<T>>)
    ensures spans == NerSpans(tagged, scheme)
  {
    var category: string, indices: seq<nat>, items: seq<T> := "", [], [];
    spans := [];
    var ix := 0;
    while ix < |tagged|
      invariant ix <= |tagged|
      invariant NerRun(tagged, ix, NerState(category, indices, items, spans), scheme) == NerRun(tagged, 0, NerStart(), scheme)
    {
      var (tag, item) := tagged[ix];
      ghost var next := NerStep(NerState(category, indices, items, spans), ix, tag, item, scheme);
      if scheme == Bilou && StartsWith(tag, "U-") {
        spans := spans + [Span(tag[2..], [ix], [item])];
        category, indices, items := "", [], [];
      } else if StartsWith(tag, "B-") {
        if |category| > 0 {
          spans := spans + [Span(category, indices, items)];
          indices, items := [], [];
        }
        category := tag[2..];
        items := items + [item];
        indices := indices + [ix];
      } else if StartsWith(tag, "I-") || (scheme == Bilou && StartsWith(tag, "L-")) {
        items := items + [item];
        indices := indices + [ix];
      } else if tag == "O" && |category| > 0 {
        spans := spans + [Span(category, indices, items)];
        category, indices, items := "", [], [];
      }
      assert NerState(category, indices, items, spans) == next;
      ix := ix + 1;
    }
  }

  // ---- every emitted span is a well-formed, ordered run of tagged tokens ----

  predicate Increasing(xs: seq<nat>)
  {
    forall a, b :: 0 <= a < b < |xs| ==> xs[a] < xs[b]
  }

  /** A span's positions increase, lie in the input and carry the tokens found there. */
  ghost predicate SpanIn<T>(sp: Span<T>, tagged: seq<(string, T)>)
  {
    && |sp.indices| == |sp.items| && |sp.indices| > 0
    && Increasing(sp.indices)
    && (forall k :: 0 <= k < |sp.indices| ==> sp.indices[k] < |tagged| && sp.items[k] == tagged[sp.indices[k]].1)
  }

  function LastIndex<T>(sp: Span<T>): nat
    requires |sp.indices| > 0
  {
    sp.indices[|sp.indices| - 1]
  }

  /** Spans are well formed and each ends before the next begins. */
  ghost predicate OrderedSpans<T>(spans: seq<Span<T>>, tagged: seq<(string, T)>)
  {
    && (forall k :: 0 <= k < |spans| ==> SpanIn(spans[k], tagged))
    && (forall k :: 0 <= k < |spans| - 1 ==> LastIndex(spans[k]) < spans[k + 1].indices[0])
  }

  ghost predicate RunInvariant<T>(st: NerState<T>, tagged: seq<(string, T)>, i: nat)
  {
    && i <= |tagged|
    && OrderedSpans(st.emitted, tagged)
    && (forall k :: 0 <= k < |st.emitted| ==> LastIndex(st.emitted[k]) < i)
    && |st.indices| == |st.items| && Increasing(st.indices)
    && (forall k :: 0 <= k < |st.indices| ==> st.indices[k] < i && st.items[k] == tagged[st.indices[k]].1)
    && (|st.category| > 0 ==> |st.indices| > 0)
    && (|st.emitted| > 0 && |st.indices| > 0 ==> LastIndex(st.emitted[|st.emitted| - 1]) < st.indices[0])
  }

  lemma EmitKeepsOrder<T>(emitted: seq<Span<T>>, sp: Span<T>, tagged: seq<(string, T)>, i: nat)
    requires OrderedSpans(emitted, tagged) && SpanIn(sp, tagged)
    requires forall k :: 0 <= k < |emitted| ==> LastIndex(emitted[k]) < i
    requires |emitted| > 0 ==> LastIndex(emitted[|emitted| - 1]) < sp.indices[0]
    requires LastIndex(sp) < i
    ensures OrderedSpans(emitted + [sp], tagged)
    ensures forall k :: 0 <= k < |emitted + [sp]| ==> LastIndex((emitted + [sp])[k]) < i
  {
    var e := emitted + [sp];
    assert forall k :: 0 <= k < |emitted| ==> e[k] == emitted[k];
  }

  /** The token at `i` joins the open span, whatever category is then current. */
  lemma ExtendKeepsInvariant<T>(st: NerState<T>, category: string, tagged: seq<(string, T)>, i: nat)
    requires i < |tagged| && RunInvariant(st, tagged, i)
    ensures RunInvariant(NerState(category, st.indices + [i], st.items + [tagged[i].1], st.emitted), tagged, i + 1)
  {
    var xs := st.indices + [i];
    assert forall k :: 0 <= k < |st.indices| ==> xs[k] == st.indices[k];
  }

  /** The span `sp` is emitted and the decoder starts over from `restart`. */
  lemma EmitKeepsInvariant<T>(st: NerState<T>, sp: Span<T>, restart: NerState<T>, tagged: seq<(string, T)>, i: nat)
    requires i < |tagged| && RunInvariant(st, tagged, i)
    requires SpanIn(sp, tagged) && LastIndex(sp) <= i
    requires |st.emitted| > 0 ==> LastIndex(st.emitted[|st.emitted| - 1]) < sp.indices[0]
    requires restart.emitted == st.emitted + [sp]
    requires (restart.category == "" && restart.indices == [] && restart.items == []) || (restart.indices == [i] && restart.items == [tagged[i].1] && LastIndex(sp) < i)
    ensures RunInvariant(restart, tagged, i + 1)
  {
    EmitKeepsOrder(st.emitted, sp, tagged, i + 1);
  }

  /** A "U-" tag emits a one-token span and closes nothing else. */
  lemma UnitKeepsInvariant<T>(st: NerState<T>, category: string, tagged: seq<(string, T)>, i: nat)
    requires i < |tagged| && RunInvariant(st, tagged, i)
    ensures RunInvariant(NerState("", [], [], st.emitted + [Span(category, [i], [tagged[i].1])]), tagged, i + 1)
  {
    var sp := Span(category, [i], [tagged[i].1]);
    var next := NerState("", [], [], st.emitted + [sp]);
    if |st.emitted| > 0 {
      assert LastIndex(st.emitted[|st.emitted| - 1]) < i;
    }
    EmitKeepsInvariant(st, sp, next, tagged, i);
  }

  /** A "B-" tag with a category open emits the open span and starts a new one at `i`. */
  lemma RestartKeepsInvariant<T>(st: NerState<T>, category: string, tagged: seq<(string, T)>, i: nat)
    requires i < |tagged| && RunInvariant(st, tagged, i) && |st.category| > 0
    ensures RunInvariant(NerState(category, [i], [tagged[i].1], st.emitted + [OpenSpan(st)]), tagged, i + 1)
  {
    OpenSpanIn(st, tagged, i);
    EmitKeepsInvariant(st, OpenSpan(st), NerState(category, [i], [tagged[i].1], st.emitted + [OpenSpan(st)]), tagged, i);
  }

  /** An "O" tag with a category open emits the open span. */
  lemma CloseKeepsInvariant<T>(st: NerState<T>, tagged: seq<(string, T)>, i: nat)
    requires i < |tagged| && RunInvariant(st, tagged, i) && |st.category| > 0
    ensures RunInvariant(NerState("", [], [], st.emitted + [OpenSpan(st)]), tagged, i + 1)
  {
    OpenSpanIn(st, tagged, i);
    EmitKeepsInvariant(st, OpenSpan(st), NerState("", [], [], st.emitted + [OpenSpan(st)]), tagged, i);
  }

  /** With a category open, the open span is well formed and ends before `i`. */
  lemma OpenSpanIn<T>(st: NerState<T>, tagged: seq<(string, T)>, i: nat)
    requires i < |tagged| && RunInvariant(st, tagged, i) && |st.category| > 0
    ensures SpanIn(OpenSpan(st), tagged) && LastIndex(OpenSpan(st)) < i
  {
  }

  lemma StepKeepsInvariant<T>(st: NerState<T>, tagged: seq<(string, T)>, i: nat, scheme: Scheme)
    requires i < |tagged|
    requires RunInvariant(st, tagged, i)
    ensures RunInvariant(NerStep(st, i, tagged[i].0, tagged[i].1, scheme), tagged, i + 1)
  {
    var tag := tagged[i].0;
    if scheme == Bilou && StartsWith(tag, "U-") {
      UnitKeepsInvariant(st, tag[2..], tagged, i);
    } else if StartsWith(tag, "B-") {
      if |st.category| > 0 {
        RestartKeepsInvariant(st, tag[2..], tagged, i);
      } else {
        ExtendKeepsInvariant(st, tag[2..], tagged, i);
      }
    } else if StartsWith(tag, "I-") || (scheme == Bilou && StartsWith(tag, "L-")) {
      ExtendKeepsInvariant(st, st.category, tagged, i);
    } else if tag == "O" && |st.category| > 0 {
      CloseKeepsInvariant(st, tagged, i);
    }
  }

  lemma {:induction false} RunKeepsInvariant<T>(tagged: seq<(string, T)>, i: nat, st: NerState<T>, scheme: Scheme)
    requires i <= |tagged|
    requires RunInvariant(st, tagged, i)
    ensures RunInvariant(NerRun(tagged, i, st, scheme), tagged, |tagged|)
    decreases |tagged| - i
  {
    if i < |tagged| {
      StepKeepsInvariant(st, tagged, i, scheme);
      RunKeepsInvariant(tagged, i + 1, NerStep(st, i, tagged[i].0, tagged[i].1, scheme), scheme);
    }
  }

  /** Whatever the tags, the emitted spans are runs of the input's own tokens, in order and disjoint. */
  lemma NerSpansOrdered<T>(tagged: seq<(string, T)>, scheme: Scheme)
    ensures OrderedSpans(NerSpans(tagged, scheme), tagged)
  {
    RunKeepsInvariant(tagged, 0, NerStart(), scheme);
  }

  /** An entity still open after the last tag is lost: a final "O" would emit exactly it. */
  lemma {:induction false} NoFlushAtEnd<T>(tagged: seq<(string, T)>, filler: T, scheme: Scheme)
    ensures var st := NerRun(tagged, 0, NerStart(), scheme);
            NerSpans(tagged + [("O", filler)], scheme)
            == NerSpans(tagged, scheme) + (if |st.category| > 0 then [OpenSpan(st)] else [])
  {
    RunAppend(tagged, ("O", filler), 0, NerStart(), scheme);
  }

  lemma {:induction false} RunAppend<T>(tagged: seq<(string, T)>, last: (string, T), i: nat, st: NerState<T>, scheme: Scheme)
    requires i <= |tagged|
    ensures NerRun(tagged + [last], i, st, scheme)
            == NerStep(NerRun(tagged, i, st, scheme), |tagged|, last.0, last.1, scheme)
    decreases |tagged| - i
  {
    var ext := tagged + [last];
    if i < |tagged| {
      assert ext[i] == tagged[i];
      RunAppend(tagged, last, i + 1, NerStep(st, i, tagged[i].0, tagged[i].1, scheme), scheme);
    } else {
      assert ext[i] == last;
    }
  }

  // ---- round trip: decoding the BIO encoding of well-formed mentions gives them back ----

  /** A labelled mention over token positions `start .. end - 1`. */
  datatype Mention = Mention(category: string, start: nat, end: nat)

  /** Non-empty labels and extents, sorted and non-overlapping (adjacent is allowed), with at least one token after the last. */
  ghost predicate WellFormedMentions(ms: seq<Mention>, n: nat)
  {
    && (forall k :: 0 <= k < |ms| ==> |ms[k].category| > 0 && ms[k].start < ms[k].end < n)
    && (forall k :: 0 <= k < |ms| - 1 ==> ms[k].end <= ms[k + 1].start)
  }

  /** The BIO tag of position `p`. */
  function BioTag(ms: seq<Mention>, p: nat): string
  {
    if ms == [] then "O"
    else if ms[0].start == p then "B-" + ms[0].category
    else if ms[0].start < p < ms[0].end then "I-" + ms[0].category
    else BioTag(ms[1..], p)
  }

  /** Tag every token with the BIO tag of its position. */
  function BioEncode<T>(ms: seq<Mention>, items: seq<T>): (tagged: seq<(string, T)>)
    ensures |tagged| == |items|
    ensures forall p :: 0 <= p < |items| ==> tagged[p] == (BioTag(ms, p), items[p])
  {
    seq(|items|, p requires 0 <= p < |items| => (BioTag(ms, p), items[p]))
  }

  function MentionSpan<T>(m: Mention, items: seq<T>): Span<T>
    requires m.start <= m.end <= |items|
  {
    Span(m.category, Range(m.start, m.end), items[m.start..m.end])
  }

  function MentionSpans<T>(ms: seq<Mention>, items: seq<T>): seq<Span<T>>
    requires forall k :: 0 <= k < |ms| ==> ms[k].start <= ms[k].end <= |items|
  {
    if ms == [] then [] else [MentionSpan(ms[0], items)] + MentionSpans(ms[1..], items)
  }

  /** Both decoders give back exactly the mentions that were encoded. */
  lemma BioRoundTrip<T>(ms: seq<Mention>, items: seq<T>, scheme: Scheme)
    requires WellFormedMentions(ms, |items|)
    ensures NerSpans(BioEncode(ms, items), scheme) == MentionSpans(ms, items)
  {
    var tagged := BioEncode(ms, items);
    RoundTripFrom(tagged, ms, items, 0, NerStart(), scheme);
  }

  ghost predicate Clean<T>(st: NerState<T>)
  {
    st.category == "" && st.indices == [] && st.items == []
  }

  function Pending<T>(st: NerState<T>): seq<Span<T>>
  {
    if |st.category| > 0 then [OpenSpan(st)] else []
  }

  lemma {:induction false} RoundTripFrom<T>(tagged: seq<(string, T)>, ms: seq<Mention>, items: seq<T>, p: nat, st: NerState<T>, scheme: Scheme)
    requires |tagged| == |items| && p <= |items|
    requires WellFormedMentions(ms, |items|)
    requires forall q :: p <= q < |tagged| ==> tagged[q] == (BioTag(ms, q), items[q])
    requires ms != [] ==> p <= ms[0].start
    requires Clean(st) || |st.category| > 0
    requires ms == [] && |st.category| > 0 ==> p < |items|
    ensures NerRun(tagged, p, st, scheme).emitted == st.emitted + Pending(st) + MentionSpans(ms, items)
    decreases |ms|
  {
    if ms == [] {
      OutsideRun(tagged, p, |tagged|, st, scheme);
      assert st.emitted + Pending(st) + [] == st.emitted + Pending(st);
    } else {
      var m := ms[0];
      MentionTags(tagged, ms, items, p);
      MentionRun(tagged, items, m, p, st, scheme);
      var full := NerState(m.category, Range(m.start, m.end), items[m.start..m.end], st.emitted + Pending(st));
      RoundTripFrom(tagged, ms[1..], items, m.end, full, scheme);
      SpansAfterFirst(ms, items, st, full);
    }
  }

  /** Closing the decoded first mention leaves the spans of the other mentions to come. */
  lemma SpansAfterFirst<T>(ms: seq<Mention>, items: seq<T>, st: NerState<T>, full: NerState<T>)
    requires ms != [] && WellFormedMentions(ms, |items|)
    requires full == NerState(ms[0].category, Range(ms[0].start, ms[0].end), items[ms[0].start..ms[0].end], st.emitted + Pending(st))
    ensures full.emitted + Pending(full) + MentionSpans(ms[1..], items) == st.emitted + Pending(st) + MentionSpans(ms, items)
  {
    assert Pending(full) == [MentionSpan(ms[0], items)];
    assert MentionSpans(ms, items) == [MentionSpan(ms[0], items)] + MentionSpans(ms[1..], items);
  }

  /** The tags the encoder gives around the first mention, and the tags after it. */
  lemma MentionTags<T>(tagged: seq<(string, T)>, ms: seq<Mention>, items: seq<T>, p: nat)
    requires |tagged| == |items| && ms != [] && p <= ms[0].start
    requires WellFormedMentions(ms, |items|)
    requires forall q :: p <= q < |tagged| ==> tagged[q] == (BioTag(ms, q), items[q])
    ensures var m := ms[0];
      && (forall q :: p <= q < m.start ==> tagged[q] == ("O", items[q]))
      && tagged[m.start] == ("B-" + m.category, items[m.start])
      && (forall q :: m.start < q < m.end ==> tagged[q] == ("I-" + m.category, items[q]))
      && (forall q :: m.end <= q < |tagged| ==> tagged[q] == (BioTag(ms[1..], q), items[q]))
      && WellFormedMentions(ms[1..], |items|)
  {
    forall q | p <= q < ms[0].start ensures tagged[q] == ("O", items[q]) {
      TagBeforeMentions(ms, q);
    }
  }

  /** The tokens from `p` up to the end of mention `m`: "O"s, then its "B-", then its "I-"s. */
  lemma MentionRun<T>(tagged: seq<(string, T)>, items: seq<T>, m: Mention, p: nat, st: NerState<T>, scheme: Scheme)
    requires |tagged| == |items| && p <= m.start < m.end <= |items| && |m.category| > 0
    requires forall q :: p <= q < m.start ==> tagged[q] == ("O", items[q])
    requires tagged[m.start] == ("B-" + m.category, items[m.start])
    requires forall q :: m.start < q < m.end ==> tagged[q] == ("I-" + m.category, items[q])
    requires Clean(st) || |st.category| > 0
    ensures NerRun(tagged, p, st, scheme)
            == NerRun(tagged, m.end, NerState(m.category, Range(m.start, m.end), items[m.start..m.end], st.emitted + Pending(st)), scheme)
  {
    var begun := NerState(m.category, [m.start], [items[m.start]], st.emitted + Pending(st));
    MentionBegin(tagged, items, m, p, st, scheme);
    InsideRun(tagged, items, m.start + 1, m.end, begun, m.category, scheme);
    assert [m.start] + Range(m.start + 1, m.end) == Range(m.start, m.end);
    assert items[m.start..m.end] == [items[m.start]] + items[m.start + 1..m.end];
  }

  /** The "O"s before a mention close what is open, and its "B-" opens it. */
  lemma MentionBegin<T>(tagged: seq<(string, T)>, items: seq<T>, m: Mention, p: nat, st: NerState<T>, scheme: Scheme)
    requires |tagged| == |items| && p <= m.start < m.end <= |items| && |m.category| > 0
    requires forall q :: p <= q < m.start ==> tagged[q] == ("O", items[q])
    requires tagged[m.start] == ("B-" + m.category, items[m.start])
    requires Clean(st) || |st.category| > 0
    ensures NerRun(tagged, p, st, scheme)
            == NerRun(tagged, m.start + 1, NerState(m.category, [m.start], [items[m.start]], st.emitted + Pending(st)), scheme)
  {
    OutsideRun(tagged, p, m.start, st, scheme);
    var st1 := if p < m.start && |st.category| > 0 then NerState("", [], [], st.emitted + [OpenSpan(st)]) else st;
    assert ("B-" + m.category)[2..] == m.category;
    var begun := NerState(m.category, [m.start], [items[m.start]], st.emitted + Pending(st));
    assert NerStep(st1, m.start, tagged[m.start].0, tagged[m.start].1, scheme) == begun;
  }

  lemma {:induction false} TagBeforeMentions(ms: seq<Mention>, q: nat)
    requires forall k :: 0 <= k < |ms| - 1 ==> ms[k].end <= ms[k + 1].start
    requires forall k :: 0 <= k < |ms| ==> ms[k].start < ms[k].end
    requires ms != [] ==> q < ms[0].start
    ensures BioTag(ms, q) == "O"
  {
    if ms != [] {
      TagBeforeMentions(ms[1..], q);
    }
  }

  /** Outside every mention: the first "O" closes what is open, the rest change nothing. */
  lemma {:induction false} OutsideRun<T>(tagged: seq<(string, T)>, p: nat, q: nat, st: NerState<T>, scheme: Scheme)
    requires p <= q <= |tagged|
    requires forall r :: p <= r < q ==> tagged[r].0 == "O"
    requires Clean(st) || |st.category| > 0
    ensures NerRun(tagged, p, st, scheme) == NerRun(tagged, q, if p < q && |st.category| > 0 then NerState("", [], [], st.emitted + [OpenSpan(st)]) else st, scheme)
    decreases q - p
  {
    if p < q {
      var st' := NerStep(st, p, tagged[p].0, tagged[p].1, scheme);
      OutsideRun(tagged, p + 1, q, st', scheme);
    }
  }

  /** Inside a mention: each "I-" tag adds its position and token. */
  lemma {:induction false} InsideRun<T>(tagged: seq<(string, T)>, items: seq<T>, p: nat, q: nat, st: NerState<T>, category: string, scheme: Scheme)
    requires p <= q <= |tagged| == |items|
    requires forall r :: p <= r < q ==> tagged[r] == ("I-" + category, items[r])
    ensures NerRun(tagged, p, st, scheme)
            == NerRun(tagged, q, NerState(st.category, st.indices + Range(p, q), st.items + items[p..q], st.emitted), scheme)
    decreases q - p
  {
    if p < q {
      var next := NerState(st.category, st.indices + [p], st.items + [items[p]], st.emitted);
      InsideStep(tagged[p], items[p], p, st, category, scheme);
      InsideRun(tagged, items, p + 1, q, next, category, scheme);
      InsideAppend(st.indices, st.items, items, p, q);
    } else {
      assert st.indices + [] == st.indices && st.items + [] == st.items;
      assert Range(p, q) == [] && items[p..q] == [];
    }
  }

  lemma InsideStep<T>(t: (string, T), item: T, p: nat, st: NerState<T>, category: string, scheme: Scheme)
    requires t == ("I-" + category, item)
    ensures NerStep(st, p, t.0, t.1, scheme) == NerState(st.category, st.indices + [p], st.items + [item], st.emitted)
  {
    assert StartsWith(t.0, "I-");
  }

  lemma InsideAppend<T>(indices: seq<nat>, acc: seq<T>, items: seq<T>, p: nat, q: nat)
    requires p < q <= |items|
    ensures indices + [p] + Range(p + 1, q) == indices + Range(p, q)
    ensures acc + [items[p]] + items[p + 1..q] == acc + items[p..q]
  {
    assert items[p..q] == [items[p]] + items[p + 1..q];
  }
}
