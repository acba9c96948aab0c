/**
 * The coreference layer of the two English AllenNLP front ends
 * (`english/utils/nlp_allen.py` and `english/utils_nlp_allen.py`).
 *
 * The document is truncated to a word budget before it reaches the
 * resolver. The resolver's clusters of inclusive token spans then become
 * mention records grouped by cluster number. The resolver itself is an
 * input: its token list and its clusters.
 */
module AllenCoref {
  import opened Common
  import opened PyDict

  /** Total `len(s.split())` over the sentences. */
  function WordCount(sentences: seq<string>): nat
  {
    if sentences == [] then 0 else WordCount(sentences[..|sentences| - 1]) + |SplitWs(sentences[|sentences| - 1])|
  }

  /**
   * The sentences handed to the resolver: sentences are taken while the
   * running word count stays within `limit` (1000 in one front end, 400 in
   * the other), and the first that would exceed it stops the scan.
   */
  method TruncateForCoref(sentences: seq<string>, limit: nat) returns (kept: seq<string>)
    ensures kept <= sentences
    ensures WordCount(kept) <= limit
    ensures |kept| < |sentences| ==> WordCount(sentences[..|kept| + 1]) > limit
  {
    kept := [];
    var total := 0;
    var k := 0;
    while k < |sentences|
      invariant k <= |sentences| && kept == sentences[..k]
      invariant total == WordCount(kept) <= limit
    {
      total := total + |SplitWs(sentences[k])|;
      assert sentences[..k + 1][..k] == sentences[..k];
      if total <= limit {
        kept := kept + [sentences[k]];
      } else {
        break;
      }
      k := k + 1;
    }
  }

  lemma {:induction false} WordCountMonotone(sentences: seq<string>, i: nat, j: nat)
    requires i <= j <= |sentences|
    ensures WordCount(sentences[..i]) <= WordCount(sentences[..j])
    decreases j - i
  {
    if i < j {
      WordCountMonotone(sentences, i, j - 1);
      assert sentences[..j][..j - 1] == sentences[..j - 1];
    }
  }

  /**
   * The truncation is the longest prefix within the budget: only one prefix
   * length meets the method's postcondition.
   */
  lemma TruncationIsLongest(sentences: seq<string>, limit: nat, n: nat, m: nat)
    requires n <= |sentences| && WordCount(sentences[..n]) <= limit && (n < |sentences| ==> WordCount(sentences[..n + 1]) > limit)
    requires m <= |sentences| && WordCount(sentences[..m]) <= limit && (m < |sentences| ==> WordCount(sentences[..m + 1]) > limit)
    ensures n == m
  {
    if n < m {
      WordCountMonotone(sentences, n + 1, m);
    } else if m < n {
      WordCountMonotone(sentences, m + 1, n);
    }
  }

  // ---- english/utils/nlp_allen.py: mentions with character offsets ----

  /** A resolver span: first and last token, both inclusive. */
  datatype TokenSpan = TokenSpan(start: nat, end: nat)

  datatype CharMention = CharMention(id: string, surfaceForm: string, locationStart: nat, locationEnd: nat)

  /** `f"{cluster_id}_{j}"` */
  function MentionId(c: nat, j: nat): string
  {
    NatToStr(c) + "_" + NatToStr(j)
  }

  lemma MentionIdInjective(c: nat, j: nat, c': nat, j': nat)
    requires MentionId(c, j) == MentionId(c', j')
    ensures c == c' && j == j'
  {
    DigitsPrefixUnique(NatToStr(c), NatToStr(j), NatToStr(c'), NatToStr(j'), '_');
    NatToStrInjective(c, c');
    NatToStrInjective(j, j');
  }

  /** `" ".join(tokens[start:end+1])` */
  function SpanText(tokens: seq<string>, sp: TokenSpan): string
  {
    Join(PySlice(tokens, sp.start, sp.end + 1), " ")
  }

  /** The record of span `j` of cluster `c`, whose first token starts at character `start`. */
  function MentionRecord(tokens: seq<string>, sp: TokenSpan, c: nat, j: nat, start: nat): CharMention
  {
    var text := SpanText(tokens, sp);
    CharMention(MentionId(c, j), text, start, start + |text|)
  }

  /** The mention records of cluster `c` built up to the first `j` spans. */
  function CharMentions(tokens: seq<string>, cluster: seq<TokenSpan>, c: nat, charStarts: map<nat, nat>): Result<seq<CharMention>>
  {
    if cluster == [] then Ok([])
    else
      var j := |cluster| - 1;
      match CharMentions(tokens, cluster[..j], c, charStarts)
      case Err(e) => Err(e)
      case Ok(ms) =>
        var sp := cluster[j];
        if sp.start !in charStarts then Err(KeyError)
        else Ok(ms + [MentionRecord(tokens, sp, c, j, charStarts[sp.start])])
  }

  /** `allennlp_coref`'s dictionary for the first clusters; a cluster gets a key only once it has a mention. */
  function CharClusters(tokens: seq<string>, clusters: seq<seq<TokenSpan>>, charStarts: map<nat, nat>): Result<Dict<nat, seq<CharMention>>>
  {
    if clusters == [] then Ok(Empty())
    else
      var c := |clusters| - 1;
      match CharClusters(tokens, clusters[..c], charStarts)
      case Err(e) => Err(e)
      case Ok(d) =>
        match CharMentions(tokens, clusters[c], c, charStarts)
        case Err(e) => Err(e)
        case Ok(ms) => if ms == [] then Ok(d) else Ok(d.Put(c, ms))
  }

  /** The inner loop of `allennlp_coref`: the records of one cluster. */
  method ClusterWithOffsets(tokens: seq<string>, cluster: seq<TokenSpan>, c: nat, charStarts: map<nat, nat>)
    returns (r: Result<seq<CharMention>>)
    ensures r == CharMentions(tokens, cluster, c, charStarts)
  {
    var ms := [];
    var j := 0;
    while j < |cluster|
      invariant j <= |cluster|
      invariant CharMentions(tokens, cluster[..j], c, charStarts) == Ok(ms)
    {
      var sp := cluster[j];
      MentionsSnoc(tokens, cluster, j, c, charStarts, ms);
      if sp.start !in charStarts {
        MentionsFailFrom(tokens, cluster, j + 1, c, charStarts);
        return Err(KeyError);
      }
      ms := ms + [MentionRecord(tokens, sp, c, j, charStarts[sp.start])];
      j := j + 1;
    }
    assert cluster[..j] == cluster;
    r := Ok(ms);
  }

  /** `allennlp_coref`: the clusters in order, failing on the first span whose start has no character offset. */
  method CorefWithOffsets(tokens: seq<string>, clusters: seq<seq<TokenSpan>>, charStarts: map<nat, nat>)
    returns (r: Result<Dict<nat, seq<CharMention>>>)
    ensures r == CharClusters(tokens, clusters, charStarts)
  {
    var d := Empty();
    var c := 0;
    while c < |clusters|
      invariant c <= |clusters|
      invariant CharClusters(tokens, clusters[..c], charStarts) == Ok(d)
    {
      var ms := ClusterWithOffsets(tokens, clusters[c], c, charStarts);
      assert clusters[..c + 1][..c] == clusters[..c];
      if ms.Err? {
        ClustersFailFrom(tokens, clusters, c + 1, charStarts);
        assert clusters[..|clusters|] == clusters;
        return Err(ms.error);
      }
      if ms.value != [] {
        d := d.Put(c, ms.value);
      }
      c := c + 1;
    }
    assert clusters[..c] == clusters;
    r := Ok(d);
  }

  /** One more span: its record, or the `KeyError` of a start with no character offset. */
  lemma MentionsSnoc(tokens: seq<string>, cluster: seq<TokenSpan>, j: nat, c: nat, charStarts: map<nat, nat>, ms: seq<CharMention>)
    requires j < |cluster| && CharMentions(tokens, cluster[..j], c, charStarts) == Ok(ms)
    ensures var sp := cluster[j];
      CharMentions(tokens, cluster[..j + 1], c, charStarts)
        == if sp.start !in charStarts then Err(KeyError) else Ok(ms + [MentionRecord(tokens, sp, c, j, charStarts[sp.start])])
  {
    assert cluster[..j + 1][..j] == cluster[..j];
  }

  lemma {:induction false} MentionsFailFrom(tokens: seq<string>, cluster: seq<TokenSpan>, j: nat, c: nat, charStarts: map<nat, nat>)
    requires j <= |cluster| && CharMentions(tokens, cluster[..j], c, charStarts).Err?
    ensures CharMentions(tokens, cluster, c, charStarts) == CharMentions(tokens, cluster[..j], c, charStarts)
    decreases |cluster| - j
  {
    if j < |cluster| {
      assert cluster[..j + 1][..j] == cluster[..j];
      MentionsFailFrom(tokens, cluster, j + 1, c, charStarts);
    } else {
      assert cluster[..j] == cluster;
    }
  }

  lemma {:induction false} ClustersFailFrom(tokens: seq<string>, clusters: seq<seq<TokenSpan>>, c: nat, charStarts: map<nat, nat>)
    requires c <= |clusters| && CharClusters(tokens, clusters[..c], charStarts).Err?
    ensures CharClusters(tokens, clusters, charStarts) == CharClusters(tokens, clusters[..c], charStarts)
    decreases |clusters| - c
  {
    if c < |clusters| {
      assert clusters[..c + 1][..c] == clusters[..c];
      ClustersFailFrom(tokens, clusters, c + 1, charStarts);
    } else {
      assert clusters[..c] == clusters;
    }
  }

  /** The record for span `j` of cluster `c`: id `c_j`, the joined token text, and an end that is the start plus the text length. */
  predicate CharMentionOk(m: CharMention, tokens: seq<string>, sp: TokenSpan, c: nat, j: nat, charStarts: map<nat, nat>)
  {
    && sp.start in charStarts
    && m.id == MentionId(c, j) && m.surfaceForm == SpanText(tokens, sp)
    && m.locationStart == charStarts[sp.start] && m.locationEnd == m.locationStart + |m.surfaceForm|
  }

  /** One record per span, in span order; a `KeyError` exactly when some span's start has no character offset. */
  lemma CharMentionsShape(tokens: seq<string>, cluster: seq<TokenSpan>, c: nat, charStarts: map<nat, nat>)
    ensures var r := CharMentions(tokens, cluster, c, charStarts);
      && (r.Ok? <==> forall j :: 0 <= j < |cluster| ==> cluster[j].start in charStarts)
      && (r.Err? ==> r.error == KeyError)
      && (r.Ok? ==> |r.value| == |cluster| && forall j :: 0 <= j < |cluster| ==> CharMentionOk(r.value[j], tokens, cluster[j], c, j, charStarts))
  {
    var r := CharMentions(tokens, cluster, c, charStarts);
    CharMentionsOutcome(tokens, cluster, c, charStarts);
    if r.Ok? {
      forall j | 0 <= j < |cluster| ensures CharMentionOk(r.value[j], tokens, cluster[j], c, j, charStarts) {
        CharMentionsAt(tokens, cluster, c, charStarts, j);
      }
    }
  }

  /** Every span's first token has a character offset. */
  predicate StartsKnown(cluster: seq<TokenSpan>, charStarts: map<nat, nat>)
  {
    forall j :: 0 <= j < |cluster| ==> cluster[j].start in charStarts
  }

  lemma StartsKnownSnoc(cluster: seq<TokenSpan>, charStarts: map<nat, nat>)
    requires cluster != []
    ensures StartsKnown(cluster, charStarts)
      <==> StartsKnown(cluster[..|cluster| - 1], charStarts) && cluster[|cluster| - 1].start in charStarts
  {
    var init := cluster[..|cluster| - 1];
    assert forall k :: 0 <= k < |init| ==> init[k] == cluster[k];
  }

  lemma {:induction false} CharMentionsOutcome(tokens: seq<string>, cluster: seq<TokenSpan>, c: nat, charStarts: map<nat, nat>)
    ensures var r := CharMentions(tokens, cluster, c, charStarts);
      && (r.Ok? <==> StartsKnown(cluster, charStarts))
      && (r.Err? ==> r.error == KeyError)
      && (r.Ok? ==> |r.value| == |cluster|)
  {
    if cluster != [] {
      CharMentionsOutcome(tokens, cluster[..|cluster| - 1], c, charStarts);
      StartsKnownSnoc(cluster, charStarts);
    }
  }

  lemma {:induction false} CharMentionsAt(tokens: seq<string>, cluster: seq<TokenSpan>, c: nat, charStarts: map<nat, nat>, k: nat)
    requires CharMentions(tokens, cluster, c, charStarts).Ok? && k < |cluster|
    ensures var r := CharMentions(tokens, cluster, c, charStarts);
      k < |r.value| && cluster[k].start in charStarts && r.value[k] == MentionRecord(tokens, cluster[k], c, k, charStarts[cluster[k].start])
  {
    var j := |cluster| - 1;
    var init := cluster[..j];
    CharMentionsLast(tokens, cluster, c, charStarts);
    CharMentionsOutcome(tokens, init, c, charStarts);
    if k < j {
      CharMentionsAt(tokens, init, c, charStarts, k);
      assert init[k] == cluster[k];
    }
  }

  /** A successful list is the list of the shorter cluster plus the last span's record. */
  lemma CharMentionsLast(tokens: seq<string>, cluster: seq<TokenSpan>, c: nat, charStarts: map<nat, nat>)
    requires cluster != [] && CharMentions(tokens, cluster, c, charStarts).Ok?
    ensures var j := |cluster| - 1;
      var r0 := CharMentions(tokens, cluster[..j], c, charStarts);
      && r0.Ok? && cluster[j].start in charStarts
      && CharMentions(tokens, cluster, c, charStarts).value == r0.value + [MentionRecord(tokens, cluster[j], c, j, charStarts[cluster[j].start])]
  {
  }

  /** The keys are the numbers of the non-empty clusters, in order, and each maps to that cluster's records. */
  lemma CharClustersShape(tokens: seq<string>, clusters: seq<seq<TokenSpan>>, charStarts: map<nat, nat>)
    ensures var r := CharClusters(tokens, clusters, charStarts);
      && (r.Ok? <==> forall c :: 0 <= c < |clusters| ==> StartsKnown(clusters[c], charStarts))
      && (r.Ok? ==>
            && r.value.Valid()
            && r.value.keys == NonEmptyIndices(clusters)
            && forall c :: c in r.value.entries ==> c < |clusters| && CharMentions(tokens, clusters[c], c, charStarts) == Ok(r.value.entries[c]))
  {
    CharClustersOutcome(tokens, clusters, charStarts);
    if CharClusters(tokens, clusters, charStarts).Ok? {
      CharClustersDict(tokens, clusters, charStarts);
    }
  }

  predicate ClustersKnown(clusters: seq<seq<TokenSpan>>, charStarts: map<nat, nat>)
  {
    forall c :: 0 <= c < |clusters| ==> StartsKnown(clusters[c], charStarts)
  }

  lemma ClustersKnownSnoc(clusters: seq<seq<TokenSpan>>, charStarts: map<nat, nat>)
    requires clusters != []
    ensures ClustersKnown(clusters, charStarts)
      <==> ClustersKnown(clusters[..|clusters| - 1], charStarts) && StartsKnown(clusters[|clusters| - 1], charStarts)
  {
    var init := clusters[..|clusters| - 1];
    assert forall k :: 0 <= k < |init| ==> init[k] == clusters[k];
  }

  lemma {:induction false} CharClustersOutcome(tokens: seq<string>, clusters: seq<seq<TokenSpan>>, charStarts: map<nat, nat>)
    ensures CharClusters(tokens, clusters, charStarts).Ok? <==> ClustersKnown(clusters, charStarts)
  {
    if clusters != [] {
      var c := |clusters| - 1;
      CharClustersOutcome(tokens, clusters[..c], charStarts);
      CharMentionsOutcome(tokens, clusters[c], c, charStarts);
      ClustersKnownSnoc(clusters, charStarts);
    }
  }

  lemma {:induction false} CharClustersDict(tokens: seq<string>, clusters: seq<seq<TokenSpan>>, charStarts: map<nat, nat>)
    requires CharClusters(tokens, clusters, charStarts).Ok?
    ensures var d := CharClusters(tokens, clusters, charStarts).value;
      && d.Valid()
      && d.keys == NonEmptyIndices(clusters)
      && forall c :: c in d.entries ==> c < |clusters| && CharMentions(tokens, clusters[c], c, charStarts) == Ok(d.entries[c])
  {
    if clusters != [] {
      var c := |clusters| - 1;
      var init := clusters[..c];
      CharClustersDict(tokens, init, charStarts);
      CharMentionsOutcome(tokens, clusters[c], c, charStarts);
      var d0 := CharClusters(tokens, init, charStarts).value;
      assert c !in d0.entries;
      assert forall k :: 0 <= k < c ==> init[k] == clusters[k];
    }
  }

  /** Positions of the non-empty clusters, in order. */
  function NonEmptyIndices<T>(clusters: seq<seq<T>>): (r: seq<nat>)
    ensures forall k: nat :: k in r <==> k < |clusters| && clusters[k] != []
    ensures StrictlyIncreasing(r)
  {
    if clusters == [] then []
    else
      var c := |clusters| - 1;
      var r0 := NonEmptyIndices(clusters[..c]);
      assert forall k :: 0 <= k < |r0| ==> r0[k] < c by {
        forall k | 0 <= k < |r0| ensures r0[k] < c {
          assert r0[k] in r0;
        }
      }
      if clusters[c] == [] then r0 else r0 + [c]
  }

  // ---- english/utils_nlp_allen.py: mentions with token offsets, characters filled in afterwards ----

  datatype TokenMention = TokenMention(id: string, surfaceForm: string, locationStart: Option<nat>, locationEnd: Option<nat>, tokenStart: nat, tokenEnd: nat)

  /** The records of one cluster as the second front end's `allennlp_coref` makes them, locations unset. */
  function TokenMentions(tokens: seq<string>, cluster: seq<TokenSpan>, c: nat): (ms: seq<TokenMention>)
    ensures |ms| == |cluster|
    ensures forall j :: 0 <= j < |cluster| ==>
      ms[j] == TokenMention(MentionId(c, j), SpanText(tokens, cluster[j]), None, None, cluster[j].start, cluster[j].end + 1)
  {
    seq(|cluster|, j requires 0 <= j < |cluster| =>
      TokenMention(MentionId(c, j), SpanText(tokens, cluster[j]), None, None, cluster[j].start, cluster[j].end + 1))
  }

  function TokenClusters(tokens: seq<string>, clusters: seq<seq<TokenSpan>>): (d: Dict<nat, seq<TokenMention>>)
    ensures d.Valid() && d.keys == NonEmptyIndices(clusters)
    ensures forall c :: c in d.entries ==> c < |clusters| && d.entries[c] == TokenMentions(tokens, clusters[c], c)
  {
    if clusters == [] then Empty()
    else
      var c := |clusters| - 1;
      var d := TokenClusters(tokens, clusters[..c]);
      assert c !in d.entries;
      if clusters[c] == [] then d else d.Put(c, TokenMentions(tokens, clusters[c], c))
  }

  /** A pre-tokenised token of the document (`token_objects`). */
  datatype TokenObject = TokenObject(text: string, lemmaForm: string, startChar: nat, endChar: nat, sentId: int)

  /**
   * One mention's two assignments. `locationStart` is written before the
   * end lookup can fail, so a failing end leaves the start filled. The end
   * index `tokenEnd - 1` follows Python indexing, so `-1` is the last
   * record. The flag says whether both lookups succeeded.
   */
  function FillOne(m: TokenMention, tokenObjects: seq<TokenObject>): (TokenMention, bool)
  {
    if m.tokenStart >= |tokenObjects| then (m, false)
    else
      var m1 := m.(locationStart := Some(tokenObjects[m.tokenStart].startChar));
      match PyIndex(tokenObjects, m.tokenEnd - 1)
      case None => (m1, false)
      case Some(last) => (m1.(locationEnd := Some(last.endChar)), true)
  }

  /** The mentions from `j` on, stopping at the first failure; the flag says whether the list was finished. */
  function FillList(ms: seq<TokenMention>, tokenObjects: seq<TokenObject>, j: nat): (seq<TokenMention>, bool)
    decreases |ms| - j
  {
    if j >= |ms| then (ms, true)
    else
      var (m, ok) := FillOne(ms[j], tokenObjects);
      if ok then FillList(ms[j := m], tokenObjects, j + 1) else (ms[j := m], false)
  }

  /** The clusters from key position `c` on, stopping for good at the first failure. */
  function FillKeys(d: Dict<nat, seq<TokenMention>>, tokenObjects: seq<TokenObject>, c: nat): Dict<nat, seq<TokenMention>>
    requires d.Valid()
    decreases |d.keys| - c
  {
    if c >= |d.keys| then d
    else
      var key := d.keys[c];
      var (ms, ok) := FillList(d.entries[key], tokenObjects, 0);
      if ok then FillKeys(d.Put(key, ms), tokenObjects, c + 1) else d.Put(key, ms)
  }

  /** The whole `try` block: with unequal token counts the assertion fails before anything is filled. */
  function FillAll(d: Dict<nat, seq<TokenMention>>, resolverTokens: nat, tokenObjects: seq<TokenObject>): Dict<nat, seq<TokenMention>>
    requires d.Valid()
  {
    if resolverTokens != |tokenObjects| then d else FillKeys(d, tokenObjects, 0)
  }

  /**
   * The offset fill of `add_json_coref_allennlp`. The bare `except`
   * swallows the failed assertion or index error, so the result is the
   * dictionary as far as it was filled.
   */
  method FillLocations(d: Dict<nat, seq<TokenMention>>, resolverTokens: nat, tokenObjects: seq<TokenObject>)
    returns (filled: Dict<nat, seq<TokenMention>>)
    requires d.Valid()
    ensures filled == FillAll(d, resolverTokens, tokenObjects)
  {
    filled := d;
    if resolverTokens != |tokenObjects| {
      return;
    }
    var c := 0;
    while c < |d.keys|
      invariant c <= |d.keys|
      invariant filled.Valid() && filled.keys == d.keys
      invariant FillKeys(filled, tokenObjects, c) == FillAll(d, resolverTokens, tokenObjects)
    {
      var key := filled.keys[c];
      var ms, ok := FillMentions(filled.entries[key], tokenObjects);
      filled := filled.Put(key, ms);
      if !ok {
        return;
      }
      c := c + 1;
    }
  }

  /** The inner loop over one cluster's mentions, stopping at the first failed lookup. */
  method FillMentions(mentions: seq<TokenMention>, tokenObjects: seq<TokenObject>) returns (ms: seq<TokenMention>, ok: bool)
    ensures (ms, ok) == FillList(mentions, tokenObjects, 0)
  {
    ms := mentions;
    var j := 0;
    while j < |ms|
      invariant j <= |ms| == |mentions|
      invariant FillList(ms, tokenObjects, j) == FillList(mentions, tokenObjects, 0)
    {
      var m := ms[j];
      if m.tokenStart >= |tokenObjects| {
        assert ms[j := m] == ms;
        return ms, false;
      }
      m := m.(locationStart := Some(tokenObjects[m.tokenStart].startChar));
      var last := PyIndex(tokenObjects, m.tokenEnd - 1);
      if last.None? {
        return ms[j := m], false;
      }
      m := m.(locationEnd := Some(last.value.endChar));
      ms := ms[j := m];
      j := j + 1;
    }
    ok := true;
  }

  /** Filling changes only the two location fields, never the keys or the number of records. */
  lemma {:induction false} FillListKeeps(ms: seq<TokenMention>, tokenObjects: seq<TokenObject>, j: nat)
    ensures var (ms', _) := FillList(ms, tokenObjects, j);
      |ms'| == |ms| && forall k :: 0 <= k < |ms| ==> SameMention(ms'[k], ms[k])
    decreases |ms| - j
  {
    if j < |ms| {
      var (m, ok) := FillOne(ms[j], tokenObjects);
      if ok {
        FillListKeeps(ms[j := m], tokenObjects, j + 1);
      }
    }
  }

  /** Same mention up to its character offsets. */
  predicate SameMention(a: TokenMention, b: TokenMention)
  {
    a.id == b.id && a.surfaceForm == b.surfaceForm && a.tokenStart == b.tokenStart && a.tokenEnd == b.tokenEnd
  }

  /** A mention whose token span lies inside the token records. */
  predicate InRange(m: TokenMention, tokenObjects: seq<TokenObject>)
  {
    m.tokenStart < |tokenObjects| && 0 < m.tokenEnd <= |tokenObjects|
  }

  predicate Located(m: TokenMention, tokenObjects: seq<TokenObject>)
    requires InRange(m, tokenObjects)
  {
    m.locationStart == Some(tokenObjects[m.tokenStart].startChar) && m.locationEnd == Some(tokenObjects[m.tokenEnd - 1].endChar)
  }

  lemma {:induction false} FillListCompletes(ms: seq<TokenMention>, tokenObjects: seq<TokenObject>, j: nat)
    requires forall k :: 0 <= k < |ms| ==> InRange(ms[k], tokenObjects)
    requires forall k :: 0 <= k < j && k < |ms| ==> Located(ms[k], tokenObjects)
    ensures var (ms', ok) := FillList(ms, tokenObjects, j);
      ok && |ms'| == |ms| && forall k :: 0 <= k < |ms| ==> SameMention(ms'[k], ms[k]) && InRange(ms'[k], tokenObjects) && Located(ms'[k], tokenObjects)
    decreases |ms| - j
  {
    if j < |ms| {
      var (m, ok) := FillOne(ms[j], tokenObjects);
      FillListCompletes(ms[j := m], tokenObjects, j + 1);
    }
  }

  ghost predicate AllInRange(d: Dict<nat, seq<TokenMention>>, tokenObjects: seq<TokenObject>)
  {
    forall key, k :: key in d.entries && 0 <= k < |d.entries[key]| ==> InRange(d.entries[key][k], tokenObjects)
  }

  /**
   * With equal token counts and every span inside the token records, every
   * mention gets the first token's start and the last token's end. With
   * unequal counts nothing is filled at all.
   */
  lemma FillAllLocates(d: Dict<nat, seq<TokenMention>>, resolverTokens: nat, tokenObjects: seq<TokenObject>)
    requires d.Valid()
    ensures resolverTokens != |tokenObjects| ==> FillAll(d, resolverTokens, tokenObjects) == d
    ensures resolverTokens == |tokenObjects| && AllInRange(d, tokenObjects) ==>
      var f := FillAll(d, resolverTokens, tokenObjects);
      && f.keys == d.keys
      && (forall key :: key in f.entries <==> key in d.entries)
      && forall key, k :: key in d.entries && 0 <= k < |d.entries[key]| ==>
           |f.entries[key]| == |d.entries[key]| && SameMention(f.entries[key][k], d.entries[key][k])
           && Located(f.entries[key][k], tokenObjects)
  {
    if resolverTokens == |tokenObjects| && AllInRange(d, tokenObjects) {
      FillKeysComplete(d, tokenObjects, 0);
      var f := FillAll(d, resolverTokens, tokenObjects);
      forall key | key in d.entries
        ensures |f.entries[key]| == |d.entries[key]|
        ensures forall k :: 0 <= k < |d.entries[key]| ==> SameMention(f.entries[key][k], d.entries[key][k]) && Located(f.entries[key][k], tokenObjects)
      {
        var b := FirstIndex(d.keys, key);
        FillListCompletes(d.entries[key], tokenObjects, 0);
      }
    }
  }

  /** With every span in range, each cluster from position `c` on ends up fully filled and earlier ones stay as they are. */
  lemma FillKeysComplete(d: Dict<nat, seq<TokenMention>>, tokenObjects: seq<TokenObject>, c: nat)
    requires d.Valid() && c <= |d.keys| && AllInRange(d, tokenObjects)
    ensures var f := FillKeys(d, tokenObjects, c);
      && f.keys == d.keys
      && (forall key :: key in f.entries <==> key in d.entries)
      && (forall b :: c <= b < |d.keys| ==> f.entries[d.keys[b]] == FillList(d.entries[d.keys[b]], tokenObjects, 0).0)
      && (forall b :: 0 <= b < c ==> f.entries[d.keys[b]] == d.entries[d.keys[b]])
  {
    FillKeysKeys(d, tokenObjects, c);
    forall b | 0 <= b < |d.keys|
      ensures FillKeys(d, tokenObjects, c).entries[d.keys[b]]
        == if b < c then d.entries[d.keys[b]] else FillList(d.entries[d.keys[b]], tokenObjects, 0).0
    {
      FillKeysAt(d, tokenObjects, c, b);
    }
  }

  /** Filling never adds or removes a key. */
  lemma {:induction false} FillKeysKeys(d: Dict<nat, seq<TokenMention>>, tokenObjects: seq<TokenObject>, c: nat)
    requires d.Valid()
    ensures var f := FillKeys(d, tokenObjects, c);
      f.Valid() && f.keys == d.keys && forall key :: key in f.entries <==> key in d.entries
    decreases |d.keys| - c
  {
    if c < |d.keys| {
      var key := d.keys[c];
      FillKeysKeys(d.Put(key, FillList(d.entries[key], tokenObjects, 0).0), tokenObjects, c + 1);
    }
  }

  lemma {:induction false} FillKeysAt(d: Dict<nat, seq<TokenMention>>, tokenObjects: seq<TokenObject>, c: nat, b: nat)
    requires d.Valid() && c <= |d.keys| && AllInRange(d, tokenObjects) && b < |d.keys|
    ensures d.keys[b] in FillKeys(d, tokenObjects, c).entries
    ensures FillKeys(d, tokenObjects, c).entries[d.keys[b]]
      == if b < c then d.entries[d.keys[b]] else FillList(d.entries[d.keys[b]], tokenObjects, 0).0
    decreases |d.keys| - c
  {
    FillKeysKeys(d, tokenObjects, c);
    if c < |d.keys| {
      var key := d.keys[c];
      var d' := d.Put(key, FillList(d.entries[key], tokenObjects, 0).0);
      FillPutInRange(d, key, tokenObjects);
      assert b != c ==> d.keys[b] != key;
      FillKeysAt(d', tokenObjects, c + 1, b);
    }
  }

  /** A completely filled cluster keeps every mention in range. */
  lemma FillPutInRange(d: Dict<nat, seq<TokenMention>>, key: nat, tokenObjects: seq<TokenObject>)
    requires d.Valid() && key in d.entries && AllInRange(d, tokenObjects)
    ensures var (ms, ok) := FillList(d.entries[key], tokenObjects, 0);
      ok && AllInRange(d.Put(key, ms), tokenObjects)
  {
    FillListCompletes(d.entries[key], tokenObjects, 0);
  }
}
