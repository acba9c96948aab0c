/**
 * The Dutch coreference layer: the CoNLL token list of the coreference
 * tool, the projection of its mention table onto the pipeline's own
 * tokens through the alignment, and the person/location filter that turns
 * the clusters into the JSON layer.
 */

module CorefLayer {
  import opened Common
  import opened PyDict
  import opened CorefAlign

  // ---- read_conll_coref ----

  /** One token of the CoNLL file: sentence number, id within the sentence, running document index, text. */
  datatype ConllToken = ConllToken(sentId: nat, tokenSentId: int, tokenDocId: nat, text: string)

  datatype ConllState = ConllState(tokens: seq<ConllToken>, sentIx: nat, docTokIx: nat)

  /** A line that is neither a comment nor blank holds a token. */
  predicate TokenLine(line: string)
  {
    !StartsWith(line, "#") && |SplitWs(line)| > 0
  }

  predicate BlankLine(line: string)
  {
    !StartsWith(line, "#") && |SplitWs(line)| == 0
  }

  /**
   * One line: comments are skipped, a blank line starts the next sentence,
   * and any other line must have a fourth field (IndexError) before its
   * third is read as the sentence-level id (ValueError).
   */
  function ConllStep(st: ConllState, line: string): Result<ConllState>
  {
    var row := SplitWs(line);
    if StartsWith(line, "#") then Ok(st)
    else if |row| == 0 then Ok(st.(sentIx := st.sentIx + 1))
    else if |row| < 4 then Err(IndexError)
    else
      match ParseInt(row[2])
      case Err(e) => Err(e)
      case Ok(id) => Ok(ConllState(st.tokens + [ConllToken(st.sentIx, id, st.docTokIx, row[3])], st.sentIx, st.docTokIx + 1))
  }

  function ConllRun(lines: seq<string>): Result<ConllState>
  {
    if lines == [] then Ok(ConllState([], 0, 0))
    else
      match ConllRun(lines[..|lines| - 1])
      case Err(e) => Err(e)
      case Ok(st) => ConllStep(st, lines[|lines| - 1])
  }

  function ReadConll(lines: seq<string>): Result<seq<ConllToken>>
  {
    match ConllRun(lines)
    case Err(e) => Err(e)
    case Ok(st) => Ok(st.tokens)
  }

  lemma {:induction false} ConllErrStays(lines: seq<string>, n: nat)
    requires n <= |lines| && ConllRun(lines[..n]).Err?
    ensures ConllRun(lines) == ConllRun(lines[..n])
    decreases |lines| - n
  {
    if n < |lines| {
      assert lines[..n + 1][..n] == lines[..n];
      ConllErrStays(lines, n + 1);
    } else {
      assert lines[..n] == lines;
    }
  }

  /** `read_conll_coref` over the lines of the file. */
  method ReadConllCoref(lines: seq<string>) returns (r: Result<seq<ConllToken>>)
    ensures r == ReadConll(lines)
  {
    var tokens: seq<ConllToken> := [];
    var sentIx, docTokIx := 0, 0;
    var n := 0;
    while n < |lines|
      invariant n <= |lines|
      invariant ConllRun(lines[..n]) == Ok(ConllState(tokens, sentIx, docTokIx))
    {
      assert lines[..n + 1][..n] == lines[..n];
      var line := lines[n];
      var row := SplitWs(line);
      if StartsWith(line, "#") {
      } else if |row| == 0 {
        sentIx := sentIx + 1;
      } else {
        if |row| < 4 {
          ConllErrStays(lines, n + 1);
          return Err(IndexError);
        }
        var tokText := row[3];
        var tokId := ParseInt(row[2]);
        if tokId.Err? {
          ConllErrStays(lines, n + 1);
          return Err(tokId.error);
        }
        tokens := tokens + [ConllToken(sentIx, tokId.value, docTokIx, tokText)];
        docTokIx := docTokIx + 1;
      }
      n := n + 1;
    }
    assert lines[..n] == lines;
    r := Ok(tokens);
  }

  /** The token lines of a file, in order. */
  function TokenLines(lines: seq<string>): seq<string>
  {
    if lines == [] then []
    else TokenLines(lines[..|lines| - 1]) + (if TokenLine(lines[|lines| - 1]) then [lines[|lines| - 1]] else [])
  }

  function BlankCount(lines: seq<string>): nat
  {
    if lines == [] then 0
    else BlankCount(lines[..|lines| - 1]) + (if BlankLine(lines[|lines| - 1]) then 1 else 0)
  }

  /** Each token's `token_doc_id` is its position. */
  ghost predicate Positioned(tokens: seq<ConllToken>)
  {
    forall i :: 0 <= i < |tokens| ==> tokens[i].tokenDocId == i
  }

  /** Each token's text is the fourth field of its token line. */
  ghost predicate TextsFrom(tokens: seq<ConllToken>, tl: seq<string>)
  {
    |tokens| == |tl| && forall i :: 0 <= i < |tokens| ==> (|SplitWs(tl[i])| >= 4 && tokens[i].text == SplitWs(tl[i])[3])
  }

  /** Sentence numbers never decrease and never pass the current one. */
  ghost predicate SentencesOrdered(tokens: seq<ConllToken>, sentIx: nat)
  {
    forall i, j :: 0 <= i <= j < |tokens| ==> tokens[i].sentId <= tokens[j].sentId <= sentIx
  }

  /** The tokens so far: one per token line, numbered by position, sentence numbers counting blank lines. */
  ghost predicate ConllRead(lines: seq<string>, st: ConllState)
  {
    && st.docTokIx == |st.tokens|
    && st.sentIx == BlankCount(lines)
    && Positioned(st.tokens)
    && TextsFrom(st.tokens, TokenLines(lines))
    && SentencesOrdered(st.tokens, st.sentIx)
  }

  lemma TextsSnoc(tokens: seq<ConllToken>, tl: seq<string>, t: ConllToken, line: string)
    requires TextsFrom(tokens, tl) && |SplitWs(line)| >= 4 && t.text == SplitWs(line)[3]
    ensures TextsFrom(tokens + [t], tl + [line])
  {
    var tokens', tl' := tokens + [t], tl + [line];
    forall i | 0 <= i < |tokens'| ensures |SplitWs(tl'[i])| >= 4 && tokens'[i].text == SplitWs(tl'[i])[3] {
      if i < |tokens| {
        assert tokens'[i] == tokens[i] && tl'[i] == tl[i];
      }
    }
  }

  lemma PositionedSnoc(tokens: seq<ConllToken>, t: ConllToken)
    requires Positioned(tokens) && t.tokenDocId == |tokens|
    ensures Positioned(tokens + [t])
  {
    var tokens' := tokens + [t];
    forall i | 0 <= i < |tokens'| ensures tokens'[i].tokenDocId == i {
      if i < |tokens| {
        assert tokens'[i] == tokens[i];
      }
    }
  }

  lemma OrderedSnoc(tokens: seq<ConllToken>, sentIx: nat, t: ConllToken)
    requires SentencesOrdered(tokens, sentIx) && t.sentId == sentIx
    ensures SentencesOrdered(tokens + [t], sentIx)
  {
    var tokens' := tokens + [t];
    forall i, j | 0 <= i <= j < |tokens'| ensures tokens'[i].sentId <= tokens'[j].sentId <= sentIx {
      if j < |tokens| {
        assert tokens'[i] == tokens[i] && tokens'[j] == tokens[j];
      } else if i < |tokens| {
        assert tokens'[i] == tokens[i];
      }
    }
  }

  lemma ConllStepRead(lines: seq<string>, st: ConllState, line: string)
    requires ConllRead(lines, st) && ConllStep(st, line).Ok?
    ensures ConllRead(lines + [line], ConllStep(st, line).value)
  {
    var lines' := lines + [line];
    assert lines'[..|lines|] == lines;
    var st' := ConllStep(st, line).value;
    if TokenLine(line) {
      var row := SplitWs(line);
      var t := ConllToken(st.sentIx, ParseInt(row[2]).value, st.docTokIx, row[3]);
      assert st' == ConllState(st.tokens + [t], st.sentIx, st.docTokIx + 1);
      assert TokenLines(lines') == TokenLines(lines) + [line];
      assert BlankCount(lines') == BlankCount(lines);
      TextsSnoc(st.tokens, TokenLines(lines), t, line);
      PositionedSnoc(st.tokens, t);
      OrderedSnoc(st.tokens, st.sentIx, t);
    } else {
      assert TokenLines(lines') == TokenLines(lines);
      assert st'.tokens == st.tokens;
    }
  }

  /**
   * A successful read yields one token per token line, in order: its text
   * is the line's fourth field, `token_doc_id` is its position, and
   * `sent_id` counts the blank lines before it, so it never decreases.
   */
  lemma {:induction false} ReadConllSpec(lines: seq<string>)
    requires ConllRun(lines).Ok?
    ensures ConllRead(lines, ConllRun(lines).value)
  {
    if lines != [] {
      var pre := lines[..|lines| - 1];
      assert lines == pre + [lines[|lines| - 1]];
      ReadConllSpec(pre);
      ConllStepRead(pre, ConllRun(pre).value, lines[|lines| - 1]);
    }
  }

  // ---- get_coref_clusters ----

  /** A row of the mention table; every field is text. */
  datatype MentionRow = MentionRow(cluster: string, start: string, end: string, text: string, human: string,
                                   mentionType: string, neclass: string, gender: string, number: string)

  /** A token of the pipeline's own tokenisation with its character offsets. */
  datatype JsonToken = JsonToken(text: string, startChar: int, endChar: int)

  /** A mention projected onto the pipeline's tokens. */
  datatype CorefMention = CorefMention(text: string, tokenStart: int, tokenEnd: int, charStart: int, charEnd: int,
                                       mentionType: string, entityType: string, isHuman: bool, gender: string, number: string)

  function ConllTexts(conll: seq<ConllToken>): (ts: seq<string>)
    ensures |ts| == |conll| && forall i :: 0 <= i < |conll| ==> ts[i] == conll[i].text
  {
    seq(|conll|, i requires 0 <= i < |conll| => conll[i].text)
  }

  function JsonTexts(tokens: seq<JsonToken>): (ts: seq<string>)
    ensures |ts| == |tokens| && forall i :: 0 <= i < |tokens| ==> ts[i] == tokens[i].text
  {
    seq(|tokens|, i requires 0 <= i < |tokens| => tokens[i].text)
  }

  /** `conll2json.get(i)` */
  function Lookup(m: map<nat, nat>, i: int): (r: Option<int>)
    ensures r.Some? <==> i >= 0 && i in m
  {
    if i >= 0 && i in m then Some(m[i] as int) else None
  }

  /** The truth value of an index or `None`: index 0 is false. */
  predicate Mapped(o: Option<int>)
  {
    o.Some? && o.value != 0
  }

  /**
   * The token range of a mention in the pipeline's tokens: both mapped
   * ends, or one mapped end with the raw CoNLL index standing in for the
   * other; `None` drops the mention.
   */
  function Endpoints(m: map<nat, nat>, ts: int, te: int): (r: Option<(int, int)>)
    ensures r.None? <==> !Mapped(Lookup(m, ts)) && !Mapped(Lookup(m, te))
    ensures r.Some? ==> r.value.0 == (if Mapped(Lookup(m, ts)) then m[ts] else ts)
    ensures r.Some? ==> r.value.1 == (if Mapped(Lookup(m, te)) then m[te] else te)
  {
    var s, e := Lookup(m, ts), Lookup(m, te);
    if Mapped(s) && Mapped(e) then Some((s.value, e.value))
    else if Mapped(s) && !Mapped(e) then Some((s.value, te))
    else if Mapped(e) && !Mapped(s) then Some((ts, e.value))
    else None
  }

  /** The parsed numbers of a row: cluster id, 0-based start, exclusive end. */
  datatype RowSpan = RowSpan(cid: int, ts: int, te: int)

  /** `int(cluster)`, `int(start) - 1`, `int(end)`, in that order (ValueError). */
  function ParseRow(row: MentionRow): (r: Result<RowSpan>)
    ensures r.Ok? <==> ParseInt(row.cluster).Ok? && ParseInt(row.start).Ok? && ParseInt(row.end).Ok?
    ensures r.Ok? ==> r.value == RowSpan(ParseInt(row.cluster).value, ParseInt(row.start).value - 1, ParseInt(row.end).value)
    ensures r.Err? ==> r.error == ValueError
  {
    match ParseInt(row.cluster)
    case Err(e) => Err(e)
    case Ok(cid) =>
      match ParseInt(row.start)
      case Err(e) => Err(e)
      case Ok(start) =>
        match ParseInt(row.end)
        case Err(e) => Err(e)
        case Ok(te) => Ok(RowSpan(cid, start - 1, te))
  }

  /**
   * The mention once its range `[s, e)` in the pipeline's tokens is known:
   * the character offsets of its first and last token are read
   * (IndexError) before the CoNLL text is compared with the row's text
   * (AssertionError).
   */
  function Project(conll: seq<ConllToken>, row: MentionRow, tokens: seq<JsonToken>, sp: RowSpan, s: int, e: int): (r: Result<CorefMention>)
    ensures r.Ok? <==> (PyIndex(tokens, s).Some? && PyIndex(tokens, e - 1).Some?
                        && Join(PySlice(ConllTexts(conll), sp.ts, sp.te), " ") == row.text)
    ensures r.Err? ==> r.error == (if PyIndex(tokens, s).Some? && PyIndex(tokens, e - 1).Some? then AssertionError else IndexError)
    ensures r.Ok? ==> r.value.tokenStart == s && r.value.tokenEnd == e
                      && r.value.charStart == PyIndex(tokens, s).value.startChar
                      && r.value.charEnd == PyIndex(tokens, e - 1).value.endChar
                      && r.value.text == Join(PySlice(JsonTexts(tokens), s, e), " ")
                      && r.value.isHuman == (row.human == "1") && r.value.entityType == row.neclass
  {
    match PyIndex(tokens, s)
    case None => Err(IndexError)
    case Some(first) =>
      match PyIndex(tokens, e - 1)
      case None => Err(IndexError)
      case Some(last) =>
        if Join(PySlice(ConllTexts(conll), sp.ts, sp.te), " ") != row.text then Err(AssertionError)
        else
          Ok(CorefMention(Join(PySlice(JsonTexts(tokens), s, e), " "), s, e, first.startChar, last.endChar,
                          row.mentionType, row.neclass, row.human == "1", row.gender, row.number))
  }

  /** One mention row: parsed, then dropped when neither end maps, else projected. */
  function MentionOf(conll: seq<ConllToken>, row: MentionRow, tokens: seq<JsonToken>, m: map<nat, nat>): Result<Option<(int, CorefMention)>>
  {
    match ParseRow(row)
    case Err(e) => Err(e)
    case Ok(sp) =>
      match Endpoints(m, sp.ts, sp.te)
      case None => Ok(None)
      case Some(ends) =>
        match Project(conll, row, tokens, sp, ends.0, ends.1)
        case Err(e) => Err(e)
        case Ok(men) => Ok(Some((sp.cid, men)))
  }

  /** `clusters[cluster_id].append(...)` on the defaultdict. */
  function AppendTo(d: Dict<int, seq<CorefMention>>, cid: int, men: CorefMention): Dict<int, seq<CorefMention>>
  {
    d.Put(cid, (if cid in d.entries then d.entries[cid] else []) + [men])
  }

  /** One row's effect on the clusters. */
  function ClusterStep(d: Dict<int, seq<CorefMention>>, men: Result<Option<(int, CorefMention)>>): Result<Dict<int, seq<CorefMention>>>
  {
    match men
    case Err(e) => Err(e)
    case Ok(None) => Ok(d)
    case Ok(Some(p)) => Ok(AppendTo(d, p.0, p.1))
  }

  function ClusterRun(conll: seq<ConllToken>, rows: seq<MentionRow>, tokens: seq<JsonToken>, m: map<nat, nat>): Result<Dict<int, seq<CorefMention>>>
  {
    if rows == [] then Ok(Empty())
    else
      match ClusterRun(conll, rows[..|rows| - 1], tokens, m)
      case Err(e) => Err(e)
      case Ok(d) => ClusterStep(d, MentionOf(conll, rows[|rows| - 1], tokens, m))
  }

  lemma {:induction false} ClusterErrStays(conll: seq<ConllToken>, rows: seq<MentionRow>, tokens: seq<JsonToken>, m: map<nat, nat>, n: nat)
    requires n <= |rows| && ClusterRun(conll, rows[..n], tokens, m).Err?
    ensures ClusterRun(conll, rows, tokens, m) == ClusterRun(conll, rows[..n], tokens, m)
    decreases |rows| - n
  {
    if n < |rows| {
      assert rows[..n + 1][..n] == rows[..n];
      ClusterErrStays(conll, rows, tokens, m, n + 1);
    } else {
      assert rows[..n] == rows;
    }
  }

  /** `get_coref_clusters` */
  method GetCorefClusters(conll: seq<ConllToken>, rows: seq<MentionRow>, tokens: seq<JsonToken>, m: map<nat, nat>)
    returns (r: Result<Dict<int, seq<CorefMention>>>)
    ensures r == ClusterRun(conll, rows, tokens, m)
  {
    var clusters: Dict<int, seq<CorefMention>> := Empty();
    var n := 0;
    while n < |rows|
      invariant n <= |rows|
      invariant ClusterRun(conll, rows[..n], tokens, m) == Ok(clusters)
    {
      assert rows[..n + 1][..n] == rows[..n];
      var men := MentionOf(conll, rows[n], tokens, m);
      assert ClusterRun(conll, rows[..n + 1], tokens, m) == ClusterStep(clusters, men);
      if men.Err? {
        ClusterErrStays(conll, rows, tokens, m, n + 1);
        return Err(men.error);
      }
      if men.value.Some? {
        var (cid, rec) := men.value.value;
        clusters := AppendTo(clusters, cid, rec);
      }
      n := n + 1;
    }
    assert rows[..n] == rows;
    r := Ok(clusters);
  }

  /** The mention a row contributes to cluster `cid`, if any. */
  function KeptOf(men: Result<Option<(int, CorefMention)>>, cid: int): seq<CorefMention>
  {
    if men.Ok? && men.value.Some? && men.value.value.0 == cid then [men.value.value.1] else []
  }

  /** The kept mentions of cluster `cid`, in row order. */
  function KeptIn(conll: seq<ConllToken>, rows: seq<MentionRow>, tokens: seq<JsonToken>, m: map<nat, nat>, cid: int): seq<CorefMention>
  {
    if rows == [] then []
    else KeptIn(conll, rows[..|rows| - 1], tokens, m, cid) + KeptOf(MentionOf(conll, rows[|rows| - 1], tokens, m), cid)
  }

  /** The clusters hold, for `cid`, exactly `kept`. */
  ghost predicate ClusterHolds(d: Dict<int, seq<CorefMention>>, cid: int, kept: seq<CorefMention>)
  {
    d.Valid() && (cid in d.entries <==> kept != []) && (cid in d.entries ==> d.entries[cid] == kept)
  }

  lemma ClusterStepHolds(d: Dict<int, seq<CorefMention>>, men: Result<Option<(int, CorefMention)>>, cid: int, kept: seq<CorefMention>)
    requires ClusterHolds(d, cid, kept) && ClusterStep(d, men).Ok?
    ensures ClusterHolds(ClusterStep(d, men).value, cid, kept + KeptOf(men, cid))
  {
    if men.value.Some? && men.value.value.0 != cid {
      assert KeptOf(men, cid) == [];
      assert kept + [] == kept;
    } else if men.value.None? {
      assert kept + [] == kept;
    }
  }

  /**
   * The clusters group the kept mentions by cluster number: each cluster
   * holds exactly the mentions of its rows that were not dropped, in row
   * order, and a cluster is present only when it holds one.
   */
  lemma {:induction false} ClusterRunSpec(conll: seq<ConllToken>, rows: seq<MentionRow>, tokens: seq<JsonToken>, m: map<nat, nat>, cid: int)
    requires ClusterRun(conll, rows, tokens, m).Ok?
    ensures ClusterHolds(ClusterRun(conll, rows, tokens, m).value, cid, KeptIn(conll, rows, tokens, m, cid))
  {
    if rows != [] {
      var pre := rows[..|rows| - 1];
      ClusterRunSpec(conll, pre, tokens, m, cid);
      ClusterStepHolds(ClusterRun(conll, pre, tokens, m).value, MentionOf(conll, rows[|rows| - 1], tokens, m), cid, KeptIn(conll, pre, tokens, m, cid));
    }
  }

  /**
   * What `get_coref_clusters` does with one row: a row whose numbers parse
   * is dropped exactly when neither end maps (index 0 counting as
   * unmapped); otherwise the mention joins its cluster with a range whose
   * unmapped end is the raw CoNLL index, or the row raises.
   */
  lemma MentionOfSpec(conll: seq<ConllToken>, row: MentionRow, tokens: seq<JsonToken>, m: map<nat, nat>)
    requires ParseRow(row).Ok?
    ensures var sp, r := ParseRow(row).value, MentionOf(conll, row, tokens, m);
      && (r == Ok(None) <==> !Mapped(Lookup(m, sp.ts)) && !Mapped(Lookup(m, sp.te)))
      && (r.Ok? && r.value.Some? ==>
            && r.value.value.0 == sp.cid
            && r.value.value.1.tokenStart == (if Mapped(Lookup(m, sp.ts)) then m[sp.ts] else sp.ts)
            && r.value.value.1.tokenEnd == (if Mapped(Lookup(m, sp.te)) then m[sp.te] else sp.te)
            && Join(PySlice(ConllTexts(conll), sp.ts, sp.te), " ") == row.text)
  {
  }

  /** Index 0 counts as unmapped: a mention whose start maps to token 0 and whose end does not map is dropped. */
  lemma ZeroIsUnmapped(conll: seq<ConllToken>, row: MentionRow, tokens: seq<JsonToken>, m: map<nat, nat>)
    requires ParseRow(row).Ok?
    requires var sp := ParseRow(row).value; sp.ts >= 0 && sp.ts in m && m[sp.ts] == 0 && !(sp.te >= 0 && sp.te in m)
    ensures MentionOf(conll, row, tokens, m) == Ok(None)
  {
  }

  // ---- the filter of jsonify_coref_output ----

  /** A mention of the coreference layer. */
  datatype CleanMention = CleanMention(clusterId: int, mentionId: nat, mentionType: string, category: string, surfaceForm: string,
                                       locationStart: int, locationEnd: int, tokenStart: int, tokenEnd: int, methodName: string)

  predicate IsPerson(men: CorefMention)
  {
    men.isHuman || men.entityType == "PER"
  }

  predicate IsLocation(men: CorefMention)
  {
    !IsPerson(men) && men.entityType == "LOC"
  }

  /** The person mentions, then the location mentions, of one cluster; all others are dropped. */
  function Relevant(ms: seq<CorefMention>): (r: seq<CorefMention>)
  {
    Persons(ms) + Locations(ms)
  }

  function Persons(ms: seq<CorefMention>): seq<CorefMention>
  {
    if ms == [] then [] else Persons(ms[..|ms| - 1]) + (if IsPerson(ms[|ms| - 1]) then [ms[|ms| - 1]] else [])
  }

  function Locations(ms: seq<CorefMention>): seq<CorefMention>
  {
    if ms == [] then [] else Locations(ms[..|ms| - 1]) + (if IsLocation(ms[|ms| - 1]) then [ms[|ms| - 1]] else [])
  }

  function CleanOf(cid: int, men: CorefMention, id: nat, model: string): CleanMention
  {
    CleanMention(cid, id, men.mentionType, men.entityType, men.text, men.charStart, men.charEnd, men.tokenStart, men.tokenEnd, model)
  }

  /** A cluster keeps exactly its person and location mentions. */
  lemma {:induction false} RelevantSpec(ms: seq<CorefMention>, x: CorefMention)
    ensures x in Relevant(ms) <==> x in ms && (IsPerson(x) || IsLocation(x))
    ensures x in Persons(ms) <==> x in ms && IsPerson(x)
    ensures x in Locations(ms) <==> x in ms && IsLocation(x)
  {
    if ms != [] {
      var pre := ms[..|ms| - 1];
      RelevantSpec(pre, x);
      assert ms == pre + [ms[|ms| - 1]];
    }
  }

  /** Appending the relevant mentions of one cluster, each numbered by the length of the list so far. */
  function EmitCluster(clean: seq<CleanMention>, cid: int, ms: seq<CorefMention>, model: string): seq<CleanMention>
  {
    if ms == [] then clean
    else
      var before := EmitCluster(clean, cid, ms[..|ms| - 1], model);
      before + [CleanOf(cid, ms[|ms| - 1], |before|, model)]
  }

  function CleanClusters(d: Dict<int, seq<CorefMention>>, model: string, n: nat): seq<CleanMention>
    requires d.Valid() && n <= |d.keys|
  {
    if n == 0 then []
    else EmitCluster(CleanClusters(d, model, n - 1), d.keys[n - 1], Relevant(d.entries[d.keys[n - 1]]), model)
  }

  /** The inner loop that splits one cluster into its person and location mentions. */
  method SplitCluster(ms: seq<CorefMention>) returns (personMentions: seq<CorefMention>, locationMentions: seq<CorefMention>)
    ensures personMentions == Persons(ms) && locationMentions == Locations(ms)
  {
    personMentions, locationMentions := [], [];
    var j := 0;
    while j < |ms|
      invariant j <= |ms|
      invariant personMentions == Persons(ms[..j]) && locationMentions == Locations(ms[..j])
    {
      assert ms[..j + 1][..j] == ms[..j];
      if ms[j].isHuman || ms[j].entityType == "PER" {
        personMentions := personMentions + [ms[j]];
      } else if ms[j].entityType == "LOC" {
        locationMentions := locationMentions + [ms[j]];
      }
      j := j + 1;
    }
    assert ms[..j] == ms;
  }

  /** The inner loop that appends one cluster's mentions, numbered by the list's length. */
  method EmitMentions(clean0: seq<CleanMention>, cid: int, allMentions: seq<CorefMention>, model: string) returns (clean: seq<CleanMention>)
    ensures clean == EmitCluster(clean0, cid, allMentions, model)
  {
    clean := clean0;
    var k := 0;
    while k < |allMentions|
      invariant k <= |allMentions|
      invariant clean == EmitCluster(clean0, cid, allMentions[..k], model)
    {
      assert allMentions[..k + 1][..k] == allMentions[..k];
      clean := clean + [CleanOf(cid, allMentions[k], |clean|, model)];
      k := k + 1;
    }
    assert allMentions[..k] == allMentions;
  }

  /** The filter loop over the clusters, in dict order. */
  method FilterClusters(d: Dict<int, seq<CorefMention>>, model: string) returns (clean: seq<CleanMention>)
    requires d.Valid()
    ensures clean == CleanClusters(d, model, |d.keys|)
  {
    clean := [];
    var n := 0;
    while n < |d.keys|
      invariant n <= |d.keys|
      invariant clean == CleanClusters(d, model, n)
    {
      var cid := d.keys[n];
      var personMentions, locationMentions := SplitCluster(d.entries[cid]);
      clean := EmitMentions(clean, cid, personMentions + locationMentions, model);
      n := n + 1;
    }
  }

  /** The relevant mentions of the first `n` clusters, each with its cluster number. */
  function KeptPairs(d: Dict<int, seq<CorefMention>>, n: nat): seq<(int, CorefMention)>
    requires d.Valid() && n <= |d.keys|
  {
    if n == 0 then []
    else
      var cid := d.keys[n - 1];
      KeptPairs(d, n - 1) + WithCluster(cid, Relevant(d.entries[cid]))
  }

  /** Each mention paired with the cluster number `cid`. */
  function WithCluster(cid: int, ms: seq<CorefMention>): (r: seq<(int, CorefMention)>)
    ensures |r| == |ms|
  {
    if ms == [] then [] else WithCluster(cid, ms[..|ms| - 1]) + [(cid, ms[|ms| - 1])]
  }

  lemma {:induction false} WithClusterAt(cid: int, ms: seq<CorefMention>, i: nat)
    requires i < |ms|
    ensures WithCluster(cid, ms)[i] == (cid, ms[i])
  {
    if i < |ms| - 1 {
      WithClusterAt(cid, ms[..|ms| - 1], i);
    }
  }

  lemma {:induction false} EmitClusterSpec(clean: seq<CleanMention>, cid: int, ms: seq<CorefMention>, model: string)
    ensures var out := EmitCluster(clean, cid, ms, model);
      |out| == |clean| + |ms| && out[..|clean|] == clean
      && forall i :: 0 <= i < |ms| ==> out[|clean| + i] == CleanOf(cid, ms[i], |clean| + i, model)
  {
    if ms != [] {
      var pre := ms[..|ms| - 1];
      EmitClusterSpec(clean, cid, pre, model);
      var before := EmitCluster(clean, cid, pre, model);
      var out := EmitCluster(clean, cid, ms, model);
      assert out == before + [CleanOf(cid, ms[|ms| - 1], |before|, model)];
      forall i | 0 <= i < |ms| ensures out[|clean| + i] == CleanOf(cid, ms[i], |clean| + i, model) {
        if i < |pre| {
          assert out[|clean| + i] == before[|clean| + i];
        }
      }
      assert out[..|clean|] == before[..|clean|];
    }
  }

  /**
   * The layer lists the relevant mentions of each cluster in dict order
   * (persons, then locations, others dropped), and each entry's
   * `mention_id` is its position in the list.
   */
  lemma {:induction false} CleanClustersSpec(d: Dict<int, seq<CorefMention>>, model: string, n: nat)
    requires d.Valid() && n <= |d.keys|
    ensures |CleanClusters(d, model, n)| == |KeptPairs(d, n)|
    ensures forall i :: 0 <= i < |KeptPairs(d, n)| ==>
      CleanClusters(d, model, n)[i] == CleanOf(KeptPairs(d, n)[i].0, KeptPairs(d, n)[i].1, i, model)
  {
    if n > 0 {
      var cid := d.keys[n - 1];
      var ms := Relevant(d.entries[cid]);
      CleanClustersSpec(d, model, n - 1);
      EmitClusterSpec(CleanClusters(d, model, n - 1), cid, ms, model);
      NumberedSnoc(CleanClusters(d, model, n - 1), KeptPairs(d, n - 1), CleanClusters(d, model, n), cid, ms, model);
    }
  }

  /** Appending one cluster keeps every entry numbered by its position, on plain values. */
  lemma NumberedSnoc(prev: seq<CleanMention>, kept: seq<(int, CorefMention)>, out: seq<CleanMention>,
                     cid: int, ms: seq<CorefMention>, model: string)
    requires |prev| == |kept| && forall i :: 0 <= i < |kept| ==> prev[i] == CleanOf(kept[i].0, kept[i].1, i, model)
    requires |out| == |prev| + |ms| && out[..|prev|] == prev
    requires forall i :: 0 <= i < |ms| ==> out[|prev| + i] == CleanOf(cid, ms[i], |prev| + i, model)
    ensures var kept' := kept + WithCluster(cid, ms);
      |out| == |kept'| && forall i :: 0 <= i < |kept'| ==> out[i] == CleanOf(kept'[i].0, kept'[i].1, i, model)
  {
    var kept' := kept + WithCluster(cid, ms);
    forall i | 0 <= i < |kept'| ensures out[i] == CleanOf(kept'[i].0, kept'[i].1, i, model) {
      if i < |prev| {
        assert out[i] == out[..|prev|][i] == prev[i];
        assert kept'[i] == kept[i];
      } else {
        WithClusterAt(cid, ms, i - |prev|);
        assert kept'[i] == (cid, ms[i - |prev|]);
        assert out[|prev| + (i - |prev|)] == CleanOf(cid, ms[i - |prev|], |prev| + (i - |prev|), model);
      }
    }
  }

  /** Every entry of the layer comes from a person or a location mention. */
  lemma KeptRelevant(d: Dict<int, seq<CorefMention>>, n: nat, i: nat)
    requires d.Valid() && n <= |d.keys| && i < |KeptPairs(d, n)|
    ensures IsPerson(KeptPairs(d, n)[i].1) || IsLocation(KeptPairs(d, n)[i].1)
    ensures KeptPairs(d, n)[i].0 in d.entries && KeptPairs(d, n)[i].1 in d.entries[KeptPairs(d, n)[i].0]
  {
    var prev := KeptPairs(d, n - 1);
    if i < |prev| {
      assert KeptPairs(d, n)[i] == prev[i];
      KeptRelevant(d, n - 1, i);
    } else {
      var ms := Relevant(d.entries[d.keys[n - 1]]);
      WithClusterAt(d.keys[n - 1], ms, i - |prev|);
      assert KeptPairs(d, n)[i] == (d.keys[n - 1], ms[i - |prev|]);
      assert ms[i - |prev|] in ms;
      RelevantSpec(d.entries[d.keys[n - 1]], ms[i - |prev|]);
    }
  }

  // ---- jsonify_coref_output ----

  /**
   * The alignment from CoNLL token indices to the pipeline's tokens: the
   * code's `align_token_sequences`, or, when `corrected`, the variant that
   * keeps repeated links (`CorefAlign.AlignCorrected`).
   */
  function ConllAlignment(conll: seq<ConllToken>, textTokens: seq<string>, corrected: bool): Result<map<nat, nat>>
  {
    if corrected then AlignCorrected(ConllTexts(conll), textTokens) else Align(ConllTexts(conll), textTokens)
  }

  /**
   * The coreference layer of one biography, from the coreference tool's
   * outputs: the CoNLL lines, the mention table, and the pipeline's tokens,
   * on the alignment `corrected` selects. The placeholder biography id
   * gets an empty layer.
   */
  function CorefLayerOn(bioId: string, model: string, rows: seq<MentionRow>, conllLines: seq<string>,
                        textTokens: seq<string>, tokenObjects: seq<JsonToken>, corrected: bool): Result<seq<CleanMention>>
  {
    if bioId == "99999999_99" then Ok([])
    else
      match ReadConll(conllLines)
      case Err(e) => Err(e)
      case Ok(conll) =>
        match ConllAlignment(conll, textTokens, corrected)
        case Err(e) => Err(e)
        case Ok(conll2json) =>
          match ClusterRun(conll, rows, tokenObjects, conll2json)
          case Err(e) => Err(e)
          case Ok(clusters) =>
            ClusterRunSpec(conll, rows, tokenObjects, conll2json, 0);
            Ok(CleanClusters(clusters, model, |clusters.keys|))
  }

  /** `jsonify_coref_output`, aligning with `align_token_sequences` as the code does. */
  function JsonifyCorefOutput(bioId: string, model: string, rows: seq<MentionRow>, conllLines: seq<string>,
                              textTokens: seq<string>, tokenObjects: seq<JsonToken>): Result<seq<CleanMention>>
  {
    CorefLayerOn(bioId, model, rows, conllLines, textTokens, tokenObjects, false)
  }

  /** The same layer on the corrected alignment. */
  function JsonifyCorefOutputCorrected(bioId: string, model: string, rows: seq<MentionRow>, conllLines: seq<string>,
                                       textTokens: seq<string>, tokenObjects: seq<JsonToken>): Result<seq<CleanMention>>
  {
    CorefLayerOn(bioId, model, rows, conllLines, textTokens, tokenObjects, true)
  }

  /**
   * The layer of a real biography numbers its mentions by position and
   * tags them with the model's name, on either alignment; the placeholder
   * id's layer is empty.
   */
  lemma JsonifySpec(bioId: string, model: string, rows: seq<MentionRow>, conllLines: seq<string>,
                    textTokens: seq<string>, tokenObjects: seq<JsonToken>, corrected: bool, i: nat)
    requires CorefLayerOn(bioId, model, rows, conllLines, textTokens, tokenObjects, corrected).Ok?
    requires i < |CorefLayerOn(bioId, model, rows, conllLines, textTokens, tokenObjects, corrected).value|
    ensures var out := CorefLayerOn(bioId, model, rows, conllLines, textTokens, tokenObjects, corrected).value;
      out[i].mentionId == i && out[i].methodName == model && bioId != "99999999_99"
  {
    var conll := ReadConll(conllLines).value;
    var conll2json := ConllAlignment(conll, textTokens, corrected).value;
    var clusters := ClusterRun(conll, rows, tokenObjects, conll2json).value;
    ClusterRunSpec(conll, rows, tokenObjects, conll2json, 0);
    CleanClustersSpec(clusters, model, |clusters.keys|);
  }
}
