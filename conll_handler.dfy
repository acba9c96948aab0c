/**
 * Reading the annotators' CoNLL export: sentences keyed by their joined
 * words, and the repair of labels sitting on punctuation.
 */
module ConllHandler {
  import opened Common
  import opened PyDict

  /** A (token, label) pair. */
  type Pair = (string, string)

  /** `ttoken in punctset`: a one-character string from `string.punctuation`. */
  predicate IsPunctToken(t: string)
  {
    |t| == 1 && IsPunct(t[0])
  }

  // ---- _search_contiguous_punct ----

  /** `f"I-{term[1].split('-')[1]}"`, which raises IndexError for a label without '-'. */
  function WantedLabel(name: string): (r: Result<string>)
    ensures r.Err? <==> '-' !in name
    ensures r.Ok? ==> StartsWith(r.value, "I-")
  {
    SplitHasSecond(name, '-');
    var parts := Split(name, '-');
    if |parts| < 2 then Err(IndexError)
    else
      var w := "I-" + parts[1];
      assert w[..2] == "I-";
      Ok(w)
  }

  /** The backward scan over the pairs already emitted, looking for '('. */
  function Contiguous(parts: seq<Pair>, wanted: string): bool
  {
    if parts == [] then false
    else
      var last := parts[|parts| - 1];
      if last.1 != wanted then false
      else if last.0 == "(" then true
      else Contiguous(parts[..|parts| - 1], wanted)
  }

  /** What `_search_contiguous_punct(term, parts)` returns. */
  function SearchContiguous(term: Pair, parts: seq<Pair>): Result<bool>
  {
    match WantedLabel(term.1)
    case Err(e) => Err(e)
    case Ok(w) => Ok(Contiguous(parts, w))
  }

  /** `_search_contiguous_punct(term, parts)` with the default search term '('. */
  method SearchContiguousPunct(term: Pair, parts: seq<Pair>) returns (r: Result<bool>)
    ensures r == SearchContiguous(term, parts)
  {
    var wanted := WantedLabel(term.1);
    if wanted.Err? {
      return Err(wanted.error);
    }
    var k := |parts|;
    assert parts[..k] == parts;
    while k > 0
      invariant k <= |parts|
      invariant Contiguous(parts, wanted.value) == Contiguous(parts[..k], wanted.value)
    {
      var part := parts[k - 1];
      assert parts[..k][..k - 1] == parts[..k - 1];
      if part.1 != wanted.value {
        return Ok(false);
      }
      if part.0 == "(" {
        return Ok(true);
      }
      k := k - 1;
    }
    r := Ok(false);
  }

  /**
   * The scan succeeds exactly when some '(' is followed, up to the end,
   * only by pairs carrying the wanted label, itself included.
   */
  lemma {:induction false} ContiguousIff(parts: seq<Pair>, wanted: string)
    ensures Contiguous(parts, wanted) <==>
      exists k :: 0 <= k < |parts| && parts[k].0 == "(" && forall j :: k <= j < |parts| ==> parts[j].1 == wanted
  {
    if parts != [] {
      var pre := parts[..|parts| - 1];
      var last := parts[|parts| - 1];
      ContiguousIff(pre, wanted);
      if Contiguous(parts, wanted) {
        if last.0 != "(" {
          var k :| 0 <= k < |pre| && pre[k].0 == "(" && forall j :: k <= j < |pre| ==> pre[j].1 == wanted;
          assert parts[k].0 == "(";
          assert forall j :: k <= j < |parts| ==> parts[j].1 == wanted by {
            forall j | k <= j < |parts| ensures parts[j].1 == wanted {
              if j < |pre| {
                assert parts[j] == pre[j];
              }
            }
          }
        } else {
          assert parts[|parts| - 1].0 == "(";
        }
      }
    }
  }

  // ---- _fix_conll_punctuation ----

  /** The emitted pairs and the label waiting to be moved to the next token (`next_label`). */
  datatype FixState = FixState(out: seq<Pair>, pending: string)

  /** The next token closes the entity: its label starts with O or B, or it is '.' or ','. */
  predicate NextCloses(p: seq<Pair>, i: nat)
    requires i + 1 < |p|
  {
    StartsWith(p[i + 1].1, "O") || StartsWith(p[i + 1].1, "B") || p[i + 1].0 == "." || p[i + 1].0 == ","
  }

  /** A ')' continuing a group opened by '(' keeps its label. */
  function ClosesGroup(p: seq<Pair>, i: nat, out: seq<Pair>): Result<bool>
    requires i < |p|
  {
    if p[i].0 == ")" then SearchContiguous(p[i], out) else Ok(false)
  }

  /** One iteration of the loop over `enumerate(sentence_parts)`. */
  function FixStep(st: FixState, p: seq<Pair>, i: nat): (r: Result<FixState>)
    requires i < |p|
    ensures r.Ok? ==> |r.value.out| == |st.out| + 1 && r.value.out[..|st.out|] == st.out && r.value.out[|st.out|].0 == p[i].0
    ensures r.Ok? && st.pending != "" ==> r.value.out[|st.out|] == (p[i].0, st.pending) && r.value.pending == ""
    ensures r.Ok? && st.pending == "" ==> r.value.out[|st.out|].1 == p[i].1 || r.value.out[|st.out|].1 == "O"
    ensures r.Ok? && r.value.pending != "" ==>
      r.value.pending == p[i].1 && r.value.out[|st.out|].1 == "O" && IsPunctToken(p[i].0) && (i == 0 || StartsWith(p[i].1, "B"))
  {
    var (tok, lab) := p[i];
    if st.pending != "" then Ok(FixState(st.out + [(tok, st.pending)], ""))
    else if IsPunctToken(tok) && lab != "O" then
      if i == 0 || StartsWith(lab, "B") then Ok(FixState(st.out + [(tok, "O")], lab))
      else
        match ClosesGroup(p, i, st.out)
        case Err(e) => Err(e)
        case Ok(keep) =>
          if keep then Ok(FixState(st.out + [p[i]], ""))
          else if i == |p| - 1 then Ok(FixState(st.out + [(tok, "O")], ""))
          else if NextCloses(p, i) then Ok(FixState(st.out + [(tok, "O")], ""))
          else Ok(FixState(st.out + [p[i]], ""))
    else Ok(FixState(st.out + [p[i]], ""))
  }

  /** The state after the first `n` pairs. */
  function FixRun(p: seq<Pair>, n: nat): (r: Result<FixState>)
    requires n <= |p|
    ensures r.Ok? ==> |r.value.out| == n
  {
    if n == 0 then Ok(FixState([], ""))
    else
      match FixRun(p, n - 1)
      case Err(e) => Err(e)
      case Ok(st) => FixStep(st, p, n - 1)
  }

  /** What `_fix_conll_punctuation(sentence_parts)` returns. */
  function FixPunctuation(p: seq<Pair>): (r: Result<seq<Pair>>)
    ensures r.Ok? ==> |r.value| == |p|
  {
    match FixRun(p, |p|)
    case Err(e) => Err(e)
    case Ok(st) => Ok(st.out)
  }

  lemma {:induction false} FixErrStays(p: seq<Pair>, n: nat)
    requires n <= |p| && FixRun(p, n).Err?
    ensures FixRun(p, |p|) == FixRun(p, n)
    decreases |p| - n
  {
    if n < |p| {
      FixErrStays(p, n + 1);
    }
  }

  /** `_fix_conll_punctuation(sentence_parts)`; the `print_diff` report is not modelled. */
  method FixConllPunctuation(p: seq<Pair>) returns (r: Result<seq<Pair>>)
    ensures r == FixPunctuation(p)
  {
    var newParts := [];
    var nextLabel := "";
    var indx := 0;
    while indx < |p|
      invariant indx <= |p|
      invariant FixRun(p, indx) == Ok(FixState(newParts, nextLabel))
    {
      var (ttoken, tlabel) := p[indx];
      if nextLabel != "" {
        newParts := newParts + [(ttoken, nextLabel)];
        nextLabel := "";
      } else if IsPunctToken(ttoken) && tlabel != "O" {
        if indx == 0 || StartsWith(tlabel, "B") {
          newParts := newParts + [(ttoken, "O")];
          nextLabel := tlabel;
        } else {
          var keep := Ok(false);
          if ttoken == ")" {
            keep := SearchContiguousPunct(p[indx], newParts);
          }
          if keep.Err? {
            FixErrStays(p, indx + 1);
            return Err(keep.error);
          }
          if keep.value {
            newParts := newParts + [p[indx]];
          } else if indx == |p| - 1 {
            newParts := newParts + [(ttoken, "O")];
          } else {
            var (nword, nlabel) := p[indx + 1];
            if StartsWith(nlabel, "O") || StartsWith(nlabel, "B") || nword == "." || nword == "," {
              newParts := newParts + [(ttoken, "O")];
            } else {
              newParts := newParts + [p[indx]];
            }
          }
        }
      } else {
        newParts := newParts + [p[indx]];
      }
      indx := indx + 1;
    }
    r := Ok(newParts);
  }

  /** The label waiting before pair `i` is handled. */
  function Pending(p: seq<Pair>, i: nat): string
    requires i <= |p| && FixRun(p, i).Ok?
  {
    FixRun(p, i).value.pending
  }

  /**
   * The shape of the state after `n` pairs: one pair per input pair with
   * the same token, each label its own, "O" or the previous pair's, and a
   * waiting label is always the label of a first-or-B punctuation pair
   * just set to "O".
   */
  predicate Shaped(st: FixState, p: seq<Pair>, n: nat)
    requires n <= |p|
  {
    && |st.out| == n
    && (forall i :: 0 <= i < n ==> st.out[i].0 == p[i].0)
    && (forall i {:trigger st.out[i]} :: 0 <= i < n ==> st.out[i].1 == p[i].1 || st.out[i].1 == "O" || (i > 0 && st.out[i].1 == p[i - 1].1))
    && (st.pending != "" ==> (n > 0 && st.pending == p[n - 1].1 && st.out[n - 1].1 == "O" && IsPunctToken(p[n - 1].0)
          && (n == 1 || StartsWith(p[n - 1].1, "B"))))
  }

  /** One step keeps the shape. */
  lemma FixStepShaped(prev: FixState, p: seq<Pair>, i: nat)
    requires i < |p| && Shaped(prev, p, i) && FixStep(prev, p, i).Ok?
    ensures Shaped(FixStep(prev, p, i).value, p, i + 1)
  {
    var st := FixStep(prev, p, i).value;
    forall j | 0 <= j < i + 1
      ensures st.out[j].0 == p[j].0
      ensures st.out[j].1 == p[j].1 || st.out[j].1 == "O" || (j > 0 && st.out[j].1 == p[j - 1].1)
    {
      if j < i {
        assert st.out[..i][j] == st.out[j];
        assert st.out[j] == prev.out[j];
      } else if prev.pending != "" {
        assert st.out[j] == (p[i].0, p[i - 1].1);
      }
    }
  }

  /** Every state the loop reaches has that shape. */
  lemma {:induction false} FixShape(p: seq<Pair>, n: nat)
    requires n <= |p| && FixRun(p, n).Ok?
    ensures Shaped(FixRun(p, n).value, p, n)
  {
    if n > 0 {
      FixShape(p, n - 1);
      FixStepShaped(FixRun(p, n - 1).value, p, n - 1);
    }
  }

  /** What is emitted for a pair stays in the output. */
  lemma {:induction false} FixPrefixStable(p: seq<Pair>, n: nat, m: nat)
    requires n <= m <= |p| && FixRun(p, m).Ok?
    ensures FixRun(p, n).Ok? && FixRun(p, m).value.out[..n] == FixRun(p, n).value.out
    decreases m - n
  {
    FixShape(p, m);
    if n < m {
      FixPrefixStable(p, n, m - 1);
      FixShape(p, m - 1);
      assert FixRun(p, m).value.out[..m - 1] == FixRun(p, m - 1).value.out;
      assert FixRun(p, m).value.out[..n] == FixRun(p, m).value.out[..m - 1][..n];
    } else {
      assert FixRun(p, m).value.out[..m] == FixRun(p, m).value.out;
    }
  }

  /** The output pair for position `i`, as the step for `i` emits it. */
  lemma FixAt(p: seq<Pair>, i: nat)
    requires i < |p| && FixPunctuation(p).Ok?
    ensures FixRun(p, i).Ok? && FixRun(p, i + 1).Ok?
    ensures FixPunctuation(p).value[i] == FixRun(p, i + 1).value.out[i]
    ensures FixRun(p, i + 1) == FixStep(FixRun(p, i).value, p, i)
    ensures FixRun(p, i).value.out == FixPunctuation(p).value[..i]
  {
    FixPrefixStable(p, i + 1, |p|);
    FixPrefixStable(p, i, |p|);
    FixShape(p, i + 1);
  }

  /**
   * The repair keeps the length and every token; a pair that is not
   * labelled punctuation keeps its label unless a label is moved onto
   * it, and a moved label comes from the pair before, which becomes "O".
   */
  lemma FixCorrect(p: seq<Pair>)
    requires FixPunctuation(p).Ok?
    ensures var out := FixPunctuation(p).value;
      && |out| == |p|
      && (forall i :: 0 <= i < |p| ==> out[i].0 == p[i].0)
      && (forall i :: 0 <= i < |p| && FixRun(p, i).Ok? ==>
            (Pending(p, i) == "" && (!IsPunctToken(p[i].0) || p[i].1 == "O") ==> out[i] == p[i])
            && (Pending(p, i) != "" ==> i > 0 && out[i] == (p[i].0, p[i - 1].1) && out[i - 1].1 == "O"))
  {
    var out := FixPunctuation(p).value;
    FixKeepsTokens(p);
    forall i | 0 <= i < |p| && FixRun(p, i).Ok?
      ensures Pending(p, i) == "" && (!IsPunctToken(p[i].0) || p[i].1 == "O") ==> out[i] == p[i]
      ensures Pending(p, i) != "" ==> i > 0 && out[i] == (p[i].0, p[i - 1].1) && out[i - 1].1 == "O"
    {
      FixCorrectAt(p, i);
    }
  }

  /** The repair keeps every token in place. */
  lemma FixKeepsTokens(p: seq<Pair>)
    requires FixPunctuation(p).Ok?
    ensures forall i :: 0 <= i < |p| ==> FixPunctuation(p).value[i].0 == p[i].0
  {
    FixShape(p, |p|);
  }

  /** Position `i` of `FixCorrect`. */
  lemma FixCorrectAt(p: seq<Pair>, i: nat)
    requires i < |p| && FixPunctuation(p).Ok? && FixRun(p, i).Ok?
    ensures var out := FixPunctuation(p).value;
      && (Pending(p, i) == "" && (!IsPunctToken(p[i].0) || p[i].1 == "O") ==> out[i] == p[i])
      && (Pending(p, i) != "" ==> i > 0 && out[i] == (p[i].0, p[i - 1].1) && out[i - 1].1 == "O")
  {
    FixAt(p, i);
    FixShape(p, i);
    if Pending(p, i) != "" {
      FixAt(p, i - 1);
    }
  }

  /**
   * Labelled punctuation with no label waiting becomes "O" exactly when
   * it opens the sentence or an entity (its label then moves on), or when
   * it is not a ')' closing a '(' group and is last or followed by a
   * closing token; otherwise it keeps its pair.
   */
  lemma FixPunct(p: seq<Pair>, i: nat)
    requires i < |p| && FixPunctuation(p).Ok?
    requires FixRun(p, i).Ok? && Pending(p, i) == "" && IsPunctToken(p[i].0) && p[i].1 != "O"
    ensures var out := FixPunctuation(p).value;
      && (i == 0 || StartsWith(p[i].1, "B") || ClosesGroup(p, i, out[..i]).Ok?)
      && (out[i].1 == "O" <==>
            (i == 0 || StartsWith(p[i].1, "B"))
            || (ClosesGroup(p, i, out[..i]) == Ok(false) && (i == |p| - 1 || NextCloses(p, i))))
      && (out[i].1 != "O" ==> out[i] == p[i])
      && (i == 0 || StartsWith(p[i].1, "B") ==> Pending(p, i + 1) == p[i].1)
  {
    FixAt(p, i);
  }

  // ---- read_conll ----

  /** The loop state of `read_conll`: the sentences so far, and the words and pairs of the open sentence. */
  datatype ConllReader = ConllReader(sentences: Dict<string, seq<Pair>>, words: seq<string>, parts: seq<Pair>)

  /** `word, *_, label = line.split(' ')`; a line with one field cannot be unpacked. */
  function ParseLine(line: string): (r: Result<Pair>)
    ensures r.Err? <==> ' ' !in line
  {
    SplitHasSecond(line, ' ');
    var fields := Split(line, ' ');
    if |fields| < 2 then Err(ValueError) else Ok((fields[0], fields[|fields| - 1]))
  }

  const DocStart: string := "-DOCSTART-"

  /** A blank line: the open sentence is repaired and stored under its joined words. */
  function CloseSentence(st: ConllReader): (r: Result<ConllReader>)
    ensures r.Ok? ==> (FixPunctuation(st.parts).Ok? && r.value.words == [] && r.value.parts == []
      && r.value.sentences == st.sentences.Put(Join(st.words, " "), FixPunctuation(st.parts).value))
  {
    match FixPunctuation(st.parts)
    case Err(e) => Err(e)
    case Ok(fixed) => Ok(ConllReader(st.sentences.Put(Join(st.words, " "), fixed), [], []))
  }

  /** A non-blank stripped line: its first and last fields join the open sentence unless it is '-DOCSTART-'. */
  function AddLine(st: ConllReader, line: string): (r: Result<ConllReader>)
    ensures r.Ok? ==> ParseLine(line).Ok? && r.value.sentences == st.sentences
    ensures r.Ok? && ParseLine(line).value.0 == DocStart ==> r.value == st
    ensures r.Ok? && ParseLine(line).value.0 != DocStart ==>
      r.value.words == st.words + [ParseLine(line).value.0] && r.value.parts == st.parts + [ParseLine(line).value]
  {
    match ParseLine(line)
    case Err(e) => Err(e)
    case Ok(pair) =>
      if pair.0 == DocStart then Ok(st)
      else Ok(ConllReader(st.sentences, st.words + [pair.0], st.parts + [pair]))
  }

  /** One stripped line of the file. */
  function ReadStep(st: ConllReader, line: string): Result<ConllReader>
  {
    if line == "" then CloseSentence(st) else AddLine(st, line)
  }

  /** The state after one more stripped line; an error stays. */
  function ReadAfter(r: Result<ConllReader>, line: string): Result<ConllReader>
  {
    if r.Err? then r else ReadStep(r.value, line)
  }

  /** `line.strip()` for every line of the file. */
  function StripAll(raw: seq<string>): (lines: seq<string>)
    ensures |lines| == |raw| && forall i :: 0 <= i < |raw| ==> lines[i] == Strip(raw[i])
  {
    seq(|raw|, i requires 0 <= i < |raw| => Strip(raw[i]))
  }

  /** The reader after the given stripped lines. */
  function ReadRun(lines: seq<string>): Result<ConllReader>
  {
    if lines == [] then Ok(ConllReader(Empty(), [], [])) else ReadAfter(ReadRun(lines[..|lines| - 1]), lines[|lines| - 1])
  }

  lemma ReadRunSnoc(lines: seq<string>, line: string)
    ensures ReadRun(lines + [line]) == ReadAfter(ReadRun(lines), line)
  {
    assert (lines + [line])[..|lines|] == lines;
  }

  /** What `read_conll(filename)` returns for the file's lines. */
  function ReadConllSpec(raw: seq<string>): Result<Dict<string, seq<Pair>>>
  {
    match ReadRun(StripAll(raw))
    case Err(e) => Err(e)
    case Ok(st) => Ok(st.sentences)
  }

  lemma {:induction false} ReadErrStays(lines: seq<string>, n: nat)
    requires n <= |lines| && ReadRun(lines[..n]).Err?
    ensures ReadRun(lines) == ReadRun(lines[..n])
    decreases |lines| - n
  {
    if n < |lines| {
      assert lines[..n + 1][..n] == lines[..n];
      ReadErrStays(lines, n + 1);
    } else {
      assert lines[..n] == lines;
    }
  }

  /** The body of `read_conll`'s loop for one stripped line. */
  method ReadLine(sentences: Dict<string, seq<Pair>>, sentence: seq<string>, sentenceParts: seq<Pair>, line: string)
    returns (r: Result<ConllReader>)
    ensures r == ReadStep(ConllReader(sentences, sentence, sentenceParts), line)
  {
    if line == "" {
      var fixedParts := FixConllPunctuation(sentenceParts);
      if fixedParts.Err? {
        return Err(fixedParts.error);
      }
      r := Ok(ConllReader(sentences.Put(Join(sentence, " "), fixedParts.value), [], []));
    } else {
      var pair := ParseLine(line);
      if pair.Err? {
        return Err(pair.error);
      }
      if pair.value.0 != DocStart {
        r := Ok(ConllReader(sentences, sentence + [pair.value.0], sentenceParts + [pair.value]));
      } else {
        r := Ok(ConllReader(sentences, sentence, sentenceParts));
      }
    }
  }

  /** `read_conll(filename)`, the file given as its lines. */
  method ReadConll(raw: seq<string>) returns (r: Result<Dict<string, seq<Pair>>>)
    ensures r == ReadConllSpec(raw)
  {
    ghost var lines := StripAll(raw);
    var sentences := Empty();
    var sentence := [];
    var sentenceParts := [];
    var k := 0;
    while k < |raw|
      invariant k <= |raw|
      invariant ReadRun(lines[..k]) == Ok(ConllReader(sentences, sentence, sentenceParts))
    {
      var line := Strip(raw[k]);
      assert line == lines[k];
      assert lines[..k + 1] == lines[..k] + [lines[k]];
      ReadRunSnoc(lines[..k], lines[k]);
      var next := ReadLine(sentences, sentence, sentenceParts, line);
      if next.Err? {
        ReadErrStays(lines, k + 1);
        return Err(next.error);
      }
      sentences, sentence, sentenceParts := next.value.sentences, next.value.words, next.value.parts;
      k := k + 1;
    }
    assert lines[..k] == lines;
    r := Ok(sentences);
  }

  /** The pairs one non-blank line adds to the open sentence: a '-DOCSTART-' line adds none. */
  function KeptLine(line: string): Result<seq<Pair>>
  {
    match ParseLine(line)
    case Err(e) => Err(e)
    case Ok(pair) => if pair.0 == DocStart then Ok([]) else Ok([pair])
  }

  /** The pairs a run of non-blank lines adds to the open sentence. */
  function Kept(block: seq<string>): Result<seq<Pair>>
  {
    if block == [] then Ok([])
    else
      match Kept(block[..|block| - 1])
      case Err(e) => Err(e)
      case Ok(ps) =>
        match KeptLine(block[|block| - 1])
        case Err(e) => Err(e)
        case Ok(more) => Ok(ps + more)
  }

  lemma StepKept(st: ConllReader, line: string)
    requires line != "" && ReadStep(st, line).Ok?
    ensures KeptLine(line).Ok? && ReadStep(st, line).value.sentences == st.sentences
    ensures ReadStep(st, line).value.parts == st.parts + KeptLine(line).value
  {
  }

  /** The open sentence's words are its pairs' tokens. */
  predicate WordsMatch(st: ConllReader)
  {
    |st.words| == |st.parts| && forall i :: 0 <= i < |st.parts| ==> st.words[i] == st.parts[i].0
  }

  lemma {:induction false} ReadRunWords(lines: seq<string>)
    requires ReadRun(lines).Ok?
    ensures WordsMatch(ReadRun(lines).value)
  {
    if lines != [] {
      ReadRunWords(lines[..|lines| - 1]);
    }
  }

  /**
   * Non-blank lines only extend the open sentence, and no sentence is
   * stored until a blank line: a final sentence without one is dropped.
   */
  lemma {:induction false} ReadBlock(lines: seq<string>, block: seq<string>)
    requires "" !in block
    requires ReadRun(lines + block).Ok?
    ensures ReadRun(lines).Ok? && Kept(block).Ok?
    ensures var before, after := ReadRun(lines).value, ReadRun(lines + block).value;
      after.sentences == before.sentences && after.parts == before.parts + Kept(block).value
  {
    if block == [] {
      assert lines + block == lines;
    } else {
      var pre, last := block[..|block| - 1], block[|block| - 1];
      AppendSnoc(lines, block);
      assert last in block;
      ReadLineKept(lines + pre, last);
      ReadBlock(lines, pre);
      KeptSnoc(pre, last);
      BlockCombine(ReadRun(lines).value, ReadRun(lines + pre).value, ReadRun(lines + block).value,
                   Kept(pre).value, KeptLine(last).value);
    }
  }

  /** Two extensions of the open sentence in a row, on plain values. */
  lemma BlockCombine(before: ConllReader, mid: ConllReader, after: ConllReader, kp: seq<Pair>, kl: seq<Pair>)
    requires mid.sentences == before.sentences && mid.parts == before.parts + kp
    requires after.sentences == mid.sentences && after.parts == mid.parts + kl
    ensures after.sentences == before.sentences && after.parts == before.parts + (kp + kl)
  {
    assert before.parts + kp + kl == before.parts + (kp + kl);
  }

  lemma ReadLineKept(lines: seq<string>, last: string)
    requires last != "" && ReadRun(lines + [last]).Ok?
    ensures ReadRun(lines).Ok? && KeptLine(last).Ok?
    ensures ReadRun(lines + [last]).value.sentences == ReadRun(lines).value.sentences
    ensures ReadRun(lines + [last]).value.parts == ReadRun(lines).value.parts + KeptLine(last).value
  {
    ReadRunSnoc(lines, last);
    StepKept(ReadRun(lines).value, last);
  }

  lemma KeptSnoc(pre: seq<string>, last: string)
    requires Kept(pre).Ok? && KeptLine(last).Ok?
    ensures Kept(pre + [last]) == Ok(Kept(pre).value + KeptLine(last).value)
  {
    assert (pre + [last])[..|pre|] == pre;
  }

  /**
   * A blank line stores the open sentence's repaired pairs under its
   * words joined by ' ', replacing an earlier sentence with the same
   * words, and starts a new sentence.
   */
  lemma ReadBlank(lines: seq<string>)
    requires ReadRun(lines + [""]).Ok?
    ensures ReadRun(lines).Ok? && FixPunctuation(ReadRun(lines).value.parts).Ok?
    ensures var before, after := ReadRun(lines).value, ReadRun(lines + [""]).value;
      && before.words == seq(|before.parts|, i requires 0 <= i < |before.parts| => before.parts[i].0)
      && after.sentences == before.sentences.Put(Join(before.words, " "), FixPunctuation(before.parts).value)
      && after.words == [] && after.parts == []
  {
    assert (lines + [""])[..|lines|] == lines;
    ReadRunWords(lines);
  }
}
