/**
 * The name arithmetic of the Finnish NER evaluation scripts: the
 * TP/FP/TN/FN classification, BIO stripping, name-name equivalences,
 * the per-sentence comparison of Stanza's labels with the annotation,
 * exact sentence matching, and the expansion of an annotation onto a
 * finer prediction tokenization.
 */
module Evaluation {
  import opened Common
  import opened PyDict

  /** The four cells of the evaluation table. */
  datatype Category = TP | FP | TN | FN

  /** `_process_relationship(annotation_label, predicted_label)`, identical in both scripts. */
  function ProcessRelationship(gold: string, pred: string): (c: Category)
    ensures c == TN <==> gold == "O" && pred == "O"
    ensures c == FN <==> gold != "O" && pred == "O"
    ensures c == TP <==> gold != "O" && pred == gold
    ensures c == FP <==> pred != "O" && pred != gold
  {
    if gold == "O" then (if pred != "O" then FP else TN)
    else if pred == "O" then FN
    else if pred == gold then TP
    else FP
  }

  /**
   * `_remove_bio(name)`: "O" stays, anything else becomes its second
   * '-'-separated piece; a name without '-' makes the index raise.
   */
  function RemoveBio(name: string): (r: Result<string>)
    ensures name == "O" ==> r == Ok("O")
    ensures r.Err? <==> name != "O" && '-' !in name
    ensures r.Err? ==> r.error == IndexError
    ensures r.Ok? ==> '-' !in r.value
  {
    if name == "O" then Ok(name)
    else
      SplitHasSecond(name, '-');
      var parts := Split(name, '-');
      if |parts| < 2 then Err(IndexError) else Ok(parts[1])
  }

  /** A tagged name loses exactly its tag. */
  lemma RemoveBioTagged(tag: string, entityType: string)
    requires '-' !in tag && '-' !in entityType
    ensures RemoveBio(tag + "-" + entityType) == Ok(entityType)
  {
    var name := tag + "-" + entityType;
    assert name[|tag|] == '-';
    SplitAtFirst(tag, '-', entityType);
    assert Split(entityType, '-') == [entityType];
  }

  /** An equivalence table, in the dict's insertion order. */
  type Table = seq<(string, string)>

  predicate KeysNonEmpty(table: Table)
  {
    forall i :: 0 <= i < |table| ==> |table[i].0| > 0
  }

  /** `EQUIVALENCIES` of the Stanza evaluation. */
  const StanzaEquivalences: Table := [("EVENT", "EVT"), ("PRO", "WORK")]

  /** The 'turku' equivalences of the TurkuNER evaluation. */
  const TurkuEquivalences: Table :=
    [("PERSON", "PER"), ("EVENT", "EVT"), ("FAC", "LOC"), ("GPE", "LOC"), ("PRODUCT", "MISC"), ("WORK_OF_ART", "WORK")]

  /** The 'stanza' equivalences of the TurkuNER evaluation. */
  const StanzaProcessorEquivalences: Table := [("EVENT", "EVT"), ("PRO", "WORK"), ("PERSON", "PER")]

  /** Position of the first key occurring in `txt`, or `|table|`. */
  function FirstHit(txt: string, table: Table): (k: nat)
    ensures k <= |table|
    ensures forall j :: 0 <= j < k ==> !Contains(txt, table[j].0)
    ensures k < |table| ==> Contains(txt, table[k].0)
  {
    if table == [] then 0 else if Contains(txt, table[0].0) then 0 else 1 + FirstHit(txt, table[1..])
  }

  /** What `_replace_equivalencies` returns: the first key found has every occurrence replaced. */
  function Replaced(txt: string, table: Table): string
    requires KeysNonEmpty(table)
  {
    var k := FirstHit(txt, table);
    if k == |table| then txt else ReplaceAll(txt, table[k].0, table[k].1)
  }

  /** `_replace_equivalencies(txt, equiv_dict)` */
  method ReplaceEquivalencies(txt: string, table: Table) returns (r: string)
    requires KeysNonEmpty(table)
    ensures r == Replaced(txt, table)
  {
    var i := 0;
    while i < |table|
      invariant i <= |table|
      invariant forall j :: 0 <= j < i ==> !Contains(txt, table[j].0)
    {
      if Contains(txt, table[i].0) {
        return ReplaceAll(txt, table[i].0, table[i].1);
      }
      i := i + 1;
    }
    return txt;
  }

  /** A name holding none of the keys is left alone. */
  lemma ReplacedMiss(txt: string, table: Table)
    requires KeysNonEmpty(table)
    requires forall i :: 0 <= i < |table| ==> !Contains(txt, table[i].0)
    ensures Replaced(txt, table) == txt
  {
  }

  // ---- evaluate_sentence ----

  /** Stanza's S- and E- labels are read as I- labels. */
  function RecodeSE(name: string): (r: string)
    ensures |r| == |name|
    ensures !StartsWith(r, "S") && !StartsWith(r, "E")
    ensures StartsWith(name, "S") || StartsWith(name, "E") ==> StartsWith(r, "I")
    ensures |name| > 0 ==> r[1..] == name[1..]
    ensures !StartsWith(name, "S") && !StartsWith(name, "E") ==> r == name
  {
    if StartsWith(name, "S") || StartsWith(name, "E") then "I" + name[1..] else name
  }

  /** The BIO stripping, when asked for. */
  function Normalize(name: string, ignoreBio: bool): (r: Result<string>)
    ensures !ignoreBio ==> r == Ok(name)
  {
    if ignoreBio then RemoveBio(name) else Ok(name)
  }

  /** A predicted name as `evaluate_sentence` compares it. */
  function PredLabel(name: string, ignoreBio: bool): Result<string>
  {
    match Normalize(RecodeSE(name), ignoreBio)
    case Err(e) => Err(e)
    case Ok(l) => Ok(Replaced(l, StanzaEquivalences))
  }

  /** `PredLabel` as a value, for the folds below. */
  function PredLabelOf(ignoreBio: bool): (f: string -> Result<string>)
    ensures forall name :: f(name) == PredLabel(name, ignoreBio)
  {
    name => PredLabel(name, ignoreBio)
  }

  /** One more label; the first error stays. */
  function CollectStep(st: Result<seq<string>>, l: Result<string>): Result<seq<string>>
  {
    match st
    case Err(e) => Err(e)
    case Ok(acc) =>
      match l
      case Err(e) => Err(e)
      case Ok(v) => Ok(acc + [v])
  }

  /** `[f(x) for x in xs]` built left to right, stopping at the first `f(x)` that raises. */
  function Collect(xs: seq<string>, f: string -> Result<string>): Result<seq<string>>
  {
    if xs == [] then Ok([]) else CollectStep(Collect(xs[..|xs| - 1], f), f(xs[|xs| - 1]))
  }

  /** The predicted labels, stopping at the first that raises. */
  function PredLabels(labels: seq<string>, ignoreBio: bool): Result<seq<string>>
  {
    Collect(labels, PredLabelOf(ignoreBio))
  }

  lemma CollectPrefix(done: seq<string>, words: seq<string>, j: nat, f: string -> Result<string>)
    requires j < |words|
    ensures Collect(done + words[..j + 1], f) == CollectStep(Collect(done + words[..j], f), f(words[j]))
  {
    PrefixSnoc(done, words, j);
  }

  /** The collection fails exactly when some element's `f` raises. */
  lemma {:induction false} CollectErr(xs: seq<string>, f: string -> Result<string>)
    ensures Collect(xs, f).Err? <==> exists i :: 0 <= i < |xs| && f(xs[i]).Err?
  {
    if xs != [] {
      var pre := xs[..|xs| - 1];
      CollectErr(pre, f);
      if exists i :: 0 <= i < |pre| && f(pre[i]).Err? {
        var i :| 0 <= i < |pre| && f(pre[i]).Err?;
        assert xs[i] == pre[i];
      } else if Collect(xs, f).Err? {
        assert f(xs[|xs| - 1]).Err?;
      } else {
        forall i | 0 <= i < |xs| ensures f(xs[i]).Ok? {
          if i < |pre| {
            assert xs[i] == pre[i];
          }
        }
      }
    }
  }

  /** A successful collection holds each element's `f`, in order. */
  lemma {:induction false} CollectOk(xs: seq<string>, f: string -> Result<string>)
    ensures var r := Collect(xs, f);
      r.Ok? ==> |r.value| == |xs| && forall i :: 0 <= i < |xs| ==> Ok(r.value[i]) == f(xs[i])
  {
    if xs != [] && Collect(xs, f).Ok? {
      var pre := xs[..|xs| - 1];
      CollectOk(pre, f);
      var v := Collect(xs, f).value;
      assert v == Collect(pre, f).value + [f(xs[|xs| - 1]).value];
      forall i | 0 <= i < |xs| ensures Ok(v[i]) == f(xs[i]) {
        if i < |pre| {
          assert xs[i] == pre[i];
        }
      }
    }
  }

  /** The inner loop over one data entry's words. */
  method AddPredicted(ghost done: seq<string>, st: Result<seq<string>>, words: seq<string>, ignoreBio: bool) returns (st': Result<seq<string>>)
    requires st == PredLabels(done, ignoreBio)
    ensures st' == PredLabels(done + words, ignoreBio)
  {
    st' := st;
    var j := 0;
    assert done + words[..0] == done;
    while j < |words|
      invariant j <= |words|
      invariant st' == PredLabels(done + words[..j], ignoreBio)
    {
      CollectPrefix(done, words, j, PredLabelOf(ignoreBio));
      if st'.Ok? {
        var l := PredLabel(words[j], ignoreBio);
        st' := if l.Err? then Err(l.error) else Ok(st'.value + [l.value]);
      }
      j := j + 1;
    }
    assert words[..j] == words;
  }

  /** The nested loop of `evaluate_sentence` over `morpho_syntax` data and their words. */
  method PredictedLabels(data: seq<seq<string>>, ignoreBio: bool) returns (st: Result<seq<string>>)
    ensures st == PredLabels(Flatten(data), ignoreBio)
  {
    st := Ok([]);
    var k := 0;
    while k < |data|
      invariant k <= |data|
      invariant st == PredLabels(Flatten(data[..k]), ignoreBio)
    {
      FlattenSnoc(data[..k], data[k]);
      assert data[..k + 1] == data[..k] + [data[k]];
      st := AddPredicted(Flatten(data[..k]), st, data[k], ignoreBio);
      k := k + 1;
    }
    assert data[..k] == data;
  }

  /** The annotation labels `[_remove_bio(i[1]) for i in annotation]` or `[i[1] for i in annotation]`. */
  function AnnLabels(annotation: seq<(string, string)>, ignoreBio: bool): Result<seq<string>>
  {
    if annotation == [] then Ok([])
    else
      match AnnLabels(annotation[..|annotation| - 1], ignoreBio)
      case Err(e) => Err(e)
      case Ok(acc) =>
        match Normalize(annotation[|annotation| - 1].1, ignoreBio)
        case Err(e) => Err(e)
        case Ok(l) => Ok(acc + [l])
  }

  /** What the generator of `evaluate_sentence` yields, computed eagerly. */
  function EvaluateSpec(labels: seq<string>, annotation: seq<(string, string)>, ignoreBio: bool): Result<seq<(string, Category)>>
  {
    match PredLabels(labels, ignoreBio)
    case Err(e) => Err(e)
    case Ok(preds) =>
      match AnnLabels(annotation, ignoreBio)
      case Err(e) => Err(e)
      case Ok(anns) =>
        if |anns| != |preds| then Err(ValueError)
        else Ok(seq(|anns|, i requires 0 <= i < |anns| => (anns[i], ProcessRelationship(anns[i], preds[i]))))
  }

  /** `evaluate_sentence(processed_sentence, annotation, ignore_bio)`, the predicted labels given per data entry. */
  method EvaluateSentence(data: seq<seq<string>>, annotation: seq<(string, string)>, ignoreBio: bool) returns (r: Result<seq<(string, Category)>>)
    ensures r == EvaluateSpec(Flatten(data), annotation, ignoreBio)
  {
    var preds := PredictedLabels(data, ignoreBio);
    if preds.Err? {
      return Err(preds.error);
    }
    var anns := AnnLabels(annotation, ignoreBio);
    if anns.Err? {
      return Err(anns.error);
    }
    if |anns.value| != |preds.value| {
      return Err(ValueError);
    }
    var out := [];
    var i := 0;
    while i < |anns.value|
      invariant i <= |anns.value| && |out| == i
      invariant forall j :: 0 <= j < i ==> out[j] == (anns.value[j], ProcessRelationship(anns.value[j], preds.value[j]))
    {
      out := out + [(anns.value[i], ProcessRelationship(anns.value[i], preds.value[i]))];
      i := i + 1;
    }
    assert out == seq(|anns.value|, i requires 0 <= i < |anns.value| => (anns.value[i], ProcessRelationship(anns.value[i], preds.value[i])));
    r := Ok(out);
  }

  lemma PredLabelsSpec(labels: seq<string>, ignoreBio: bool)
    ensures var r := PredLabels(labels, ignoreBio);
      && (r.Err? <==> exists i :: 0 <= i < |labels| && PredLabel(labels[i], ignoreBio).Err?)
      && (r.Ok? ==> |r.value| == |labels| && forall i :: 0 <= i < |labels| ==> Ok(r.value[i]) == PredLabel(labels[i], ignoreBio))
  {
    CollectErr(labels, PredLabelOf(ignoreBio));
    CollectOk(labels, PredLabelOf(ignoreBio));
  }

  lemma {:induction false} AnnLabelsSpec(annotation: seq<(string, string)>, ignoreBio: bool)
    ensures var r := AnnLabels(annotation, ignoreBio);
      && (r.Err? <==> exists i :: 0 <= i < |annotation| && Normalize(annotation[i].1, ignoreBio).Err?)
      && (r.Ok? ==> |r.value| == |annotation| && forall i :: 0 <= i < |annotation| ==> Ok(r.value[i]) == Normalize(annotation[i].1, ignoreBio))
  {
    if annotation != [] {
      var pre := annotation[..|annotation| - 1];
      AnnLabelsSpec(pre, ignoreBio);
      if exists i :: 0 <= i < |pre| && Normalize(pre[i].1, ignoreBio).Err? {
        var i :| 0 <= i < |pre| && Normalize(pre[i].1, ignoreBio).Err?;
        assert annotation[i] == pre[i];
      }
      if AnnLabels(annotation, ignoreBio).Ok? {
        var v := AnnLabels(annotation, ignoreBio).value;
        forall i | 0 <= i < |annotation| ensures Ok(v[i]) == Normalize(annotation[i].1, ignoreBio) {
          if i < |pre| {
            assert annotation[i] == pre[i];
          }
        }
      } else if AnnLabels(pre, ignoreBio).Ok? {
        assert Normalize(annotation[|annotation| - 1].1, ignoreBio).Err?;
      }
    }
  }

  /**
   * Without BIO stripping the comparison fails exactly when the name
   * counts differ, and otherwise yields, position by position, the
   * annotation name and its category against the recoded, renamed
   * prediction. With stripping every yielded pair relates the stripped
   * labels in the same way.
   */
  lemma EvaluateSentenceCorrect(labels: seq<string>, annotation: seq<(string, string)>, ignoreBio: bool)
    ensures var r := EvaluateSpec(labels, annotation, ignoreBio);
      && (!ignoreBio ==> (r.Err? <==> |annotation| != |labels|) && (r.Err? ==> r.error == ValueError))
      && (r.Ok? ==> |r.value| == |annotation| == |labels| && forall i :: 0 <= i < |annotation| ==>
            Ok(r.value[i].0) == Normalize(annotation[i].1, ignoreBio) && PredLabel(labels[i], ignoreBio).Ok?
            && r.value[i].1 == ProcessRelationship(r.value[i].0, PredLabel(labels[i], ignoreBio).value))
      && (!ignoreBio && r.Ok? ==> |r.value| == |labels| && forall i :: 0 <= i < |annotation| ==>
            r.value[i] == (annotation[i].1, ProcessRelationship(annotation[i].1, Replaced(RecodeSE(labels[i]), StanzaEquivalences))))
  {
    PredLabelsSpec(labels, ignoreBio);
    AnnLabelsSpec(annotation, ignoreBio);
  }

  // ---- find_matches, the exact part ----

  /** `t.replace(' ', '')` */
  function RemoveSpaces(t: string): string
  {
    ReplaceAll(t, " ", "")
  }

  /** `{t.replace(' ', ''): t for t in annotations}` */
  function SpacelessIndex(anns: seq<string>): Dict<string, string>
  {
    if anns == [] then Empty()
    else SpacelessIndex(anns[..|anns| - 1]).Put(RemoveSpaces(anns[|anns| - 1]), anns[|anns| - 1])
  }

  lemma {:induction false} SpacelessIndexSpec(anns: seq<string>)
    ensures var d := SpacelessIndex(anns);
      && d.Valid()
      && (forall a :: a in anns ==> RemoveSpaces(a) in d.entries)
      && (forall k :: k in d.entries ==> d.entries[k] in anns && RemoveSpaces(d.entries[k]) == k)
  {
    if anns != [] {
      var pre, last := anns[..|anns| - 1], anns[|anns| - 1];
      SpacelessIndexSpec(pre);
      SpacelessPut(SpacelessIndex(pre), pre, last, anns);
    }
  }

  /** Adding one annotation keeps the index an index of the annotations so far. */
  lemma SpacelessPut(d: Dict<string, string>, pre: seq<string>, last: string, anns: seq<string>)
    requires anns == pre + [last] && d.Valid()
    requires forall a :: a in pre ==> RemoveSpaces(a) in d.entries
    requires forall k :: k in d.entries ==> d.entries[k] in pre && RemoveSpaces(d.entries[k]) == k
    ensures var d' := d.Put(RemoveSpaces(last), last);
      && d'.Valid()
      && (forall a :: a in anns ==> RemoveSpaces(a) in d'.entries)
      && (forall k :: k in d'.entries ==> d'.entries[k] in anns && RemoveSpaces(d'.entries[k]) == k)
  {
  }

  /** `spaceless_annotations.get(...)` is truthy for this text. */
  predicate Matched(index: Dict<string, string>, t: string)
  {
    RemoveSpaces(t) in index.entries && index.entries[RemoveSpaces(t)] != ""
  }

  datatype MatchState = MatchState(matches: Dict<string, string>, unmatched: seq<string>)

  function MatchStep(st: MatchState, index: Dict<string, string>, t: string): MatchState
  {
    if Matched(index, t) then MatchState(st.matches.Put(t, index.entries[RemoveSpaces(t)]), st.unmatched)
    else MatchState(st.matches, st.unmatched + [t])
  }

  function MatchRun(index: Dict<string, string>, texts: seq<string>): MatchState
  {
    if texts == [] then MatchState(Empty(), [])
    else MatchStep(MatchRun(index, texts[..|texts| - 1]), index, texts[|texts| - 1])
  }

  /** Either every sentence matched exactly, or the distance matcher takes the rest. */
  datatype MatchOutcome =
    | Exact(matches: Dict<string, string>)
    | NeedsDistance(matches: Dict<string, string>, unmatchedText: seq<string>, unmatchedAnnotations: set<string>)

  function FindMatchesSpec(anns: seq<string>, texts: seq<string>): MatchOutcome
  {
    var st := MatchRun(SpacelessIndex(anns), texts);
    if st.unmatched == [] then Exact(st.matches)
    else NeedsDistance(st.matches, st.unmatched, (set a | a in anns) - st.matches.entries.Values)
  }

  /** One processed sentence of the matching loop, as `find_matches` tests it. */
  lemma MatchStepIs(st: MatchState, index: Dict<string, string>, t: string, m: Option<string>)
    requires m == index.Get(RemoveSpaces(t))
    ensures MatchStep(st, index, t) ==
      if m.Some? && m.value != "" then MatchState(st.matches.Put(t, m.value), st.unmatched)
      else MatchState(st.matches, st.unmatched + [t])
  {
  }

  /** The loop of `find_matches` over the processed sentences. */
  method MatchLoop(index: Dict<string, string>, texts: seq<string>) returns (matches: Dict<string, string>, unmatched: seq<string>)
    ensures MatchRun(index, texts) == MatchState(matches, unmatched)
  {
    matches := Empty();
    unmatched := [];
    var i := 0;
    while i < |texts|
      invariant i <= |texts|
      invariant MatchRun(index, texts[..i]) == MatchState(matches, unmatched)
    {
      assert texts[..i + 1][..i] == texts[..i];
      var m := index.Get(RemoveSpaces(texts[i]));
      MatchStepIs(MatchState(matches, unmatched), index, texts[i], m);
      if m.Some? && m.value != "" {
        matches := matches.Put(texts[i], m.value);
      } else {
        unmatched := unmatched + [texts[i]];
      }
      i := i + 1;
    }
    assert texts[..i] == texts;
  }

  /** `find_matches(annotations, processed)` up to the call of the distance matcher; `texts` are the processed sentences' texts. */
  method FindMatches(anns: seq<string>, texts: seq<string>) returns (out: MatchOutcome)
    ensures out == FindMatchesSpec(anns, texts)
  {
    var index := SpacelessIndex(anns);
    var matches, unmatched := MatchLoop(index, texts);
    if unmatched == [] {
      return Exact(matches);
    }
    out := NeedsDistance(matches, unmatched, (set a | a in anns) - matches.entries.Values);
  }

  lemma {:induction false} MatchRunSpec(index: Dict<string, string>, texts: seq<string>)
    ensures var st := MatchRun(index, texts);
      && st.matches.Valid()
      && (forall t :: t in st.matches.entries <==> t in texts && Matched(index, t))
      && (forall t :: t in st.matches.entries ==> st.matches.entries[t] == index.entries[RemoveSpaces(t)])
      && (forall t :: t in st.unmatched <==> t in texts && !Matched(index, t))
  {
    if texts != [] {
      MatchRunSpec(index, texts[..|texts| - 1]);
      assert texts == texts[..|texts| - 1] + [texts[|texts| - 1]];
    }
  }

  /**
   * Exact matching succeeds for every sentence exactly when each one's
   * space-free text is a truthy key; every match is an annotation equal
   * to the sentence up to spaces; and a sentence left over has no
   * annotation equal to it up to spaces unless both are blank.
   */
  lemma FindMatchesCorrect(anns: seq<string>, texts: seq<string>)
    ensures var out, index := FindMatchesSpec(anns, texts), SpacelessIndex(anns);
      && (out.Exact? <==> forall t :: t in texts ==> Matched(index, t))
      && (forall t :: t in out.matches.entries ==>
            (t in texts && out.matches.entries[t] in anns && RemoveSpaces(out.matches.entries[t]) == RemoveSpaces(t)))
      && (forall t, a :: t in texts && a in anns && RemoveSpaces(a) == RemoveSpaces(t) && RemoveSpaces(t) != ""
            ==> t in out.matches.entries)
  {
    var index := SpacelessIndex(anns);
    SpacelessIndexSpec(anns);
    MatchRunSpec(index, texts);
    var st := MatchRun(index, texts);
    if st.unmatched != [] {
      assert st.unmatched[0] in st.unmatched;
    }
    forall t, a | t in texts && a in anns && RemoveSpaces(a) == RemoveSpaces(t) && RemoveSpaces(t) != ""
      ensures Matched(index, t)
    {
      assert RemoveSpaces(t) in index.entries;
    }
  }

  // ---- _multiply_label and _align_annotations ----

  predicate OutsideOrInside(name: string)
  {
    StartsWith(name, "O") || StartsWith(name, "I")
  }

  /**
   * `_multiply_label(label, n)`: an O- or I- label is repeated, a B- label
   * is followed by I- labels of its type; a label of neither kind without
   * '-' makes `split('-')[1]` raise.
   */
  function MultiplyLabel(name: string, n: nat): (r: Result<seq<string>>)
    ensures r.Err? <==> !OutsideOrInside(name) && '-' !in name
    ensures r.Ok? && n >= 1 ==> |r.value| == n && r.value[0] == name
    ensures r.Ok? && n == 0 ==> r.value == if OutsideOrInside(name) then [] else [name]
    ensures r.Ok? && OutsideOrInside(name) ==> forall i :: 0 <= i < |r.value| ==> r.value[i] == name
    ensures r.Ok? && !OutsideOrInside(name) ==> forall i :: 0 < i < |r.value| ==> StartsWith(r.value[i], "I-")
  {
    if OutsideOrInside(name) then Ok(Repeat(name, n))
    else
      SplitHasSecond(name, '-');
      var parts := Split(name, '-');
      if |parts| < 2 then Err(IndexError)
      else
        var inside := "I-" + parts[1];
        assert StartsWith(inside, "I-");
        Ok([name] + Repeat(inside, if n == 0 then 0 else n - 1))
  }

  /** A B- label spread over `n` tokens is a well-formed BIO block of its type. */
  lemma MultiplyBegin(entityType: string, n: nat)
    requires '-' !in entityType && n >= 1
    ensures MultiplyLabel("B-" + entityType, n) == Ok(["B-" + entityType] + Repeat("I-" + entityType, n - 1))
  {
    var name := "B-" + entityType;
    assert name == "B" + "-" + entityType;
    assert name[..1] == "B";
    SplitAtFirst("B", '-', entityType);
    assert Split(entityType, '-') == [entityType];
  }

  /** A (form, label) pair of the annotation or of the prediction. */
  type Pair = (string, string)

  /** `[a[0] for a in entities]` */
  function Forms(ps: seq<Pair>): (r: seq<string>)
    ensures |r| == |ps| && forall i :: 0 <= i < |ps| ==> r[i] == ps[i].0
  {
    seq(|ps|, i requires 0 <= i < |ps| => ps[i].0)
  }

  /** `[ptokens[i] for i in alig]`; an index past the end raises. */
  function AlignedWords(ptokens: seq<string>, alig: seq<nat>): (r: Result<seq<string>>)
    ensures r.Err? <==> exists j :: 0 <= j < |alig| && alig[j] >= |ptokens|
    ensures r.Err? ==> r.error == IndexError
    ensures r.Ok? ==> |r.value| == |alig| && forall j :: 0 <= j < |alig| ==> alig[j] < |ptokens| && r.value[j] == ptokens[alig[j]]
  {
    if alig == [] then Ok([])
    else
      match AlignedWords(ptokens, alig[..|alig| - 1])
      case Err(e) => Err(e)
      case Ok(ws) => if alig[|alig| - 1] >= |ptokens| then Err(IndexError) else Ok(ws + [ptokens[alig[|alig| - 1]]])
  }

  /** `zip(a, b)` */
  function Zip<A, B>(a: seq<A>, b: seq<B>): (r: seq<(A, B)>)
    ensures |r| == if |a| < |b| then |a| else |b|
    ensures forall i :: 0 <= i < |r| ==> r[i] == (a[i], b[i])
  {
    if a == [] || b == [] then [] else [(a[0], b[0])] + Zip(a[1..], b[1..])
  }

  /** What one annotation token becomes on the prediction tokenization. */
  function Expansion(ptokens: seq<string>, alig: seq<nat>, form: string, name: string): (r: Result<seq<Pair>>)
    ensures |alig| == 1 ==> r == Ok([(form, name)])
    ensures r.Ok? ==> |r.value| == |alig|
    ensures r.Ok? && |alig| != 1 ==> forall j :: 0 <= j < |alig| ==>
      alig[j] < |ptokens| && r.value[j].0 == ptokens[alig[j]]
        && MultiplyLabel(name, |alig|).Ok? && r.value[j].1 == MultiplyLabel(name, |alig|).value[j]
  {
    if |alig| == 1 then Ok([(form, name)])
    else
      match AlignedWords(ptokens, alig)
      case Err(e) => Err(e)
      case Ok(ws) =>
        match MultiplyLabel(name, |alig|)
        case Err(e) => Err(e)
        case Ok(ls) => Ok(Zip(ws, ls))
  }

  /** The expansions of the first `n` entries of `zip(a2p, annot_entities)`. */
  function Expanded(ptokens: seq<string>, a2p: seq<seq<nat>>, annot: seq<Pair>, n: nat): Result<seq<Pair>>
    requires n <= |a2p| && n <= |annot|
  {
    if n == 0 then Ok([])
    else
      match Expanded(ptokens, a2p, annot, n - 1)
      case Err(e) => Err(e)
      case Ok(acc) =>
        match Expansion(ptokens, a2p[n - 1], annot[n - 1].0, annot[n - 1].1)
        case Err(e) => Err(e)
        case Ok(block) => Ok(acc + block)
  }

  function Min(a: nat, b: nat): nat
  {
    if a < b then a else b
  }

  /** What `_align_annotations` returns; `Ok(None)` is its `None`. */
  function AlignSpec(annot: seq<Pair>, pred: seq<Pair>, a2p: seq<seq<nat>>, p2a: seq<seq<nat>>): Result<Option<seq<Pair>>>
  {
    if |p2a| < |a2p| then Ok(None)
    else
      match Expanded(Forms(pred), a2p, annot, Min(|a2p|, |annot|))
      case Err(e) => Err(e)
      case Ok(r) => if |r| != |pred| then Err(AssertionError) else Ok(Some(r))
  }

  lemma {:induction false} ExpandedErrStays(ptokens: seq<string>, a2p: seq<seq<nat>>, annot: seq<Pair>, n: nat, m: nat)
    requires n <= m <= |a2p| && m <= |annot| && Expanded(ptokens, a2p, annot, n).Err?
    ensures Expanded(ptokens, a2p, annot, m) == Expanded(ptokens, a2p, annot, n)
    decreases m - n
  {
    if n < m {
      ExpandedErrStays(ptokens, a2p, annot, n, m - 1);
    }
  }

  lemma ExpandedNext(ptokens: seq<string>, a2p: seq<seq<nat>>, annot: seq<Pair>, n: nat)
    requires n < |a2p| && n < |annot| && Expanded(ptokens, a2p, annot, n).Ok?
    ensures var e := Expansion(ptokens, a2p[n], annot[n].0, annot[n].1);
      Expanded(ptokens, a2p, annot, n + 1) == if e.Err? then Err(e.error) else Ok(Expanded(ptokens, a2p, annot, n).value + e.value)
  {
  }

  /** The inner loop appending one expansion. */
  method AppendZipped(acc: seq<Pair>, words: seq<string>, labels: seq<string>) returns (acc': seq<Pair>)
    ensures acc' == acc + Zip(words, labels)
  {
    acc' := acc;
    var j := 0;
    while j < |words| && j < |labels|
      invariant j <= |words| && j <= |labels|
      invariant acc' == acc + Zip(words, labels)[..j]
    {
      ghost var z := Zip(words, labels);
      assert z[..j + 1] == z[..j] + [(words[j], labels[j])];
      acc' := acc' + [(words[j], labels[j])];
      j := j + 1;
    }
    assert Zip(words, labels)[..j] == Zip(words, labels);
  }

  /** `_align_annotations(annot_entities, pred_entities)` with the alignments `a2p`, `p2a` given. */
  method AlignAnnotations(annot: seq<Pair>, pred: seq<Pair>, a2p: seq<seq<nat>>, p2a: seq<seq<nat>>) returns (r: Result<Option<seq<Pair>>>)
    ensures r == AlignSpec(annot, pred, a2p, p2a)
  {
    var ptokens := Forms(pred);
    if |p2a| < |a2p| {
      return Ok(None);
    }
    var m := Min(|a2p|, |annot|);
    var out := [];
    var i := 0;
    while i < m
      invariant i <= m
      invariant Expanded(ptokens, a2p, annot, i) == Ok(out)
    {
      ExpandedNext(ptokens, a2p, annot, i);
      var alig := a2p[i];
      if |alig| == 1 {
        out := out + [annot[i]];
      } else {
        var words := AlignedWords(ptokens, alig);
        if words.Err? {
          ExpandedErrStays(ptokens, a2p, annot, i + 1, m);
          return Err(words.error);
        }
        var labels := MultiplyLabel(annot[i].1, |alig|);
        if labels.Err? {
          ExpandedErrStays(ptokens, a2p, annot, i + 1, m);
          return Err(labels.error);
        }
        out := AppendZipped(out, words.value, labels.value);
      }
      i := i + 1;
    }
    if |out| != |pred| {
      return Err(AssertionError);
    }
    r := Ok(Some(out));
  }

  /** Total number of prediction tokens the first `n` annotation tokens align to. */
  function AlignedCount(a2p: seq<seq<nat>>, n: nat): nat
    requires n <= |a2p|
  {
    if n == 0 then 0 else AlignedCount(a2p, n - 1) + |a2p[n - 1]|
  }

  lemma {:induction false} ExpandedLength(ptokens: seq<string>, a2p: seq<seq<nat>>, annot: seq<Pair>, n: nat)
    requires n <= |a2p| && n <= |annot| && Expanded(ptokens, a2p, annot, n).Ok?
    ensures |Expanded(ptokens, a2p, annot, n).value| == AlignedCount(a2p, n)
  {
    if n > 0 {
      ExpandedLength(ptokens, a2p, annot, n - 1);
    }
  }

  /** With one-to-one alignments the annotation is returned as it is. */
  lemma {:induction false} ExpandedIdentity(ptokens: seq<string>, a2p: seq<seq<nat>>, annot: seq<Pair>, n: nat)
    requires n <= |a2p| && n <= |annot|
    requires forall i :: 0 <= i < n ==> |a2p[i]| == 1
    ensures Expanded(ptokens, a2p, annot, n) == Ok(annot[..n])
  {
    if n > 0 {
      ExpandedIdentity(ptokens, a2p, annot, n - 1);
      assert annot[..n] == annot[..n - 1] + [annot[n - 1]];
    }
  }

  /**
   * The alignment gives up when the prediction side is shorter, fails its
   * length assertion exactly when the expansion does not cover the
   * prediction one to one, and returns a one-to-one aligned annotation
   * unchanged.
   */
  lemma AlignCorrect(annot: seq<Pair>, pred: seq<Pair>, a2p: seq<seq<nat>>, p2a: seq<seq<nat>>)
    ensures var r, m := AlignSpec(annot, pred, a2p, p2a), Min(|a2p|, |annot|);
      && (r == Ok(None) <==> |p2a| < |a2p|)
      && (r.Ok? && r.value.Some? ==> |r.value.value| == |pred|)
      && (|p2a| >= |a2p| && Expanded(Forms(pred), a2p, annot, m).Ok? ==>
            (r == Err(AssertionError) <==> AlignedCount(a2p, m) != |pred|))
      && (|p2a| >= |a2p| == |annot| == |pred| && (forall i :: 0 <= i < |a2p| ==> |a2p[i]| == 1) ==> r == Ok(Some(annot)))
  {
    var m := Min(|a2p|, |annot|);
    if |p2a| >= |a2p| {
      if Expanded(Forms(pred), a2p, annot, m).Ok? {
        ExpandedLength(Forms(pred), a2p, annot, m);
      }
      if |a2p| == |annot| && forall i :: 0 <= i < |a2p| ==> |a2p[i]| == 1 {
        ExpandedIdentity(Forms(pred), a2p, annot, m);
        assert annot[..m] == annot;
      }
    }
  }

  // ---- the counting loop of the TurkuNER `evaluate` ----

  /** The labels the evaluation table has rows for: every annotation label, stripped when asked. */
  function LabelRows(sentences: seq<seq<Pair>>, ignoreBio: bool): Result<set<string>>
  {
    match AnnLabels(Flatten(sentences), ignoreBio)
    case Err(e) => Err(e)
    case Ok(ls) => Ok(set l | l in ls)
  }

  /** One counted (annotation label, category) pair. */
  type Observation = (string, Category)

  /**
   * One pair of the `zip(ents, turku_ents)` loop: labels stripped when
   * asked, the prediction renamed, and the table cell incremented, which
   * raises KeyError for a label without a row.
   */
  function PairStep(st: Result<seq<Observation>>, a: Pair, t: Pair, rows: set<string>, table: Table, ignoreBio: bool): Result<seq<Observation>>
    requires KeysNonEmpty(table)
  {
    match st
    case Err(e) => Err(e)
    case Ok(obs) =>
      match Normalize(a.1, ignoreBio)
      case Err(e) => Err(e)
      case Ok(al) =>
        match Normalize(t.1, ignoreBio)
        case Err(e) => Err(e)
        case Ok(tl) =>
          if al !in rows then Err(KeyError) else Ok(obs + [(al, ProcessRelationship(al, Replaced(tl, table)))])
  }

  /** The first `n` pairs of one sentence, after the observations `st`. */
  function PairRun(st: Result<seq<Observation>>, ents: seq<Pair>, tk: seq<Pair>, rows: set<string>, table: Table, ignoreBio: bool, n: nat): Result<seq<Observation>>
    requires KeysNonEmpty(table) && n <= |ents| && n <= |tk|
  {
    if n == 0 then st else PairStep(PairRun(st, ents, tk, rows, table, ignoreBio, n - 1), ents[n - 1], tk[n - 1], rows, table, ignoreBio)
  }

  datatype TurkuState = TurkuState(observations: seq<Observation>, falses: nat, splits: nat)

  /** The alignment library's `get_alignments(atokens, ptokens)`, which is not part of this model. */
  type Aligner = (seq<string>, seq<string>) -> (seq<seq<nat>>, seq<seq<nat>>)

  function WithPairs(s: TurkuState, ents: seq<Pair>, tk: seq<Pair>, rows: set<string>, table: Table, ignoreBio: bool): Result<TurkuState>
    requires KeysNonEmpty(table)
  {
    match PairRun(Ok(s.observations), ents, tk, rows, table, ignoreBio, Min(|ents|, |tk|))
    case Err(e) => Err(e)
    case Ok(obs) => Ok(s.(observations := obs))
  }

  /** One annotated sentence: its prediction is looked up, realigned when the lengths differ, and counted. */
  function SentenceStep(st: Result<TurkuState>, ents: seq<Pair>, turku: Option<seq<Pair>>, align: Aligner,
                        rows: set<string>, table: Table, ignoreBio: bool): Result<TurkuState>
    requires KeysNonEmpty(table)
  {
    match st
    case Err(e) => Err(e)
    case Ok(s) =>
      match turku
      case None => Err(KeyError)
      case Some(tk) =>
        if |ents| == |tk| then WithPairs(s, ents, tk, rows, table, ignoreBio)
        else
          var (a2p, p2a) := align(Forms(ents), Forms(tk));
          match AlignSpec(ents, tk, a2p, p2a)
          case Err(e) => Err(e)
          case Ok(None) => Ok(s.(falses := s.falses + 1))
          case Ok(Some(aligned)) => WithPairs(s.(splits := s.splits + 1), aligned, tk, rows, table, ignoreBio)
  }

  /** The first `n` annotated sentences, in the annotation dict's order. */
  function TurkuRun(annots: Dict<string, seq<Pair>>, preds: Dict<string, seq<Pair>>, align: Aligner,
                    rows: set<string>, table: Table, ignoreBio: bool, n: nat): Result<TurkuState>
    requires annots.Valid() && n <= |annots.keys| && KeysNonEmpty(table)
  {
    if n == 0 then Ok(TurkuState([], 0, 0))
    else
      var key := annots.keys[n - 1];
      SentenceStep(TurkuRun(annots, preds, align, rows, table, ignoreBio, n - 1), annots.entries[key], preds.Get(key), align, rows, table, ignoreBio)
  }

  /** One row of the table: the TP, FP, TN and FN cells. */
  datatype Row = Row(tp: nat, fp: nat, tn: nat, fn: nat)

  function Bump(row: Row, c: Category): Row
  {
    match c
    case TP => row.(tp := row.tp + 1)
    case FP => row.(fp := row.fp + 1)
    case TN => row.(tn := row.tn + 1)
    case FN => row.(fn := row.fn + 1)
  }

  /** The row of `l` counts the observations of `l` in each category. */
  function RowOf(obs: seq<Observation>, l: string): Row
  {
    Row(Count(obs, (l, TP)), Count(obs, (l, FP)), Count(obs, (l, TN)), Count(obs, (l, FN)))
  }

  predicate Counted(counts: map<string, Row>, rows: set<string>, obs: seq<Observation>)
  {
    counts.Keys == rows && forall l :: l in counts ==> counts[l] == RowOf(obs, l)
  }

  lemma CountedSnoc(counts: map<string, Row>, rows: set<string>, obs: seq<Observation>, l: string, c: Category)
    requires Counted(counts, rows, obs) && l in rows
    ensures Counted(counts[l := Bump(counts[l], c)], rows, obs + [(l, c)])
  {
    var obs' := obs + [(l, c)];
    assert obs'[..|obs|] == obs;
    forall l' | l' in rows ensures counts[l := Bump(counts[l], c)][l'] == RowOf(obs', l') {
      assert Count(obs', (l', TP)) == Count(obs, (l', TP)) + (if (l, c) == (l', TP) then 1 else 0);
      assert Count(obs', (l', FP)) == Count(obs, (l', FP)) + (if (l, c) == (l', FP) then 1 else 0);
      assert Count(obs', (l', TN)) == Count(obs, (l', TN)) + (if (l, c) == (l', TN) then 1 else 0);
      assert Count(obs', (l', FN)) == Count(obs, (l', FN)) + (if (l, c) == (l', FN) then 1 else 0);
    }
  }

  lemma {:induction false} PairRunErrStays(st: Result<seq<Observation>>, ents: seq<Pair>, tk: seq<Pair>, rows: set<string>, table: Table, ignoreBio: bool, n: nat, m: nat)
    requires KeysNonEmpty(table) && n <= m <= |ents| && m <= |tk|
    requires PairRun(st, ents, tk, rows, table, ignoreBio, n).Err?
    ensures PairRun(st, ents, tk, rows, table, ignoreBio, m) == PairRun(st, ents, tk, rows, table, ignoreBio, n)
    decreases m - n
  {
    if n < m {
      PairRunErrStays(st, ents, tk, rows, table, ignoreBio, n, m - 1);
    }
  }

  lemma {:induction false} TurkuRunErrStays(annots: Dict<string, seq<Pair>>, preds: Dict<string, seq<Pair>>, align: Aligner,
                                            rows: set<string>, table: Table, ignoreBio: bool, n: nat, m: nat)
    requires annots.Valid() && n <= m <= |annots.keys| && KeysNonEmpty(table)
    requires TurkuRun(annots, preds, align, rows, table, ignoreBio, n).Err?
    ensures TurkuRun(annots, preds, align, rows, table, ignoreBio, m) == TurkuRun(annots, preds, align, rows, table, ignoreBio, n)
    decreases m - n
  {
    if n < m {
      TurkuRunErrStays(annots, preds, align, rows, table, ignoreBio, n, m - 1);
    }
  }

  /** The inner loop: counts one sentence's pairs into the table. */
  method CountPairs(counts: map<string, Row>, ghost obs: seq<Observation>, ents: seq<Pair>, tk: seq<Pair>,
                    rows: set<string>, table: Table, ignoreBio: bool) returns (r: Result<map<string, Row>>)
    requires KeysNonEmpty(table) && Counted(counts, rows, obs)
    ensures var spec := PairRun(Ok(obs), ents, tk, rows, table, ignoreBio, Min(|ents|, |tk|));
      && (r.Err? ==> spec == Err(r.error))
      && (r.Ok? ==> spec.Ok? && Counted(r.value, rows, spec.value))
  {
    var m := Min(|ents|, |tk|);
    var cur := counts;
    ghost var seen := obs;
    var j := 0;
    while j < m
      invariant j <= m
      invariant PairRun(Ok(obs), ents, tk, rows, table, ignoreBio, j) == Ok(seen)
      invariant Counted(cur, rows, seen)
    {
      var al := Normalize(ents[j].1, ignoreBio);
      if al.Err? {
        PairRunErrStays(Ok(obs), ents, tk, rows, table, ignoreBio, j + 1, m);
        return Err(al.error);
      }
      var tl := Normalize(tk[j].1, ignoreBio);
      if tl.Err? {
        PairRunErrStays(Ok(obs), ents, tk, rows, table, ignoreBio, j + 1, m);
        return Err(tl.error);
      }
      var t := ReplaceEquivalencies(tl.value, table);
      var c := ProcessRelationship(al.value, t);
      if al.value !in cur {
        PairRunErrStays(Ok(obs), ents, tk, rows, table, ignoreBio, j + 1, m);
        return Err(KeyError);
      }
      CountedSnoc(cur, rows, seen, al.value, c);
      cur := cur[al.value := Bump(cur[al.value], c)];
      seen := seen + [(al.value, c)];
      j := j + 1;
    }
    r := Ok(cur);
  }

  /** What the TurkuNER `evaluate` counts before the float statistics. */
  datatype Tally = Tally(counts: map<string, Row>, falses: nat, splits: nat)

  /** The body of the sentence loop of the TurkuNER `evaluate`. */
  method CountSentence(t: Tally, ghost obs: seq<Observation>, ents: seq<Pair>, turku: Option<seq<Pair>>, align: Aligner,
                       rows: set<string>, table: Table, ignoreBio: bool) returns (r: Result<Tally>)
    requires KeysNonEmpty(table) && Counted(t.counts, rows, obs)
    ensures var spec := SentenceStep(Ok(TurkuState(obs, t.falses, t.splits)), ents, turku, align, rows, table, ignoreBio);
      && (r.Err? ==> spec == Err(r.error))
      && (r.Ok? ==> (spec.Ok? && r.value.falses == spec.value.falses && r.value.splits == spec.value.splits
            && Counted(r.value.counts, rows, spec.value.observations)))
  {
    if turku.None? {
      return Err(KeyError);
    }
    var tk := turku.value;
    var aligned := ents;
    var splits := t.splits;
    if |ents| != |tk| {
      var (a2p, p2a) := align(Forms(ents), Forms(tk));
      var al := AlignAnnotations(ents, tk, a2p, p2a);
      if al.Err? {
        return Err(al.error);
      }
      if al.value.None? {
        return Ok(t.(falses := t.falses + 1));
      }
      aligned := al.value.value;
      splits := splits + 1;
    }
    var next := CountPairs(t.counts, obs, aligned, tk, rows, table, ignoreBio);
    if next.Err? {
      return Err(next.error);
    }
    r := Ok(Tally(next.value, t.falses, splits));
  }

  /**
   * The module constant `IGNORE_BIO` of the TurkuNER evaluation script,
   * which the counting loop reads instead of the `ignore_bio` parameter.
   */
  const LoopIgnoresBio: bool := false

  /**
   * The TurkuNER `evaluate(annotations, predictions, processor, ignore_bio)`
   * up to its table of counts, with `get_alignments` given as `align`.
   * The table's rows follow `ignore_bio`; the counting loop strips labels
   * only as `IGNORE_BIO` says.
   */
  method EvaluateTurku(annots: Dict<string, seq<Pair>>, preds: Dict<string, seq<Pair>>, align: Aligner, table: Table, ignoreBio: bool)
    returns (r: Result<Tally>)
    requires annots.Valid() && KeysNonEmpty(table)
    ensures var rows := LabelRows(annots.Values(), ignoreBio);
      && (rows.Err? ==> r == Err(rows.error))
      && (rows.Ok? ==> var spec := TurkuRun(annots, preds, align, rows.value, table, LoopIgnoresBio, |annots.keys|);
            && (r.Err? <==> spec.Err?)
            && (r.Err? ==> r.error == spec.error)
            && (r.Ok? ==> (r.value.falses == spec.value.falses && r.value.splits == spec.value.splits
                  && Counted(r.value.counts, rows.value, spec.value.observations))))
  {
    var rows := LabelRows(annots.Values(), ignoreBio);
    if rows.Err? {
      return Err(rows.error);
    }
    r := CountSentences(annots, preds, align, rows.value, table, LoopIgnoresBio);
  }

  /**
   * With `ignore_bio` the table has a row "PER" for an annotation "B-PER",
   * but the loop, which does not strip, looks up "B-PER" and raises
   * KeyError.
   */
  lemma IgnoreBioRowsMissed(table: Table, t: Pair)
    requires KeysNonEmpty(table)
    ensures LabelRows([[("Anna", "B-PER")]], true) == Ok({"PER"})
    ensures PairStep(Ok([]), ("Anna", "B-PER"), t, {"PER"}, table, LoopIgnoresBio) == Err(KeyError)
  {
    assert Flatten([[("Anna", "B-PER")]]) == [("Anna", "B-PER")];
    assert "B-PER" == "B" + ['-'] + "PER";
    SplitAtFirst("B", '-', "PER");
    assert IndexOf("PER", '-') == 3;
    assert Split("B-PER", '-') == ["B", "PER"];
    assert RemoveBio("B-PER") == Ok("PER");
    assert Normalize("B-PER", true) == Ok("PER");
    var ann: seq<(string, string)> := [("Anna", "B-PER")];
    assert ann[..|ann| - 1] == [] && ann[|ann| - 1].1 == "B-PER";
    assert AnnLabels(ann[..|ann| - 1], true) == Ok([]);
    assert [] + ["PER"] == ["PER"];
    assert AnnLabels([("Anna", "B-PER")], true) == Ok(["PER"]);
    assert (set l | l in ["PER"]) == {"PER"};
    assert "B-PER" != "PER";
  }

  /** The sentence loop of the TurkuNER `evaluate`, the table starting with a zero row per label. */
  method CountSentences(annots: Dict<string, seq<Pair>>, preds: Dict<string, seq<Pair>>, align: Aligner,
                        rows: set<string>, table: Table, ignoreBio: bool) returns (r: Result<Tally>)
    requires annots.Valid() && KeysNonEmpty(table)
    ensures var spec := TurkuRun(annots, preds, align, rows, table, ignoreBio, |annots.keys|);
      && (r.Err? <==> spec.Err?)
      && (r.Err? ==> r.error == spec.error)
      && (r.Ok? ==> (r.value.falses == spec.value.falses && r.value.splits == spec.value.splits
            && Counted(r.value.counts, rows, spec.value.observations)))
  {
    var tally := Tally(map l | l in rows :: Row(0, 0, 0, 0), 0, 0);
    ghost var seen: seq<Observation> := [];
    var n := 0;
    while n < |annots.keys|
      invariant n <= |annots.keys|
      invariant TurkuRun(annots, preds, align, rows, table, ignoreBio, n) == Ok(TurkuState(seen, tally.falses, tally.splits))
      invariant Counted(tally.counts, rows, seen)
    {
      var key := annots.keys[n];
      TurkuRunStep(annots, preds, align, rows, table, ignoreBio, n);
      var next := CountSentence(tally, seen, annots.entries[key], preds.Get(key), align, rows, table, ignoreBio);
      if next.Err? {
        TurkuRunErrStays(annots, preds, align, rows, table, ignoreBio, n + 1, |annots.keys|);
        return Err(next.error);
      }
      seen := TurkuRun(annots, preds, align, rows, table, ignoreBio, n + 1).value.observations;
      tally := next.value;
      n := n + 1;
    }
    r := Ok(tally);
  }

  lemma TurkuRunStep(annots: Dict<string, seq<Pair>>, preds: Dict<string, seq<Pair>>, align: Aligner,
                     rows: set<string>, table: Table, ignoreBio: bool, n: nat)
    requires annots.Valid() && n < |annots.keys| && KeysNonEmpty(table)
    ensures var key := annots.keys[n];
      TurkuRun(annots, preds, align, rows, table, ignoreBio, n + 1)
        == SentenceStep(TurkuRun(annots, preds, align, rows, table, ignoreBio, n), annots.entries[key], preds.Get(key), align, rows, table, ignoreBio)
  {
  }

  /** Every counted pair names a row label; each pair adds one observation. */
  lemma {:induction false} PairRunSpec(obs: seq<Observation>, ents: seq<Pair>, tk: seq<Pair>, rows: set<string>, table: Table, ignoreBio: bool, n: nat)
    requires KeysNonEmpty(table) && n <= |ents| && n <= |tk|
    requires forall o :: o in obs ==> o.0 in rows
    ensures var r := PairRun(Ok(obs), ents, tk, rows, table, ignoreBio, n);
      r.Ok? ==> |r.value| == |obs| + n && r.value[..|obs|] == obs && forall o :: o in r.value ==> o.0 in rows
  {
    if n > 0 {
      PairRunSpec(obs, ents, tk, rows, table, ignoreBio, n - 1);
    }
  }

  /**
   * Every observation the TurkuNER evaluation counts belongs to a row of
   * its table, and each sentence is counted at most once as a failed
   * alignment or as a split.
   */
  lemma {:induction false} TurkuRunSpec(annots: Dict<string, seq<Pair>>, preds: Dict<string, seq<Pair>>, align: Aligner,
                                        rows: set<string>, table: Table, ignoreBio: bool, n: nat)
    requires annots.Valid() && n <= |annots.keys| && KeysNonEmpty(table)
    ensures var r := TurkuRun(annots, preds, align, rows, table, ignoreBio, n);
      r.Ok? ==> r.value.falses + r.value.splits <= n && forall o :: o in r.value.observations ==> o.0 in rows
  {
    if n > 0 {
      TurkuRunSpec(annots, preds, align, rows, table, ignoreBio, n - 1);
      var prev := TurkuRun(annots, preds, align, rows, table, ignoreBio, n - 1);
      var key := annots.keys[n - 1];
      var ents := annots.entries[key];
      if prev.Ok? && preds.Get(key).Some? {
        var s, tk := prev.value, preds.Get(key).value;
        PairRunSpec(s.observations, ents, tk, rows, table, ignoreBio, Min(|ents|, |tk|));
        if |ents| != |tk| {
          var (a2p, p2a) := align(Forms(ents), Forms(tk));
          var al := AlignSpec(ents, tk, a2p, p2a);
          if al.Ok? && al.value.Some? {
            var aligned := al.value.value;
            PairRunSpec(s.observations, aligned, tk, rows, table, ignoreBio, Min(|aligned|, |tk|));
          }
        }
      }
    }
  }
}
