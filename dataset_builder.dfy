/**
 * Rebuilding the running text of the Finnish evaluation corpus from its
 * semicolon-separated token table: rows are grouped into sentences where
 * the `ord` column goes down, words are joined with a space except
 * punctuation, NER labels can be appended in brackets, and the sentences
 * can be windowed with `offset` and `limit`. Also the set of entity types
 * that occur in the table's label column.
 */
module DatasetBuilder {
  import opened Common

  /** One CSV row: the columns `ord`, `word`, `1` and `2`. */
  datatype CsvRow = CsvRow(ord: string, word: string, first: string, second: string)

  /** `word in punct`: a single punctuation character other than '('. */
  predicate AttachesLeft(word: string)
  {
    |word| == 1 && IsPunct(word[0]) && word[0] != '('
  }

  /** What a word adds to the open sentence: punctuation attaches, anything else gets a leading space. */
  function Piece(word: string): (p: string)
    ensures AttachesLeft(word) ==> p == word
    ensures !AttachesLeft(word) ==> p == " " + word
  {
    if AttachesLeft(word) then word else " " + word
  }

  /**
   * The word with its NER labels when `label` is set: nothing when column
   * `1` is '0', "[l1]", or "[l1|l2]" when column `2` is neither '0' nor `l1`.
   */
  function LabelledWord(row: CsvRow, labelled: bool): (w: string)
    ensures !labelled || row.first == "0" ==> w == row.word
    ensures labelled && row.first != "0" && row.second != "0" && row.second != row.first ==>
      w == row.word + "[" + row.first + "|" + row.second + "]"
    ensures labelled && row.first != "0" && (row.second == "0" || row.second == row.first) ==>
      w == row.word + "[" + row.first + "]"
  {
    if labelled && row.first != "0" then
      var nerLabel := if row.second != "0" && row.second != row.first then row.first + "|" + row.second else row.first;
      row.word + "[" + nerLabel + "]"
    else row.word
  }

  /** `sentence.replace('( ', '(')`, applied to every sentence on output. */
  function Yielded(sentence: string): string
  {
    ReplaceAll(sentence, "( ", "(")
  }

  /**
   * The generator's state: the open sentence, the last `ord` seen, the
   * number of sentences closed so far, what was yielded, and whether the
   * limit stopped it.
   */
  datatype CsvState = CsvState(sentence: string, current: int, index: nat, out: seq<string>, stopped: bool)

  const CsvStart: CsvState := CsvState("", -1, 0, [], false)

  /** One row; `limit` 0 stands for both `None` and 0, which are falsy alike. */
  function CsvStep(st: CsvState, row: CsvRow, limit: int, labelled: bool, offset: int): (r: Result<CsvState>)
    requires !st.stopped
    ensures r.Ok? && !r.value.stopped ==> r.value.index == st.index || r.value.index == st.index + 1
    ensures r.Ok? ==> |st.out| <= |r.value.out| <= |st.out| + 1 && r.value.index >= st.index
    ensures r.Ok? && r.value.stopped ==> r.value.out == st.out && r.value.index == st.index && limit != 0 && st.index >= limit
    ensures r.Ok? && !r.value.stopped && limit != 0 ==> st.index < limit || r.value == st
    ensures r.Ok? && |r.value.out| > |st.out| ==> r.value.index == st.index + 1
  {
    if row.ord == "" then Ok(st)
    else if limit != 0 && st.index >= limit then Ok(st.(stopped := true))
    else
      match ParseInt(row.ord)
      case Err(e) => Err(e)
      case Ok(indx) =>
        var word := LabelledWord(row, labelled);
        if indx < st.current then
          var out := if st.index >= offset then st.out + [Yielded(st.sentence) + "\n"] else st.out;
          Ok(CsvState(word, indx, st.index + 1, out, false))
        else Ok(CsvState(st.sentence + Piece(word), indx, st.index, st.out, false))
  }

  /** The state after one more row; an error or a stop stays. */
  function CsvAfter(r: Result<CsvState>, row: CsvRow, limit: int, labelled: bool, offset: int): Result<CsvState>
  {
    if r.Err? || r.value.stopped then r else CsvStep(r.value, row, limit, labelled, offset)
  }

  function CsvRun(rows: seq<CsvRow>, limit: int, labelled: bool, offset: int): Result<CsvState>
  {
    if rows == [] then Ok(CsvStart)
    else CsvAfter(CsvRun(rows[..|rows| - 1], limit, labelled, offset), rows[|rows| - 1], limit, labelled, offset)
  }

  /** After the last row the open sentence is yielded, without '\n', when non-empty; not after a stop. */
  function CsvFinish(st: CsvState, offset: int): seq<string>
  {
    if st.stopped then st.out
    else if st.sentence != "" && st.index >= offset then st.out + [Yielded(st.sentence)]
    else st.out
  }

  /** Everything `_yield_csv_sentences` yields for the table's rows. */
  function CsvSentencesSpec(rows: seq<CsvRow>, limit: int, labelled: bool, offset: int): Result<seq<string>>
  {
    match CsvRun(rows, limit, labelled, offset)
    case Err(e) => Err(e)
    case Ok(st) => Ok(CsvFinish(st, offset))
  }

  lemma CsvRunSnoc(rows: seq<CsvRow>, row: CsvRow, limit: int, labelled: bool, offset: int)
    ensures CsvRun(rows + [row], limit, labelled, offset) == CsvAfter(CsvRun(rows, limit, labelled, offset), row, limit, labelled, offset)
  {
    assert (rows + [row])[..|rows|] == rows;
  }

  lemma {:induction false} CsvStays(rows: seq<CsvRow>, n: nat, limit: int, labelled: bool, offset: int)
    requires n <= |rows|
    requires var r := CsvRun(rows[..n], limit, labelled, offset); r.Err? || r.value.stopped
    ensures CsvRun(rows, limit, labelled, offset) == CsvRun(rows[..n], limit, labelled, offset)
    decreases |rows| - n
  {
    if n < |rows| {
      assert rows[..n + 1][..n] == rows[..n];
      CsvStays(rows, n + 1, limit, labelled, offset);
    } else {
      assert rows[..n] == rows;
    }
  }

  /** The body of the generator's loop for one row; a stop is the `return` on reaching the limit. */
  method CsvLine(sentence: string, currentIndex: int, sentenceIndex: nat, out: seq<string>, row: CsvRow,
                 limit: int, labelled: bool, offset: int) returns (r: Result<CsvState>)
    ensures r == CsvStep(CsvState(sentence, currentIndex, sentenceIndex, out, false), row, limit, labelled, offset)
  {
    if row.ord == "" {
      return Ok(CsvState(sentence, currentIndex, sentenceIndex, out, false));
    }
    if limit != 0 && sentenceIndex >= limit {
      return Ok(CsvState(sentence, currentIndex, sentenceIndex, out, true));
    }
    var indx := ParseInt(row.ord);
    if indx.Err? {
      return Err(indx.error);
    }
    var word := row.word;
    if labelled {
      var l1, l2 := row.first, row.second;
      if l1 != "0" {
        var nerLabel := if l2 != "0" && l2 != l1 then l1 + "|" + l2 else l1;
        word := word + "[" + nerLabel + "]";
      }
    }
    if indx.value < currentIndex {
      var yielded := if sentenceIndex >= offset then out + [Yielded(sentence) + "\n"] else out;
      r := Ok(CsvState(word, indx.value, sentenceIndex + 1, yielded, false));
    } else {
      r := Ok(CsvState(sentence + (if AttachesLeft(word) then word else " " + word), indx.value, sentenceIndex, out, false));
    }
  }

  /** `_yield_csv_sentences(datafile, limit, labelled, offset)`, the file given as its rows, drained into a list. */
  method YieldCsvSentences(rows: seq<CsvRow>, limit: int, labelled: bool, offset: int) returns (r: Result<seq<string>>)
    ensures r == CsvSentencesSpec(rows, limit, labelled, offset)
  {
    var sentence := "";
    var currentIndex := -1;
    var sentenceIndex: nat := 0;
    var out := [];
    var k := 0;
    while k < |rows|
      invariant k <= |rows|
      invariant CsvRun(rows[..k], limit, labelled, offset) == Ok(CsvState(sentence, currentIndex, sentenceIndex, out, false))
    {
      var row := rows[k];
      assert rows[..k + 1] == rows[..k] + [row];
      CsvRunSnoc(rows[..k], row, limit, labelled, offset);
      var next := CsvLine(sentence, currentIndex, sentenceIndex, out, row, limit, labelled, offset);
      if next.Err? || next.value.stopped {
        CsvStays(rows, k + 1, limit, labelled, offset);
        return if next.Err? then Err(next.error) else Ok(out);
      }
      sentence, currentIndex, sentenceIndex, out := next.value.sentence, next.value.current, next.value.index, next.value.out;
      k := k + 1;
    }
    assert rows[..k] == rows;
    r := Ok(CsvFinish(CsvState(sentence, currentIndex, sentenceIndex, out, false), offset));
  }

  // ---- an independent description of the sentences ----

  /** The rows with an `ord`, as (ord, word) pairs; a non-integer `ord` raises ValueError. */
  function Entries(rows: seq<CsvRow>, labelled: bool): Result<seq<(int, string)>>
  {
    if rows == [] then Ok([])
    else
      var last := rows[|rows| - 1];
      match Entries(rows[..|rows| - 1], labelled)
      case Err(e) => Err(e)
      case Ok(es) =>
        if last.ord == "" then Ok(es)
        else
          match ParseInt(last.ord)
          case Err(e) => Err(e)
          case Ok(i) => Ok(es + [(i, LabelledWord(last, labelled))])
  }

  function LastOrd(es: seq<(int, string)>): int
  {
    if es == [] then -1 else es[|es| - 1].0
  }

  /**
   * The sentences as word groups: a new group starts at every entry whose
   * `ord` is below its predecessor's (below -1 for the first entry); only
   * the first group can be empty.
   */
  function Groups(es: seq<(int, string)>): (gs: seq<seq<string>>)
    ensures |gs| >= 1
    ensures forall i :: 0 < i < |gs| ==> gs[i] != []
  {
    if es == [] then [[]]
    else
      var gs := Groups(es[..|es| - 1]);
      var e := es[|es| - 1];
      if e.0 < LastOrd(es[..|es| - 1]) then gs + [[e.1]]
      else gs[..|gs| - 1] + [gs[|gs| - 1] + [e.1]]
  }

  /** The words of the entries, in order. */
  function Words(es: seq<(int, string)>): (ws: seq<string>)
    ensures |ws| == |es| && forall i :: 0 <= i < |es| ==> ws[i] == es[i].1
  {
    seq(|es|, i requires 0 <= i < |es| => es[i].1)
  }

  /** Grouping keeps every word, in order. */
  lemma {:induction false} GroupsKeepWords(es: seq<(int, string)>)
    ensures Flatten(Groups(es)) == Words(es)
  {
    if es != [] {
      var pre, e := es[..|es| - 1], es[|es| - 1];
      GroupsKeepWords(pre);
      var gs := Groups(pre);
      assert Words(es) == Words(pre) + [e.1];
      if e.0 < LastOrd(pre) {
        FlattenSnoc(gs, [e.1]);
      } else {
        var n := |gs| - 1;
        assert gs == gs[..n] + [gs[n]];
        FlattenSnoc(gs[..n], gs[n]);
        FlattenSnoc(gs[..n], gs[n] + [e.1]);
      }
    }
  }

  /** The text of group `i`: the first word of a later sentence is bare, every other word is a `Piece`. */
  function Text(i: nat, g: seq<string>): string
  {
    if g == [] then ""
    else if |g| == 1 && i > 0 then g[0]
    else Text(i, g[..|g| - 1]) + Piece(g[|g| - 1])
  }

  /** The closed groups at or after `offset`, each ending in '\n'. */
  function Closed(gs: seq<seq<string>>, offset: int): seq<string>
  {
    if gs == [] then []
    else
      var n := |gs| - 1;
      Closed(gs[..n], offset) + (if n >= offset then [Yielded(Text(n, gs[n])) + "\n"] else [])
  }

  /** All groups but the last are closed; the last is yielded bare when non-empty and not before `offset`. */
  function Rendered(gs: seq<seq<string>>, offset: int): seq<string>
    requires |gs| >= 1
  {
    var n := |gs| - 1;
    Closed(gs[..n], offset) + (if Text(n, gs[n]) != "" && n >= offset then [Yielded(Text(n, gs[n]))] else [])
  }

  /** The generator's state after entries `es` without a limit, in terms of their groups. */
  predicate Grouped(r: Result<CsvState>, es: seq<(int, string)>, offset: int)
  {
    var gs := Groups(es);
    var n := |gs| - 1;
    && r.Ok? && !r.value.stopped && r.value.index == n && r.value.current == LastOrd(es)
    && r.value.sentence == Text(n, gs[n]) && r.value.out == Closed(gs[..n], offset)
  }

  lemma GroupedStep(st: CsvState, es: seq<(int, string)>, row: CsvRow, labelled: bool, offset: int)
    requires Grouped(Ok(st), es, offset) && row.ord != "" && ParseInt(row.ord).Ok?
    ensures Grouped(CsvStep(st, row, 0, labelled, offset), es + [(ParseInt(row.ord).value, LabelledWord(row, labelled))], offset)
  {
    var gs := Groups(es);
    var n := |gs| - 1;
    var i := ParseInt(row.ord).value;
    var w := LabelledWord(row, labelled);
    var es' := es + [(i, w)];
    assert es'[..|es'| - 1] == es;
    if i < LastOrd(es) {
      var gs' := gs + [[w]];
      var out := if st.index >= offset then st.out + [Yielded(st.sentence) + "\n"] else st.out;
      assert CsvStep(st, row, 0, labelled, offset) == Ok(CsvState(w, i, st.index + 1, out, false));
      assert Groups(es') == gs';
      assert gs'[..n + 1] == gs;
      assert gs == gs[..n] + [gs[n]];
    } else {
      var gs' := gs[..n] + [gs[n] + [w]];
      assert CsvStep(st, row, 0, labelled, offset) == Ok(CsvState(st.sentence + Piece(w), i, st.index, st.out, false));
      assert Groups(es') == gs';
      assert gs'[..n] == gs[..n];
      assert (gs[n] + [w])[..|gs[n]|] == gs[n];
    }
  }

  lemma {:induction false} CsvRunGroups(rows: seq<CsvRow>, labelled: bool, offset: int)
    requires Entries(rows, labelled).Ok?
    ensures Grouped(CsvRun(rows, 0, labelled, offset), Entries(rows, labelled).value, offset)
  {
    if rows != [] {
      var pre, last := rows[..|rows| - 1], rows[|rows| - 1];
      CsvRunGroups(pre, labelled, offset);
      if last.ord != "" {
        GroupedStep(CsvRun(pre, 0, labelled, offset).value, Entries(pre, labelled).value, last, labelled, offset);
      }
    }
  }

  /** Without a limit, the generator yields exactly the rendered groups of the rows that have an `ord`. */
  lemma CsvSentencesGrouped(rows: seq<CsvRow>, labelled: bool, offset: int)
    requires Entries(rows, labelled).Ok?
    ensures CsvSentencesSpec(rows, 0, labelled, offset) == Ok(Rendered(Groups(Entries(rows, labelled).value), offset))
  {
    CsvRunGroups(rows, labelled, offset);
    var st := CsvRun(rows, 0, labelled, offset).value;
    var gs := Groups(Entries(rows, labelled).value);
    var n := |gs| - 1;
    assert st.sentence == Text(n, gs[n]) && st.index == n;
    assert st.out + [] == st.out;
  }

  /** A row with an `ord` that is not an integer fails the generator exactly when it is reached before a stop. */
  lemma {:induction false} CsvEntriesErr(rows: seq<CsvRow>, labelled: bool, offset: int)
    requires Entries(rows, labelled).Err?
    ensures CsvSentencesSpec(rows, 0, labelled, offset) == Err(ValueError)
  {
    var pre, last := rows[..|rows| - 1], rows[|rows| - 1];
    if Entries(pre, labelled).Err? {
      CsvEntriesErr(pre, labelled, offset);
    } else {
      CsvRunGroups(pre, labelled, offset);
    }
  }

  // ---- the limit ----

  lemma {:induction false} CsvRunBounds(rows: seq<CsvRow>, limit: int, labelled: bool, offset: int)
    requires limit > 0 && CsvRun(rows, limit, labelled, offset).Ok?
    ensures var st := CsvRun(rows, limit, labelled, offset).value;
      st.index <= limit && |st.out| <= st.index && (st.stopped ==> st.index == limit)
  {
    if rows != [] {
      CsvRunBounds(rows[..|rows| - 1], limit, labelled, offset);
    }
  }

  /** As written, a truthy limit still lets one sentence more through. */
  lemma CsvLimitAsWritten(rows: seq<CsvRow>, limit: int, labelled: bool, offset: int)
    requires limit > 0 && CsvSentencesSpec(rows, limit, labelled, offset).Ok?
    ensures |CsvSentencesSpec(rows, limit, labelled, offset).value| <= limit + 1
  {
    CsvRunBounds(rows, limit, labelled, offset);
  }

  lemma ParseDigit(s: string, d: nat)
    requires d < 10 && s == [DigitChar(d)]
    ensures ParseInt(s) == Ok(d)
  {
    assert !IsSpace(s[0]);
    assert LStrip(s) == s && RStrip(s) == s;
    assert s[..0] == [];
    assert DigitsValue(s) == d;
  }

  lemma ParseSmall()
    ensures ParseInt("1") == Ok(1) && ParseInt("2") == Ok(2)
  {
    ParseDigit("1", 1);
    ParseDigit("2", 2);
  }

  /** The three steps of the example below. */
  lemma ExampleSteps(r1: CsvRow, r2: CsvRow, r3: CsvRow)
    requires r1 == CsvRow("1", "a", "0", "0") && r2 == CsvRow("2", "b", "0", "0") && r3 == CsvRow("1", "c", "0", "0")
    ensures CsvStep(CsvStart, r1, 1, false, -1) == Ok(CsvState(" a", 1, 0, [], false))
    ensures CsvStep(CsvState(" a", 1, 0, [], false), r2, 1, false, -1) == Ok(CsvState(" a b", 2, 0, [], false))
    ensures CsvStep(CsvState(" a b", 2, 0, [], false), r3, 1, false, -1) == Ok(CsvState("c", 1, 1, [" a b\n"], false))
  {
    ParseSmall();
    assert !AttachesLeft("a") && !AttachesLeft("b");
    assert "" + Piece("a") == " a" && " a" + Piece("b") == " a b";
    assert Yielded(" a b") == " a b";
    assert " a b" + "\n" == " a b\n";
    assert [] + [" a b\n"] == [" a b\n"];
  }

  /** Limit 1 on the rows 1, 2, 1: the final one-row sentence is yielded after the limit was reached. */
  lemma CsvLimitExceeded()
    ensures var rows := [CsvRow("1", "a", "0", "0"), CsvRow("2", "b", "0", "0"), CsvRow("1", "c", "0", "0")];
      CsvSentencesSpec(rows, 1, false, -1) == Ok([" a b\n", "c"])
  {
    var r1, r2, r3 := CsvRow("1", "a", "0", "0"), CsvRow("2", "b", "0", "0"), CsvRow("1", "c", "0", "0");
    var rows := [r1, r2, r3];
    ExampleSteps(r1, r2, r3);
    assert [r1][..0] == [];
    assert CsvRun([r1], 1, false, -1) == Ok(CsvState(" a", 1, 0, [], false));
    assert [r1, r2][..1] == [r1];
    assert CsvRun([r1, r2], 1, false, -1) == Ok(CsvState(" a b", 2, 0, [], false));
    assert rows[..2] == [r1, r2];
    var s3 := CsvState("c", 1, 1, [" a b\n"], false);
    assert CsvRun(rows, 1, false, -1) == Ok(s3);
    assert Yielded("c") == "c";
    assert CsvFinish(s3, -1) == [" a b\n", "c"];
  }

  /** The final sentence is held back as well once the limit is reached. */
  function CsvFinishCorrected(st: CsvState, limit: int, offset: int): seq<string>
  {
    if limit != 0 && st.index >= limit then st.out else CsvFinish(st, offset)
  }

  function CsvSentencesCorrected(rows: seq<CsvRow>, limit: int, labelled: bool, offset: int): Result<seq<string>>
  {
    match CsvRun(rows, limit, labelled, offset)
    case Err(e) => Err(e)
    case Ok(st) => Ok(CsvFinishCorrected(st, limit, offset))
  }

  /** With the correction a positive limit bounds the number of sentences, and without a limit nothing changes. */
  lemma CsvCorrectedWithinLimit(rows: seq<CsvRow>, limit: int, labelled: bool, offset: int)
    ensures limit > 0 && CsvSentencesCorrected(rows, limit, labelled, offset).Ok? ==>
      |CsvSentencesCorrected(rows, limit, labelled, offset).value| <= limit
    ensures CsvSentencesCorrected(rows, 0, labelled, offset) == CsvSentencesSpec(rows, 0, labelled, offset)
  {
    if limit > 0 && CsvRun(rows, limit, labelled, offset).Ok? {
      CsvRunBounds(rows, limit, labelled, offset);
    }
  }

  // ---- _get_csv_labels ----

  /** `lab.split('-')[-1]` */
  function LastPiece(lab: string): (x: string)
    ensures '-' !in x
  {
    var parts := Split(lab, '-');
    SplitNoSep(lab, '-');
    assert parts[|parts| - 1] in parts;
    parts[|parts| - 1]
  }

  /** The last piece is the tail of the label after its last '-', or the whole label. */
  lemma {:induction false} LastPieceSuffix(lab: string)
    ensures var x := LastPiece(lab);
      |x| <= |lab| && lab[|lab| - |x|..] == x && (|x| == |lab| || lab[|lab| - |x| - 1] == '-')
    decreases |lab|
  {
    var k := IndexOf(lab, '-');
    if k < |lab| {
      var t := lab[k + 1..];
      LastPieceSuffix(t);
      var rest := Split(t, '-');
      assert Split(lab, '-') == [lab[..k]] + rest;
      assert LastPiece(lab) == LastPiece(t);
    }
  }

  /** The label column values of one file: `{row['1'] for row in reader}`. */
  function FileLabels(file: seq<CsvRow>): (ls: set<string>)
    ensures forall l :: l in ls <==> exists j :: 0 <= j < |file| && file[j].first == l
  {
    set j | 0 <= j < |file| :: file[j].first
  }

  /** `_get_csv_labels(datafile)`, the files given as their rows; the returned list's order is not modelled. */
  method GetCsvLabels(files: seq<seq<CsvRow>>) returns (r: set<string>)
    ensures forall x :: x in r <==>
      (x != "" && exists i, j :: 0 <= i < |files| && 0 <= j < |files[i]| && files[i][j].first != "0" && LastPiece(files[i][j].first) == x)
  {
    var labels: set<string> := {};
    var k := 0;
    while k < |files|
      invariant k <= |files|
      invariant forall l :: l in labels <==> exists i, j :: 0 <= i < k && 0 <= j < |files[i]| && files[i][j].first == l
    {
      labels := labels + FileLabels(files[k]);
      k := k + 1;
    }
    r := (set lab | lab in labels && lab != "0" :: LastPiece(lab)) - {""};
  }
}
