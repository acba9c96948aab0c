/**
 * `preprocess_and_clean_text`: three regular-expression substitutions run
 * in order. Runs of line breaks become one separator, every double quote
 * is padded with a space on each side, and every run of whitespace becomes
 * one space. Each substitution is written as a left-to-right scan that
 * carries whether the previous character belonged to the current run,
 * which is exactly what replacing maximal runs means.
 */
module TextClean {
  import opened Common

  predicate IsLineBreak(c: char)
  {
    c == '\r' || c == '\n'
  }

  /** `re.sub(r'[\r\n]+', [sep], s)`; `inRun` says the previous character was a line break. */
  function ReplaceLineBreaks(s: string, sep: char, inRun: bool): string
  {
    if s == [] then []
    else if IsLineBreak(s[0]) then (if inRun then [] else [sep]) + ReplaceLineBreaks(s[1..], sep, true)
    else [s[0]] + ReplaceLineBreaks(s[1..], sep, false)
  }

  /** `re.sub(r'"', ' " ', s)` */
  function PadQuotes(s: string): string
  {
    if s == [] then [] else (if s[0] == '"' then " \" " else [s[0]]) + PadQuotes(s[1..])
  }

  /** `re.sub(r'[\s]+', " ", s)`; `inRun` says the previous character was whitespace. */
  function CollapseSpaces(s: string, inRun: bool): string
  {
    if s == [] then []
    else if IsSpace(s[0]) then (if inRun then [] else [' ']) + CollapseSpaces(s[1..], true)
    else [s[0]] + CollapseSpaces(s[1..], false)
  }

  /** Whitespace is single plain spaces, no line breaks remain, and every quote stands between two spaces. */
  ghost predicate WellSpaced(r: string)
  {
    && (forall i :: 0 <= i < |r| && IsSpace(r[i]) ==> r[i] == ' ')
    && (forall i :: 0 <= i < |r| - 1 && r[i] == ' ' ==> r[i + 1] != ' ')
    && (forall i :: 0 <= i < |r| && r[i] == '"' ==> 0 < i < |r| - 1 && r[i - 1] == ' ' && r[i + 1] == ' ')
  }

  /** The characters of `s` that are not whitespace, in order. */
  function Visible(s: string): string
  {
    if s == [] then [] else (if IsSpace(s[0]) then [] else [s[0]]) + Visible(s[1..])
  }

  /** `preprocess_and_clean_text` of the Dutch, Slovenian and English pipelines. */
  function CleanText(text: string): (r: string)
    ensures WellSpaced(r)
    ensures Visible(r) == Visible(text)
  {
    var a := ReplaceLineBreaks(text, ' ', false);
    var b := PadQuotes(a);
    PadQuotesPadded(a, false);
    CollapseNormal(b, false);
    NormalWellSpaced(CollapseSpaces(b, false), false);
    VisibleLineBreaks(text, ' ', false);
    VisiblePadQuotes(a);
    VisibleCollapse(b, false);
    assert "" + CollapseSpaces(b, false) == CollapseSpaces(b, false);
    CollapseSpaces(b, false)
  }

  /**
   * The variant in `english/utils/nlp_common.py`: line-break runs become
   * "\n" rather than a space, and a fourth substitution there writes to a
   * variable that is never read, so it has no effect on the result.
   */
  function CleanTextKeepingLines(text: string): string
  {
    CollapseSpaces(PadQuotes(ReplaceLineBreaks(text, '\n', false)), false)
  }

  /** Cleaning twice is cleaning once. */
  lemma CleanTextIdempotent(text: string)
    ensures CleanText(CleanText(text)) == CleanText(text)
  {
    var y := CleanText(text);
    var b := PadQuotes(ReplaceLineBreaks(text, ' ', false));
    PadQuotesPadded(ReplaceLineBreaks(text, ' ', false), false);
    CollapseNormal(b, false);
    NormalHasNoLineBreak(y, false);
    LineBreaksUntouched(y, ' ', false);
    CollapsePadNormal(y, false);
  }

  /** Keeping "\n" for line breaks makes no difference: the last substitution turns it into a space. */
  lemma KeepingLinesAgrees(text: string)
    ensures CleanTextKeepingLines(text) == CleanText(text)
  {
    LineBreakSeparatorsAlike(text, false);
    PadQuotesAlike(ReplaceLineBreaks(text, '\n', false), ReplaceLineBreaks(text, ' ', false));
    CollapseAlike(PadQuotes(ReplaceLineBreaks(text, '\n', false)), PadQuotes(ReplaceLineBreaks(text, ' ', false)), false);
  }

  // ---- the shape of the intermediate and final strings ----

  /** Every quote follows whitespace (or `afterSpace` at the start) and is followed by whitespace. */
  predicate PaddedFrom(w: string, afterSpace: bool)
    decreases |w|
  {
    || w == []
    || (IsSpace(w[0]) && PaddedFrom(w[1..], true))
    || (w[0] == '"' && afterSpace && |w| > 1 && IsSpace(w[1]) && PaddedFrom(w[1..], false))
    || (!IsSpace(w[0]) && w[0] != '"' && PaddedFrom(w[1..], false))
  }

  /** The output form: single plain spaces, quotes between spaces; `afterSpace` says a space came just before. */
  predicate NormalFrom(y: string, afterSpace: bool)
    decreases |y|
  {
    || y == []
    || (y[0] == ' ' && !afterSpace && NormalFrom(y[1..], true))
    || (y[0] == '"' && afterSpace && |y| > 1 && y[1] == ' ' && NormalFrom(y[1..], false))
    || (!IsSpace(y[0]) && y[0] != '"' && NormalFrom(y[1..], false))
  }

  lemma {:induction false} PadQuotesPadded(v: string, afterSpace: bool)
    ensures PaddedFrom(PadQuotes(v), afterSpace)
    decreases |v|
  {
    if v != [] {
      var rest := PadQuotes(v[1..]);
      PadQuotesPadded(v[1..], true);
      PadQuotesPadded(v[1..], false);
      var w := PadQuotes(v);
      if v[0] == '"' {
        assert w == " \" " + rest;
        assert w[1..][1..][1..] == rest;
        assert PaddedFrom(w[1..][1..], false);
        assert PaddedFrom(w[1..], true);
      } else {
        assert w[1..] == rest;
      }
    }
  }

  lemma {:induction false} CollapseNormal(w: string, afterSpace: bool)
    requires PaddedFrom(w, afterSpace)
    ensures NormalFrom(CollapseSpaces(w, afterSpace), afterSpace)
    decreases |w|
  {
    if w != [] {
      var y := CollapseSpaces(w, afterSpace);
      if IsSpace(w[0]) {
        CollapseNormal(w[1..], true);
        var x := CollapseSpaces(w[1..], true);
        if afterSpace {
          assert y == x;
        } else {
          assert y == [' '] + x;
          assert y[1..] == x;
        }
      } else if w[0] == '"' {
        assert IsSpace(w[1]) && PaddedFrom(w[2..], true) by {
          assert w[1..][1..] == w[2..];
        }
        CollapseNormal(w[2..], true);
        var x := CollapseSpaces(w[2..], true);
        assert CollapseSpaces(w[1..], false) == [' '] + x by {
          assert w[1..][1..] == w[2..];
        }
        assert y == ['"', ' '] + x;
        assert y[1..][1..] == x;
        assert NormalFrom(y[1..], false);
      } else {
        CollapseNormal(w[1..], false);
        assert y == [w[0]] + CollapseSpaces(w[1..], false);
        assert y[1..] == CollapseSpaces(w[1..], false);
      }
    }
  }

  lemma {:induction false} CollapsePadNormal(y: string, afterSpace: bool)
    requires NormalFrom(y, afterSpace)
    ensures CollapseSpaces(PadQuotes(y), afterSpace) == y
    decreases |y|
  {
    if y != [] {
      var p := PadQuotes(y);
      if y[0] == ' ' {
        CollapsePadNormal(y[1..], true);
        assert p == [' '] + PadQuotes(y[1..]);
        assert p[1..] == PadQuotes(y[1..]);
      } else if y[0] == '"' {
        assert y[1] == ' ' && NormalFrom(y[2..], true) by {
          assert y[1..][1..] == y[2..];
        }
        CollapsePadNormal(y[2..], true);
        var r := PadQuotes(y[2..]);
        assert PadQuotes(y[1..]) == [' '] + r by {
          assert y[1..][1..] == y[2..];
        }
        assert p == [' ', '"', ' ', ' '] + r;
        assert p[4..] == r;
        assert p[3..][1..] == p[4..] && p[2..][1..] == p[3..] && p[1..][1..] == p[2..];
        assert CollapseSpaces(p[3..], true) == CollapseSpaces(r, true);
        assert CollapseSpaces(p[2..], false) == [' '] + CollapseSpaces(p[3..], true);
        assert CollapseSpaces(p[1..], true) == ['"'] + CollapseSpaces(p[2..], false);
        assert CollapseSpaces(p, true) == CollapseSpaces(p[1..], true);
        assert y == ['"', ' '] + y[2..];
      } else {
        CollapsePadNormal(y[1..], false);
        assert p == [y[0]] + PadQuotes(y[1..]);
        assert p[1..] == PadQuotes(y[1..]);
      }
    }
  }

  lemma {:induction false} NormalHasNoLineBreak(y: string, afterSpace: bool)
    requires NormalFrom(y, afterSpace)
    ensures forall i :: 0 <= i < |y| ==> !IsLineBreak(y[i])
    decreases |y|
  {
    if y != [] {
      NormalHasNoLineBreak(y[1..], y[0] == ' ');
      assert forall i :: 1 <= i < |y| ==> y[i] == y[1..][i - 1];
    }
  }

  lemma {:induction false} NormalWellSpaced(y: string, afterSpace: bool)
    requires NormalFrom(y, afterSpace)
    ensures WellSpaced((if afterSpace then " " else "") + y)
    ensures y != [] && y[0] == ' ' ==> !afterSpace
    ensures y != [] && y[0] == '"' ==> afterSpace
    decreases |y|
  {
    if y != [] {
      var t := y[1..];
      assert y == [y[0]] + t;
      NormalWellSpaced(t, y[0] == ' ');
      if y[0] == ' ' {
        assert (if afterSpace then " " else "") + y == y;
      } else if y[0] == '"' {
        assert NormalFrom(t, false) && t[0] == ' ';
        assert " " + y == [' ', '"'] + t;
        assert "" + t == t;
        WellSpacedQuote(t);
      } else {
        assert "" + t == t;
        WellSpacedCons(y[0], t);
        if afterSpace {
          WellSpacedSpace(y);
          assert " " + y == [' '] + y;
        } else {
          assert "" + y == y;
        }
      }
    }
  }

  lemma WellSpacedCons(c: char, t: string)
    requires WellSpaced(t) && !IsSpace(c) && c != '"'
    requires t != [] ==> t[0] != '"'
    ensures WellSpaced([c] + t)
  {
    var x := [c] + t;
    assert forall i :: 1 <= i < |x| ==> x[i] == t[i - 1];
  }

  lemma WellSpacedSpace(x: string)
    requires WellSpaced(x) && (x != [] ==> x[0] != ' ' && x[0] != '"')
    ensures WellSpaced([' '] + x)
  {
    var z := [' '] + x;
    assert forall i :: 1 <= i < |z| ==> z[i] == x[i - 1];
  }

  lemma WellSpacedQuote(t: string)
    requires WellSpaced(t) && t != [] && t[0] == ' '
    ensures WellSpaced([' ', '"'] + t)
  {
    var x := [' ', '"'] + t;
    assert forall i :: 2 <= i < |x| ==> x[i] == t[i - 2];
  }

  lemma {:induction false} LineBreaksUntouched(y: string, sep: char, inRun: bool)
    requires forall i :: 0 <= i < |y| ==> !IsLineBreak(y[i])
    ensures ReplaceLineBreaks(y, sep, inRun) == y
    decreases |y|
  {
    if y != [] {
      assert forall i :: 0 <= i < |y[1..]| ==> y[1..][i] == y[i + 1];
      LineBreaksUntouched(y[1..], sep, false);
    }
  }

  // ---- only whitespace changes ----

  lemma {:induction false} VisibleAppend(a: string, b: string)
    ensures Visible(a + b) == Visible(a) + Visible(b)
  {
    if a != [] {
      assert (a + b)[0] == a[0];
      assert (a + b)[1..] == a[1..] + b;
      VisibleAppend(a[1..], b);
      var h := if IsSpace(a[0]) then [] else [a[0]];
      assert Visible(a + b) == h + Visible(a[1..] + b);
      assert Visible(a) == h + Visible(a[1..]);
    } else {
      assert a + b == b;
    }
  }

  lemma {:induction false} VisibleLineBreaks(s: string, sep: char, inRun: bool)
    requires IsSpace(sep)
    ensures Visible(ReplaceLineBreaks(s, sep, inRun)) == Visible(s)
    decreases |s|
  {
    if s != [] {
      var head := if IsLineBreak(s[0]) then (if inRun then [] else [sep]) else [s[0]];
      VisibleLineBreaks(s[1..], sep, IsLineBreak(s[0]));
      VisibleAppend(head, ReplaceLineBreaks(s[1..], sep, IsLineBreak(s[0])));
    }
  }

  lemma {:induction false} VisiblePadQuotes(s: string)
    ensures Visible(PadQuotes(s)) == Visible(s)
  {
    if s != [] {
      VisiblePadQuotes(s[1..]);
      var head := if s[0] == '"' then " \" " else [s[0]];
      VisibleAppend(head, PadQuotes(s[1..]));
      if s[0] == '"' {
        assert Visible(head) == ['"'] by {
          assert head[1..][1..][1..] == [];
          assert Visible(head[1..][1..]) == [];
          assert Visible(head[1..]) == ['"'];
        }
      }
    }
  }

  lemma {:induction false} VisibleCollapse(s: string, inRun: bool)
    ensures Visible(CollapseSpaces(s, inRun)) == Visible(s)
    decreases |s|
  {
    if s != [] {
      var head := if IsSpace(s[0]) then (if inRun then [] else [' ']) else [s[0]];
      VisibleCollapse(s[1..], IsSpace(s[0]));
      VisibleAppend(head, CollapseSpaces(s[1..], IsSpace(s[0])));
    }
  }

  // ---- strings that differ only in which whitespace character they use ----

  predicate AlikeUpToSpaces(a: string, b: string)
    decreases |a|
  {
    |a| == |b| && (a == [] || ((a[0] == b[0] || (IsSpace(a[0]) && IsSpace(b[0]))) && AlikeUpToSpaces(a[1..], b[1..])))
  }

  lemma {:induction false} LineBreakSeparatorsAlike(s: string, inRun: bool)
    ensures AlikeUpToSpaces(ReplaceLineBreaks(s, '\n', inRun), ReplaceLineBreaks(s, ' ', inRun))
    decreases |s|
  {
    if s != [] {
      LineBreakSeparatorsAlike(s[1..], IsLineBreak(s[0]));
      var a := ReplaceLineBreaks(s, '\n', inRun);
      var b := ReplaceLineBreaks(s, ' ', inRun);
      var a', b' := ReplaceLineBreaks(s[1..], '\n', IsLineBreak(s[0])), ReplaceLineBreaks(s[1..], ' ', IsLineBreak(s[0]));
      if IsLineBreak(s[0]) && inRun {
        assert a == a' && b == b';
      } else {
        assert a == [a[0]] + a' && b == [b[0]] + b';
        assert a[1..] == a' && b[1..] == b';
        AlikeLength(a', b');
      }
    }
  }

  lemma {:induction false} AlikeLength(a: string, b: string)
    requires AlikeUpToSpaces(a, b)
    ensures |a| == |b|
  {
  }

  lemma {:induction false} PadQuotesAlike(a: string, b: string)
    requires AlikeUpToSpaces(a, b)
    ensures AlikeUpToSpaces(PadQuotes(a), PadQuotes(b))
    decreases |a|
  {
    if a != [] {
      PadQuotesAlike(a[1..], b[1..]);
      var ra, rb := PadQuotes(a[1..]), PadQuotes(b[1..]);
      if a[0] == '"' {
        assert b[0] == '"';
        var pa, pb := PadQuotes(a), PadQuotes(b);
        assert pa[1..][1..][1..] == ra && pb[1..][1..][1..] == rb;
        assert AlikeUpToSpaces(pa[1..][1..], pb[1..][1..]);
        assert AlikeUpToSpaces(pa[1..], pb[1..]);
      } else if b[0] == '"' {
        assert false;
      } else {
        assert PadQuotes(a)[1..] == ra && PadQuotes(b)[1..] == rb;
      }
    }
  }

  lemma {:induction false} CollapseAlike(a: string, b: string, inRun: bool)
    requires AlikeUpToSpaces(a, b)
    ensures CollapseSpaces(a, inRun) == CollapseSpaces(b, inRun)
    decreases |a|
  {
    if a != [] {
      CollapseAlike(a[1..], b[1..], IsSpace(a[0]));
    }
  }
}
