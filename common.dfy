/**
 * Shared vocabulary of the model: optional values, Python exceptions as
 * error results, and the handful of Python `str` operations the pipelines
 * rely on, each with Python's own edge cases (empty pieces in `split`,
 * negative slice bounds, `find` returning -1, Unicode whitespace).
 */
module Common {

  datatype Option<T> = None | Some(value: T)

  /** The Python exceptions that the modelled code can raise. */
  datatype PyError = IndexError | KeyError | ValueError | AssertionError | NameError

  datatype Result<T> = Ok(value: T) | Err(error: PyError)

  /** Python truthiness of an optional string: `None` and `""` are falsy. */
  predicate Truthy(o: Option<string>)
  {
    o.Some? && |o.value| > 0
  }

  /** `c.isspace()`, which is also what `\s` matches in a `str` regex. */
  predicate IsSpace(c: char)
  {
    c == ' ' || ('\t' <= c <= '\r') || ('\U{1c}' <= c <= '\U{1f}') || c == '\U{85}'
    || c == '\U{a0}' || c == '\U{1680}' || ('\U{2000}' <= c <= '\U{200a}') || c == '\U{2028}'
    || c == '\U{2029}' || c == '\U{202f}' || c == '\U{205f}' || c == '\U{3000}'
  }

  /** Membership in Python's `string.punctuation`. */
  predicate IsPunct(c: char)
  {
    ('!' <= c <= '/') || (':' <= c <= '@') || ('[' <= c <= '`') || ('{' <= c <= '~')
  }

  /** `s.startswith(prefix)` */
  predicate StartsWith(s: string, prefix: string)
  {
    |prefix| <= |s| && s[..|prefix|] == prefix
  }

  /** `s.startswith(c)` for a one-character prefix `c`. */
  predicate HeadIs(s: string, c: char)
  {
    |s| > 0 && s[0] == c
  }

  lemma HeadIsStartsWith(s: string, c: char)
    ensures HeadIs(s, c) <==> StartsWith(s, [c])
  {
    if |s| > 0 {
      assert s[..1] == [s[0]];
    }
  }

  /** `sub in s` */
  predicate Contains(s: string, sub: string)
    decreases |s|
  {
    StartsWith(s, sub) || (|s| > 0 && Contains(s[1..], sub))
  }

  /** Position of the first `c` in `s`, or `|s|` when there is none. */
  function IndexOf(s: string, c: char): (k: nat)
    ensures k <= |s|
    ensures forall j :: 0 <= j < k ==> s[j] != c
    ensures k < |s| ==> s[k] == c
  {
    if s == [] then 0 else if s[0] == c then 0 else 1 + IndexOf(s[1..], c)
  }

  /** `s.split(sep)` for a one-character separator. */
  function Split(s: string, sep: char): (parts: seq<string>)
    ensures |parts| >= 1
    decreases |s|
  {
    var k := IndexOf(s, sep);
    if k == |s| then [s] else [s[..k]] + Split(s[k + 1..], sep)
  }

  /** `sep.join(parts)` */
  function Join(parts: seq<string>, sep: string): string
  {
    if parts == [] then "" else if |parts| == 1 then parts[0] else parts[0] + sep + Join(parts[1..], sep)
  }

  /** No piece of a split contains the separator. */
  lemma {:induction false} SplitNoSep(s: string, sep: char)
    ensures forall p :: p in Split(s, sep) ==> sep !in p
    decreases |s|
  {
    var k := IndexOf(s, sep);
    if k < |s| {
      SplitNoSep(s[k + 1..], sep);
    }
  }

  lemma JoinCons(a: string, rest: seq<string>, sep: string)
    requires rest != []
    ensures Join([a] + rest, sep) == a + sep + Join(rest, sep)
  {
    var parts := [a] + rest;
    assert parts[0] == a && parts[1..] == rest;
  }

  lemma {:induction false} JoinSplit(s: string, sep: char)
    ensures Join(Split(s, sep), [sep]) == s
    decreases |s|
  {
    var k := IndexOf(s, sep);
    if k < |s| {
      var rest := Split(s[k + 1..], sep);
      JoinSplit(s[k + 1..], sep);
      JoinCons(s[..k], rest, [sep]);
      assert s == s[..k] + [sep] + s[k + 1..];
    }
  }

  lemma {:induction false} SplitJoin(parts: seq<string>, sep: char)
    requires |parts| >= 1
    requires forall p :: p in parts ==> sep !in p
    ensures Split(Join(parts, [sep]), sep) == parts
  {
    var s := Join(parts, [sep]);
    assert sep !in parts[0];
    if |parts| > 1 {
      var rest := Join(parts[1..], [sep]);
      assert s == parts[0] + ([sep] + rest);
      IndexOfPrefix(parts[0], sep, [sep] + rest);
      assert s[..|parts[0]|] == parts[0];
      assert s[|parts[0]| + 1..] == rest;
      assert forall p :: p in parts[1..] ==> p in parts;
      SplitJoin(parts[1..], sep);
      var k := IndexOf(s, sep);
      assert k == |parts[0]| < |s|;
      assert Split(s, sep) == [s[..k]] + Split(s[k + 1..], sep);
      assert parts == [parts[0]] + parts[1..];
    } else {
      IndexOfPrefix(parts[0], sep, []);
      assert parts[0] + [] == parts[0];
    }
  }

  /** The first separator cuts off the first piece. */
  lemma SplitAtFirst(a: string, sep: char, b: string)
    requires sep !in a
    ensures Split(a + [sep] + b, sep) == [a] + Split(b, sep)
  {
    var s := a + [sep] + b;
    IndexOfPrefix(a, sep, [sep] + b);
    assert s == a + ([sep] + b);
    assert s[..|a|] == a && s[|a| + 1..] == b;
  }

  /** `s.split(sep)` has a second piece exactly when `sep` occurs in `s`. */
  lemma SplitHasSecond(s: string, sep: char)
    ensures |Split(s, sep)| >= 2 <==> sep in s
  {
    var k := IndexOf(s, sep);
    if sep in s {
      var j :| 0 <= j < |s| && s[j] == sep;
      assert k <= j;
    }
  }

  lemma PrefixIsSlice<T>(p: seq<T>, s: seq<T>)
    requires p <= s
    ensures p == s[..|p|]
  {
  }

  lemma {:induction false} IndexOfPrefix(a: string, c: char, b: string)
    requires c !in a
    requires b == [] || b[0] == c
    ensures IndexOf(a + b, c) == |a|
  {
    if a != [] {
      assert (a + b)[1..] == a[1..] + b;
      IndexOfPrefix(a[1..], c, b);
    }
  }

  /** The longest prefix of `s` holding no whitespace. */
  function LeadingWord(s: string): (w: string)
    ensures |w| <= |s| && w == s[..|w|]
    ensures forall j :: 0 <= j < |w| ==> !IsSpace(w[j])
    ensures |w| < |s| ==> IsSpace(s[|w|])
  {
    if s == [] || IsSpace(s[0]) then [] else [s[0]] + LeadingWord(s[1..])
  }

  /** `s.split()`: the maximal runs of non-whitespace characters. */
  function SplitWs(s: string): (words: seq<string>)
    ensures forall w :: w in words ==> |w| > 0
    decreases |s|
  {
    if s == [] then []
    else if IsSpace(s[0]) then SplitWs(s[1..])
    else
      var w := LeadingWord(s);
      [w] + SplitWs(s[|w|..])
  }

  function LStrip(s: string): (r: string)
    ensures r == [] || !IsSpace(r[0])
    ensures |r| <= |s|
  {
    if s != [] && IsSpace(s[0]) then LStrip(s[1..]) else s
  }

  /** `lstrip` only drops a prefix. */
  lemma {:induction false} LStripSuffix(s: string)
    ensures LStrip(s) == s[|s| - |LStrip(s)|..]
    decreases |s|
  {
    if s != [] && IsSpace(s[0]) {
      LStripSuffix(s[1..]);
    }
  }

  function RStrip(s: string): (r: string)
    ensures r == [] || !IsSpace(r[|r| - 1])
    ensures |r| <= |s|
  {
    if s != [] && IsSpace(s[|s| - 1]) then RStrip(s[..|s| - 1]) else s
  }

  /** `rstrip` only drops a suffix. */
  lemma {:induction false} RStripPrefix(s: string)
    ensures RStrip(s) == s[..|RStrip(s)|]
    decreases |s|
  {
    if s != [] && IsSpace(s[|s| - 1]) {
      RStripPrefix(s[..|s| - 1]);
    }
  }

  /** `s.strip()` */
  function Strip(s: string): string
  {
    RStrip(LStrip(s))
  }

  /** `s.replace(pat, rep)`: left to right, non-overlapping. */
  function ReplaceAll(s: string, pat: string, rep: string): string
    requires |pat| > 0
    decreases |s|
  {
    if |s| < |pat| then s
    else if s[..|pat|] == pat then rep + ReplaceAll(s[|pat|..], pat, rep)
    else [s[0]] + ReplaceAll(s[1..], pat, rep)
  }

  /** `s.count(c)` for one character. */
  function CountChar(s: string, c: char): nat
  {
    if s == [] then 0 else (if s[0] == c then 1 else 0) + CountChar(s[1..], c)
  }

  lemma {:induction false} CountCharAppend(a: string, b: string, c: char)
    ensures CountChar(a + b, c) == CountChar(a, c) + CountChar(b, c)
  {
    if a != [] {
      assert (a + b)[0] == a[0] && (a + b)[1..] == a[1..] + b;
      CountCharAppend(a[1..], b, c);
    } else {
      assert a + b == b;
    }
  }

  lemma {:induction false} CountCharNone(s: string, c: char)
    requires c !in s
    ensures CountChar(s, c) == 0
  {
    if s != [] {
      CountCharNone(s[1..], c);
    }
  }

  /** `s.split(c)` has one piece more than `s` has `c`s. */
  lemma {:induction false} SplitCount(s: string, c: char)
    ensures |Split(s, c)| == CountChar(s, c) + 1
    decreases |s|
  {
    var k := IndexOf(s, c);
    if k == |s| {
      CountCharNone(s, c);
    } else {
      SplitCount(s[k + 1..], c);
      assert s == s[..k] + ([s[k]] + s[k + 1..]);
      CountCharAppend(s[..k], [s[k]] + s[k + 1..], c);
      CountCharAppend([s[k]], s[k + 1..], c);
      CountCharNone(s[..k], c);
    }
  }

  function DigitChar(d: nat): char
    requires d < 10
  {
    ['0', '1', '2', '3', '4', '5', '6', '7', '8', '9'][d]
  }

  predicate IsDigit(c: char)
  {
    '0' <= c <= '9'
  }

  /** `str(n)` for a non-negative integer. */
  function NatToStr(n: nat): (s: string)
    ensures |s| >= 1
    ensures AllDigits(s)
  {
    if n < 10 then [DigitChar(n)] else NatToStr(n / 10) + [DigitChar(n % 10)]
  }

  /** `str(i)` */
  function IntToStr(i: int): string
  {
    if i < 0 then "-" + NatToStr(-i) else NatToStr(i)
  }

  predicate AllDigits(s: string)
  {
    forall j :: 0 <= j < |s| ==> IsDigit(s[j])
  }

  function DigitValue(c: char): (d: nat)
    requires IsDigit(c)
    ensures d < 10
  {
    (c as int) - ('0' as int)
  }

  /** The number a string of decimal digits denotes. */
  function DigitsValue(s: string): nat
    requires AllDigits(s)
  {
    if s == [] then 0 else DigitsValue(s[..|s| - 1]) * 10 + DigitValue(s[|s| - 1])
  }

  lemma {:induction false} NatToStrValue(n: nat)
    ensures DigitsValue(NatToStr(n)) == n
  {
    if n >= 10 {
      NatToStrValue(n / 10);
      var s := NatToStr(n);
      assert s == NatToStr(n / 10) + [DigitChar(n % 10)];
      assert s[..|s| - 1] == NatToStr(n / 10);
      assert DigitValue(s[|s| - 1]) == n % 10;
      assert DigitsValue(s) == (n / 10) * 10 + n % 10;
    }
  }

  /** The value of an optionally signed ASCII decimal literal. */
  function SignedValue(t: string): (r: Result<int>)
  {
    if |t| > 1 && (t[0] == '-' || t[0] == '+') && AllDigits(t[1..]) then
      var v: int := DigitsValue(t[1..]);
      Ok(if t[0] == '-' then -v else v)
    else if |t| > 0 && AllDigits(t) then Ok(DigitsValue(t))
    else Err(ValueError)
  }

  /**
   * `int(s)` for an ASCII decimal literal with an optional sign, after
   * stripping surrounding whitespace; anything else raises ValueError.
   */
  function ParseInt(s: string): (r: Result<int>)
    ensures r.Ok? <==> (var t := Strip(s); (|t| > 0 && AllDigits(t)) || (|t| > 1 && (t[0] == '-' || t[0] == '+') && AllDigits(t[1..])))
    ensures r.Err? ==> r.error == ValueError
  {
    SignedValue(Strip(s))
  }

  /** Where a Python slice bound `i` lands in a sequence of length `n`. */
  function SliceBound(i: int, n: nat): (b: nat)
    ensures b <= n
  {
    if i < 0 then (if i + n < 0 then 0 else i + n) else if i > n then n else i
  }

  /** `s[i:j]` with Python's clamping and negative bounds. */
  function PySlice<T>(s: seq<T>, i: int, j: int): (r: seq<T>)
    ensures |r| <= |s|
  {
    var lo, hi := SliceBound(i, |s|), SliceBound(j, |s|);
    if lo < hi then s[lo..hi] else []
  }

  /** `s[i]` with Python's negative indices; `None` stands for IndexError. */
  function PyIndex<T>(s: seq<T>, i: int): (r: Option<T>)
    ensures r.Some? <==> -|s| <= i < |s|
  {
    if 0 <= i < |s| then Some(s[i]) else if -|s| <= i < 0 then Some(s[i + |s|]) else None
  }

  /** `sub` occurs in `s` at position `j`. */
  predicate OccursAt(s: string, sub: string, j: int)
  {
    0 <= j && j + |sub| <= |s| && s[j..j + |sub|] == sub
  }

  function FindFrom(s: string, sub: string, k: nat): (r: int)
    ensures r == -1 || (k <= r && OccursAt(s, sub, r))
    ensures r != -1 ==> forall j :: k <= j < r ==> !OccursAt(s, sub, j)
    ensures r == -1 ==> forall j :: k <= j ==> !OccursAt(s, sub, j)
    decreases |s| - k
  {
    if k + |sub| > |s| then -1 else if s[k..k + |sub|] == sub then k else FindFrom(s, sub, k + 1)
  }

  /** `s.find(sub, start)`, which reads a negative start from the end. */
  function PyFind(s: string, sub: string, start: int): (r: int)
    ensures r == -1 || OccursAt(s, sub, r)
  {
    var k := if start < 0 then (if start + |s| < 0 then 0 else start + |s|) else start;
    FindFrom(s, sub, k)
  }

  /** From a non-negative start, `find` returns the first occurrence at or after it. */
  lemma PyFindFrom(s: string, sub: string, start: int)
    requires start >= 0
    ensures var r := PyFind(s, sub, start);
      r != -1 ==> start <= r && forall j :: start <= j < r ==> !OccursAt(s, sub, j)
  {
  }

  /** `s.upper()` restricted to ASCII letters. */
  function ToUpper(s: string): (r: string)
    ensures |r| == |s|
  {
    if s == [] then [] else [if 'a' <= s[0] <= 'z' then (s[0] as int - 32) as char else s[0]] + ToUpper(s[1..])
  }

  /** Number of elements of `s` equal to `x` (`s.count(x)`). */
  function Count<T(==)>(s: seq<T>, x: T): nat
  {
    if s == [] then 0 else Count(s[..|s| - 1], x) + (if s[|s| - 1] == x then 1 else 0)
  }

  /** Index of the first `x` in `s`, or `|s|` when absent (`s.index(x)`). */
  function FirstIndex<T(==)>(s: seq<T>, x: T): (k: nat)
    ensures k <= |s| && (k < |s| <==> x in s)
    ensures k < |s| ==> s[k] == x
    ensures forall j :: 0 <= j < k ==> s[j] != x
  {
    if s == [] then 0 else if s[0] == x then 0 else 1 + FirstIndex(s[1..], x)
  }

  /** Adding an element behind `xs` leaves the first occurrences of the elements already there unchanged. */
  lemma FirstIndexSnoc<T>(xs: seq<T>, y: T, x: T)
    requires x in xs
    ensures FirstIndex(xs + [y], x) == FirstIndex(xs, x)
  {
    var w := xs + [y];
    var k := FirstIndex(xs, x);
    var k' := FirstIndex(w, x);
    assert w[k] == x;
  }

  lemma FirstIndexNew<T>(xs: seq<T>, x: T)
    requires x !in xs
    ensures FirstIndex(xs + [x], x) == |xs|
  {
    assert (xs + [x])[|xs|] == x;
  }

  predicate NoDuplicates<T(==)>(s: seq<T>)
  {
    forall i, j :: 0 <= i < j < |s| ==> s[i] != s[j]
  }

  /** `list(range(lo, hi))` */
  function Range(lo: nat, hi: nat): (r: seq<nat>)
    ensures |r| == if lo < hi then hi - lo else 0
    ensures forall k :: 0 <= k < |r| ==> r[k] == lo + k
    decreases hi - lo
  {
    if lo >= hi then [] else [lo] + Range(lo + 1, hi)
  }

  /** Two digit runs, each followed by the same non-digit, are equal when the whole strings are. */
  lemma DigitsPrefixUnique(a: string, x: string, b: string, y: string, c: char)
    requires AllDigits(a) && AllDigits(b) && !IsDigit(c)
    requires a + [c] + x == b + [c] + y
    ensures a == b && x == y
  {
    assert c !in a && c !in b by {
      assert forall j :: 0 <= j < |a| ==> a[j] != c;
      assert forall j :: 0 <= j < |b| ==> b[j] != c;
    }
    var s := a + [c] + x;
    assert s == a + ([c] + x) && s == b + ([c] + y);
    IndexOfPrefix(a, c, [c] + x);
    IndexOfPrefix(b, c, [c] + y);
    assert a == s[..|a|] && b == s[..|b|];
    assert x == s[|a| + 1..] && y == s[|b| + 1..];
  }

  /** Distinct numbers print differently. */
  lemma NatToStrInjective(m: nat, n: nat)
    requires NatToStr(m) == NatToStr(n)
    ensures m == n
  {
    NatToStrValue(m);
    NatToStrValue(n);
  }

  /** Distinct integers print differently. */
  lemma IntToStrInjective(i: int, j: int)
    requires IntToStr(i) == IntToStr(j)
    ensures i == j
  {
    assert (IntToStr(i)[0] == '-') == (i < 0);
    assert (IntToStr(j)[0] == '-') == (j < 0);
    if i < 0 && j < 0 {
      assert NatToStr(-i) == IntToStr(i)[1..];
      NatToStrInjective(-i, -j);
    } else if i >= 0 && j >= 0 {
      NatToStrInjective(i, j);
    }
  }

  /** A printed integer holds only digits and '-'. */
  lemma IntToStrChars(i: int)
    ensures forall c :: c in IntToStr(i) ==> c == '-' || IsDigit(c)
  {
    var s := IntToStr(i);
    forall c | c in s ensures c == '-' || IsDigit(c) {
      var j :| 0 <= j < |s| && s[j] == c;
      if i < 0 {
        assert j == 0 || s[j] == NatToStr(-i)[j - 1];
      }
    }
  }

  /** Two strings joined by a separator that the first does not contain can be split apart again. */
  lemma SeparatedUnique(x: string, y: string, x': string, y': string, sep: char)
    requires sep !in x && sep !in x'
    requires x + [sep] + y == x' + [sep] + y'
    ensures x == x' && y == y'
  {
    SplitAtFirst(x, sep, y);
    SplitAtFirst(x', sep, y');
    var a, b := [x] + Split(y, sep), [x'] + Split(y', sep);
    assert a == b;
    assert a[0] == x && b[0] == x' && a[1..] == Split(y, sep) && b[1..] == Split(y', sep);
    JoinSplit(y, sep);
    JoinSplit(y', sep);
  }

  predicate StrictlyIncreasing(r: seq<int>)
  {
    forall a, b :: 0 <= a < b < |r| ==> r[a] < r[b]
  }

  /** Insert `x` into a strictly increasing sequence unless it is already there. */
  function InsertSorted(r: seq<int>, x: int): (r': seq<int>)
    requires StrictlyIncreasing(r)
    ensures StrictlyIncreasing(r')
    ensures forall y :: y in r' <==> y in r || y == x
  {
    if r == [] then [x]
    else if x < r[0] then [x] + r
    else if x == r[0] then r
    else
      var t := InsertSorted(r[1..], x);
      assert forall k :: 0 <= k < |t| ==> r[0] < t[k] by {
        forall k | 0 <= k < |t| ensures r[0] < t[k] {
          assert t[k] in t;
          if t[k] != x {
            var j :| 0 <= j < |r[1..]| && r[1..][j] == t[k];
            assert r[j + 1] == t[k];
          }
        }
      }
      [r[0]] + t
  }

  /** `sorted(set(xs))` */
  function SortedDistinct(xs: seq<int>): (r: seq<int>)
    ensures StrictlyIncreasing(r)
    ensures forall y :: y in r <==> y in xs
  {
    if xs == [] then [] else InsertSorted(SortedDistinct(xs[..|xs| - 1]), xs[|xs| - 1])
  }

  /** Run the pieces in order: the first error wins, otherwise concatenate. */
  function ConcatResults<T>(rs: seq<Result<seq<T>>>): Result<seq<T>>
  {
    if rs == [] then Ok([])
    else if rs[0].Err? then Err(rs[0].error)
    else match ConcatResults(rs[1..])
      case Err(e) => Err(e)
      case Ok(rest) => Ok(rs[0].value + rest)
  }

  /** The first result that is an error decides; otherwise the values are concatenated. */
  lemma ConcatCons<T>(p: Result<seq<T>>, rest: seq<Result<seq<T>>>)
    ensures var c := ConcatResults([p] + rest);
      var cr := ConcatResults(rest);
      c == if p.Err? then Err(p.error) else if cr.Err? then Err(cr.error) else Ok(p.value + cr.value)
  {
    assert ([p] + rest)[1..] == rest;
  }

  /** The values of `c` after `acc`, or the error of `c`: what a loop that has gathered `acc` so far returns. */
  function Prefixed<T>(acc: seq<T>, c: Result<seq<T>>): Result<seq<T>>
  {
    if c.Err? then Err(c.error) else Ok(acc + c.value)
  }

  lemma PrefixedEmpty<T>(c: Result<seq<T>>)
    ensures Prefixed([], c) == c
  {
    if c.Ok? {
      assert [] + c.value == c.value;
    }
  }

  /** A loop step: a failing piece ends the run with its error, a successful one moves into the accumulator. */
  lemma ConcatStep<T>(acc: seq<T>, p: Result<seq<T>>, rest: seq<Result<seq<T>>>)
    ensures Prefixed(acc, ConcatResults([p] + rest))
            == if p.Err? then Err(p.error) else Prefixed(acc + p.value, ConcatResults(rest))
  {
    ConcatCons(p, rest);
    var cr := ConcatResults(rest);
    if p.Ok? && cr.Ok? {
      assert acc + p.value + cr.value == acc + (p.value + cr.value);
    }
  }

  /** The concatenation of a list of lists, in order. */
  function Flatten<T>(groups: seq<seq<T>>): seq<T>
  {
    if groups == [] then [] else Flatten(groups[..|groups| - 1]) + groups[|groups| - 1]
  }

  lemma FlattenSnoc<T>(groups: seq<seq<T>>, g: seq<T>)
    ensures Flatten(groups + [g]) == Flatten(groups) + g
  {
    assert (groups + [g])[..|groups|] == groups;
  }

  lemma FlattenNext<T>(groups: seq<seq<T>>, i: nat)
    requires i < |groups|
    ensures Flatten(groups[..i + 1]) == Flatten(groups[..i]) + groups[i]
  {
    assert groups[..i + 1] == groups[..i] + [groups[i]];
    FlattenSnoc(groups[..i], groups[i]);
  }

  lemma FlattenAround<T>(groups: seq<seq<T>>, i: nat)
    requires i < |groups|
    ensures Flatten(groups) == Flatten(groups[..i]) + groups[i] + Flatten(groups[i + 1..])
  {
    SplitAround(groups, i);
    FlattenAppend(groups[..i + 1], groups[i + 1..]);
    FlattenSnoc(groups[..i], groups[i]);
  }

  lemma SplitAround<T>(s: seq<T>, i: nat)
    requires i < |s|
    ensures s == s[..i + 1] + s[i + 1..] && s[..i + 1] == s[..i] + [s[i]]
  {
  }

  lemma NotBefore<T>(s: seq<T>, n: nat)
    requires NoDuplicates(s) && n < |s|
    ensures s[n] !in s[..n]
  {
  }

  lemma ButLast<T>(s: seq<T>)
    requires s != []
    ensures s == s[..|s| - 1] + [s[|s| - 1]]
  {
  }

  lemma PrefixSnoc<T>(a: seq<T>, s: seq<T>, j: nat)
    requires j < |s|
    ensures a + s[..j + 1] == (a + s[..j]) + [s[j]]
  {
    assert s[..j + 1] == s[..j] + [s[j]];
  }

  lemma AppendSnoc<T>(a: seq<T>, b: seq<T>)
    requires b != []
    ensures a + b == (a + b[..|b| - 1]) + [b[|b| - 1]]
  {
  }

  lemma {:induction false} FlattenAppend<T>(a: seq<seq<T>>, b: seq<seq<T>>)
    ensures Flatten(a + b) == Flatten(a) + Flatten(b)
    decreases |b|
  {
    if b == [] {
      assert a + b == a;
    } else {
      var b' := b[..|b| - 1];
      assert a + b == (a + b') + [b[|b| - 1]];
      FlattenSnoc(a + b', b[|b| - 1]);
      FlattenAppend(a, b');
    }
  }

  /** Cutting the list of lists at group `i`, position `j`. */
  lemma FlattenAt<T>(groups: seq<seq<T>>, i: nat, j: nat)
    requires i < |groups| && j < |groups[i]|
    ensures Flatten(groups) == (Flatten(groups[..i]) + groups[i][..j] + [groups[i][j]]) + (groups[i][j + 1..] + Flatten(groups[i + 1..]))
  {
    assert groups == groups[..i] + [groups[i]] + groups[i + 1..];
    FlattenAppend(groups[..i] + [groups[i]], groups[i + 1..]);
    FlattenSnoc(groups[..i], groups[i]);
    assert groups[i] == groups[i][..j] + [groups[i][j]] + groups[i][j + 1..];
  }

  /** The distinct elements of `xs`, each kept at its first occurrence. */
  function Dedup<T(==)>(xs: seq<T>): seq<T>
  {
    if xs == [] then []
    else if xs[|xs| - 1] in xs[..|xs| - 1] then Dedup(xs[..|xs| - 1])
    else Dedup(xs[..|xs| - 1]) + [xs[|xs| - 1]]
  }

  /** Dedup keeps exactly the elements of its input. */
  lemma {:induction false} DedupMembers<T>(xs: seq<T>)
    ensures forall x :: x in Dedup(xs) <==> x in xs
  {
    if xs != [] {
      DedupMembers(xs[..|xs| - 1]);
      assert xs == xs[..|xs| - 1] + [xs[|xs| - 1]];
    }
  }

  /** Dedup keeps each element once. */
  lemma {:induction false} DedupDistinct<T>(xs: seq<T>)
    ensures NoDuplicates(Dedup(xs))
  {
    if xs != [] {
      var init, y := xs[..|xs| - 1], xs[|xs| - 1];
      DedupDistinct(init);
      DedupMembers(init);
    }
  }

  /**
   * Dedup keeps exactly the elements of its input, each once,
   * in the order of their first occurrences.
   */
  lemma {:induction false} DedupSpec<T>(xs: seq<T>)
    ensures var r := Dedup(xs);
      && NoDuplicates(r)
      && (forall x :: x in r <==> x in xs)
      && forall a, b :: 0 <= a < b < |r| ==> FirstIndex(xs, r[a]) < FirstIndex(xs, r[b])
  {
    if xs != [] {
      var init, y := xs[..|xs| - 1], xs[|xs| - 1];
      DedupSpec(init);
      var r0 := Dedup(init);
      assert forall x :: x in r0 <==> x in init;
      assert xs == init + [y];
      forall x | x in init ensures FirstIndex(xs, x) == FirstIndex(init, x) {
        FirstIndexSnoc(init, y, x);
      }
      if y !in init {
        var r := r0 + [y];
        assert Dedup(xs) == r;
        assert FirstIndex(xs, y) == |init|;
        forall a, b | 0 <= a < b < |r| ensures FirstIndex(xs, r[a]) < FirstIndex(xs, r[b]) {
          assert r[a] == r0[a] && r0[a] in r0;
          assert FirstIndex(xs, r[a]) == FirstIndex(init, r0[a]) < |init|;
          if b < |r0| {
            assert r[b] == r0[b] && r0[b] in r0;
            assert FirstIndex(xs, r[b]) == FirstIndex(init, r0[b]);
          } else {
            assert r[b] == y;
          }
        }
      } else {
        assert Dedup(xs) == r0;
      }
    }
  }

  /** `[x] * n` */
  function Repeat<T>(x: T, n: nat): (r: seq<T>)
    ensures |r| == n && forall i :: 0 <= i < n ==> r[i] == x
  {
    seq(n, i requires 0 <= i < n => x)
  }
}
