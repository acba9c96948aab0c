/**
 * `ordered_unique` and `align_token_sequences` of the Dutch coreference
 * layer (dutch/add_coref_layer.py): a windowed heuristic that maps each
 * token index of a reference tokenisation to an index of another
 * tokenisation of the same text, recovering near misses through a prefix
 * test.
 */
module CorefAlign {
  import opened Common

  // ---- ordered_unique ----

  /** `ordered_unique(seq)`, with the `seen` set it fills as it goes. */
  method OrderedUnique<T(==)>(xs: seq<T>) returns (r: seq<T>)
    ensures r == Dedup(xs)
  {
    var seen: set<T> := {};
    r := [];
    var k := 0;
    while k < |xs|
      invariant k <= |xs|
      invariant r == Dedup(xs[..k])
      invariant forall x :: x in seen <==> x in xs[..k]
    {
      assert xs[..k + 1][..k] == xs[..k];
      if xs[k] !in seen {
        seen := seen + {xs[k]};
        r := r + [xs[k]];
      }
      k := k + 1;
    }
    assert xs[..k] == xs;
  }

  // ---- align_token_sequences ----

  /** A token paired with its position (`enumerate`). */
  type Tok = (nat, string)

  /** An entry of `matched`: a reference token and its partner, `None` where the window missed. */
  type Pair = (Tok, Option<Tok>)

  /** An entry of `normalized`: a reference token and the token it is aligned to. */
  type Link = (Tok, Tok)

  const WindowSize: nat := 2

  function Enumerate(xs: seq<string>): (ts: seq<Tok>)
    ensures |ts| == |xs| && forall i :: 0 <= i < |xs| ==> ts[i] == (i, xs[i])
  {
    seq(|xs|, i requires 0 <= i < |xs| => (i, xs[i]))
  }

  /** `other_tokens[i:i+window_size]` */
  function Window(other: seq<Tok>, i: nat): (win: seq<Tok>)
    ensures i <= |other| ==> win == other[i..if i + WindowSize <= |other| then i + WindowSize else |other|]
    ensures i > |other| ==> win == []
  {
    PySlice(other, i, i + WindowSize)
  }

  /** What the window loop appends to `matched` and to `missed`. */
  datatype ScanOut = ScanOut(pairs: seq<Pair>, missed: seq<Tok>)

  function Plus(a: ScanOut, b: ScanOut): ScanOut
  {
    ScanOut(a.pairs + b.pairs, a.missed + b.missed)
  }

  /**
   * The window loop for one reference token: every window token before
   * the first one with equal text is a miss, and the equal one ends the loop.
   */
  function Scan(r: Tok, win: seq<Tok>): ScanOut
  {
    if win == [] then ScanOut([], [])
    else if r.1 == win[0].1 then ScanOut([(r, Some(win[0]))], [])
    else Plus(ScanOut([(r, None)], [win[0]]), Scan(r, win[1..]))
  }

  /** The first loop over the first `n` reference tokens. */
  function RawPass(refT: seq<Tok>, othT: seq<Tok>, n: nat): ScanOut
    requires n <= |refT|
  {
    if n == 0 then ScanOut([], []) else Plus(RawPass(refT, othT, n - 1), Scan(refT[n - 1], Window(othT, n - 1)))
  }

  /** The pairs appended for the reference tokens beyond the end of the other sequence. */
  function Trailing(refT: seq<Tok>, othT: seq<Tok>): (ps: seq<Pair>)
    requires |othT| > 0 && |refT| >= |othT|
    ensures |ps| == |refT| - |othT|
    ensures forall k :: 0 <= k < |ps| ==> ps[k] == (refT[|othT| + k], Some(othT[|othT| - 1]))
  {
    seq(|refT| - |othT|, k requires 0 <= k < |refT| - |othT| => (refT[|othT| + k], Some(othT[|othT| - 1])))
  }

  /** `normalized`, what is left of `missed`, and `latest_other_ix`. */
  datatype NormState = NormState(normalized: seq<Link>, missed: seq<Tok>, latest: nat)

  /** Either text is a prefix of the other. */
  predicate PrefixRelated(a: string, b: string)
  {
    StartsWith(a, b) || StartsWith(b, a)
  }

  /** The test a missed token passes to be paired with the reference token. */
  predicate Recovers(r: Tok, m: Tok, latest: nat)
  {
    PrefixRelated(r.1, m.1) && m.0 >= latest
  }

  /**
   * The recovery loop over the snapshot `snap` of `missed`: each accepted
   * candidate is paired with `r` and pops the head of `missed`.
   */
  function Recover(r: Tok, snap: seq<Tok>, st: NormState): NormState
    requires |snap| <= |st.missed|
  {
    if snap == [] then st
    else
      var st' := if Recovers(r, snap[0], st.latest)
        then NormState(st.normalized + [(r, snap[0])], st.missed[1..], st.latest)
        else st;
      Recover(r, snap[1..], st')
  }

  /** One iteration of the normalisation loop; a token pair is a non-empty tuple, so only `None` is falsy. */
  function NormStep(st: NormState, p: Pair): NormState
  {
    if p.1.None? then Recover(p.0, PySlice(st.missed, 0, 5), st)
    else NormState(st.normalized + [(p.0, p.1.value)], st.missed, p.1.value.0)
  }

  function NormFold(st: NormState, ms: seq<Pair>): NormState
  {
    if ms == [] then st else NormStep(NormFold(st, ms[..|ms| - 1]), ms[|ms| - 1])
  }

  /** `ref2other[cotok[0]] = jtok[0]` for each link in turn: the last link of a key wins. */
  function Ref2Other(links: seq<Link>): map<nat, nat>
  {
    if links == [] then map[]
    else Ref2Other(links[..|links| - 1])[links[|links| - 1].0.0 := links[|links| - 1].1.0]
  }

  /** `matched` after `ordered_unique` and the trailing pairs; defined unless the trailing pairs need a last token of an empty sequence. */
  function MatchedOf(refT: seq<Tok>, othT: seq<Tok>): seq<Pair>
    requires !(|refT| > |othT| && |othT| == 0)
  {
    var m := Dedup(RawPass(refT, othT, |refT|).pairs);
    if |refT| > |othT| then m + Trailing(refT, othT) else m
  }

  /** The `normalized` sequence, or the IndexError of `other_tokens[-1]` on an empty other sequence. */
  function NormalizedOf(reference: seq<string>, other: seq<string>): Result<seq<Link>>
  {
    var refT, othT := Enumerate(reference), Enumerate(other);
    if |refT| > |othT| && |othT| == 0 then Err(IndexError)
    else
      var missed := Dedup(RawPass(refT, othT, |refT|).missed);
      Ok(NormFold(NormState([], missed, 0), MatchedOf(refT, othT)).normalized)
  }

  /** `align_token_sequences` as written: the links pass through `ordered_unique` first. */
  function Align(reference: seq<string>, other: seq<string>): Result<map<nat, nat>>
  {
    match NormalizedOf(reference, other)
    case Err(e) => Err(e)
    case Ok(links) => Ok(Ref2Other(Dedup(links)))
  }

  /** `align_token_sequences` with the links folded in order, so that a later exact pair overrides a recovered one. */
  function AlignCorrected(reference: seq<string>, other: seq<string>): Result<map<nat, nat>>
  {
    match NormalizedOf(reference, other)
    case Err(e) => Err(e)
    case Ok(links) => Ok(Ref2Other(links))
  }

  /** The window loop over every reference token, with its `break` at the first equal text. */
  method WindowPass(refT: seq<Tok>, othT: seq<Tok>) returns (matched: seq<Pair>, missed: seq<Tok>)
    ensures ScanOut(matched, missed) == RawPass(refT, othT, |refT|)
  {
    matched, missed := [], [];
    var i := 0;
    while i < |refT|
      invariant i <= |refT|
      invariant ScanOut(matched, missed) == RawPass(refT, othT, i)
    {
      var refTok := refT[i];
      var win := Window(othT, i);
      ghost var before := ScanOut(matched, missed);
      var k := 0;
      while k < |win|
        invariant k <= |win|
        invariant Plus(ScanOut(matched, missed), Scan(refTok, win[k..])) == Plus(before, Scan(refTok, win))
      {
        if refTok.1 == win[k].1 {
          ScanHit(ScanOut(matched, missed), refTok, win, k);
          matched := matched + [(refTok, Some(win[k]))];
          break;
        }
        ScanMiss(ScanOut(matched, missed), refTok, win, k);
        matched := matched + [(refTok, None)];
        missed := missed + [win[k]];
        k := k + 1;
      }
      if k == |win| {
        ScanEnd(ScanOut(matched, missed), refTok, win);
      }
      i := i + 1;
    }
    assert i == |refT|;
  }

  /** A hit ends the scan with its pair. */
  lemma ScanHit(acc: ScanOut, r: Tok, win: seq<Tok>, k: nat)
    requires k < |win| && r.1 == win[k].1
    ensures Plus(acc, Scan(r, win[k..])) == ScanOut(acc.pairs + [(r, Some(win[k]))], acc.missed)
  {
    assert acc.missed + [] == acc.missed;
  }

  /** Nothing is left to scan at the end of the window. */
  lemma ScanEnd(acc: ScanOut, r: Tok, win: seq<Tok>)
    ensures Plus(acc, Scan(r, win[|win|..])) == acc
  {
    assert win[|win|..] == [];
    assert acc.pairs + [] == acc.pairs && acc.missed + [] == acc.missed;
  }

  /** A miss moves one window token from the scan still to come into the output. */
  lemma ScanMiss(acc: ScanOut, r: Tok, win: seq<Tok>, k: nat)
    requires k < |win| && r.1 != win[k].1
    ensures Plus(ScanOut(acc.pairs + [(r, None)], acc.missed + [win[k]]), Scan(r, win[k + 1..])) == Plus(acc, Scan(r, win[k..]))
  {
    assert win[k..][1..] == win[k + 1..];
    var rest := Scan(r, win[k + 1..]);
    assert acc.pairs + [(r, None)] + rest.pairs == acc.pairs + ([(r, None)] + rest.pairs);
    assert acc.missed + [win[k]] + rest.missed == acc.missed + ([win[k]] + rest.missed);
  }

  /** The normalisation loop, with the recovery loop over the snapshot `missed[:5]`. */
  method Normalize(matched: seq<Pair>, missed0: seq<Tok>) returns (normalized: seq<Link>)
    ensures normalized == NormFold(NormState([], missed0, 0), matched).normalized
  {
    normalized := [];
    var missed := missed0;
    var latest: nat := 0;
    var n := 0;
    while n < |matched|
      invariant n <= |matched|
      invariant NormState(normalized, missed, latest) == NormFold(NormState([], missed0, 0), matched[..n])
    {
      assert matched[..n + 1][..n] == matched[..n];
      var refTok, pairTok := matched[n].0, matched[n].1;
      if pairTok.None? {
        var snap := PySlice(missed, 0, 5);
        ghost var st0 := NormState(normalized, missed, latest);
        var k := 0;
        while k < |snap|
          invariant k <= |snap|
          invariant |snap| - k <= |missed|
          invariant Recover(refTok, snap[k..], NormState(normalized, missed, latest)) == Recover(refTok, snap, st0)
        {
          assert snap[k..][1..] == snap[k + 1..];
          var m := snap[k];
          if Recovers(refTok, m, latest) {
            normalized := normalized + [(refTok, m)];
            missed := missed[1..];
          }
          k := k + 1;
        }
      } else {
        normalized := normalized + [(refTok, pairTok.value)];
        latest := pairTok.value.0;
      }
      n := n + 1;
    }
    assert matched[..n] == matched;
  }

  method FoldLinks(links: seq<Link>) returns (ref2other: map<nat, nat>)
    ensures ref2other == Ref2Other(links)
  {
    ref2other := map[];
    var q := 0;
    while q < |links|
      invariant q <= |links|
      invariant ref2other == Ref2Other(links[..q])
    {
      assert links[..q + 1][..q] == links[..q];
      ref2other := ref2other[links[q].0.0 := links[q].1.0];
      q := q + 1;
    }
    assert links[..q] == links;
  }

  method AlignTokenSequences(referenceTokens: seq<string>, otherTokens: seq<string>) returns (r: Result<map<nat, nat>>)
    ensures r == Align(referenceTokens, otherTokens)
  {
    var refT := Enumerate(referenceTokens);
    var othT := Enumerate(otherTokens);
    var matched, missed := WindowPass(refT, othT);
    matched := OrderedUnique(matched);
    missed := OrderedUnique(missed);
    if |refT| > |othT| {
      if |othT| == 0 {
        return Err(IndexError);
      }
      ghost var m0 := matched;
      var j := |othT|;
      while j < |refT|
        invariant |othT| <= j <= |refT|
        invariant matched == m0 + Trailing(refT, othT)[..j - |othT|]
      {
        assert Trailing(refT, othT)[..j + 1 - |othT|] == Trailing(refT, othT)[..j - |othT|] + [(refT[j], Some(othT[|othT| - 1]))];
        matched := matched + [(refT[j], Some(othT[|othT| - 1]))];
        j := j + 1;
      }
      assert Trailing(refT, othT)[..j - |othT|] == Trailing(refT, othT);
    }
    assert matched == MatchedOf(refT, othT);
    var normalized := Normalize(matched, missed);
    var links := OrderedUnique(normalized);
    var ref2other := FoldLinks(links);
    r := Ok(ref2other);
  }

  // ---- what the alignment promises ----

  /** Positions of an enumeration carry their own index. */
  predicate Indexed(ts: seq<Tok>)
  {
    forall i :: 0 <= i < |ts| ==> ts[i].0 == i
  }

  /** The window loop pairs `r` only with window tokens of equal text and misses only window tokens. */
  lemma {:induction false} ScanFacts(r: Tok, win: seq<Tok>)
    ensures forall p :: p in Scan(r, win).pairs ==> p.0 == r && (p.1.Some? ==> p.1.value in win && p.1.value.1 == r.1)
    ensures forall m :: m in Scan(r, win).missed ==> m in win
  {
    if win != [] && r.1 != win[0].1 {
      ScanFacts(r, win[1..]);
      assert forall m :: m in win[1..] ==> m in win;
    }
  }

  lemma WindowWithin(othT: seq<Tok>, i: nat)
    ensures forall m :: m in Window(othT, i) ==> m in othT
  {
    if i <= |othT| {
      var hi := if i + WindowSize <= |othT| then i + WindowSize else |othT|;
      forall m | m in Window(othT, i) ensures m in othT {
        var k :| 0 <= k < |othT[i..hi]| && othT[i..hi][k] == m;
        assert othT[i + k] == m;
      }
    }
  }

  /** Every pair of the first loop comes from the window of its own reference token. */
  lemma {:induction false} RawPassSound(refT: seq<Tok>, othT: seq<Tok>, n: nat)
    requires n <= |refT| && Indexed(refT)
    ensures forall p :: p in RawPass(refT, othT, n).pairs ==>
      p.0.0 < n && p.0 == refT[p.0.0] && p in Scan(refT[p.0.0], Window(othT, p.0.0)).pairs
  {
    if n > 0 {
      RawPassSound(refT, othT, n - 1);
      var a, b := RawPass(refT, othT, n - 1).pairs, Scan(refT[n - 1], Window(othT, n - 1)).pairs;
      assert RawPass(refT, othT, n).pairs == a + b;
      ScanFacts(refT[n - 1], Window(othT, n - 1));
      assert refT[n - 1].0 == n - 1;
    }
  }

  /** Every miss of the first loop is an other token. */
  lemma {:induction false} RawPassMissed(refT: seq<Tok>, othT: seq<Tok>, n: nat)
    requires n <= |refT|
    ensures forall m :: m in RawPass(refT, othT, n).missed ==> m in othT
  {
    if n > 0 {
      RawPassMissed(refT, othT, n - 1);
      ScanFacts(refT[n - 1], Window(othT, n - 1));
      WindowWithin(othT, n - 1);
      assert RawPass(refT, othT, n).missed
        == RawPass(refT, othT, n - 1).missed + Scan(refT[n - 1], Window(othT, n - 1)).missed;
    }
  }

  /** Every pair of the window loop of token `i` is among the pairs of the first loop. */
  lemma {:induction false} RawPassHas(refT: seq<Tok>, othT: seq<Tok>, n: nat, i: nat, p: Pair)
    requires i < n <= |refT| && p in Scan(refT[i], Window(othT, i)).pairs
    ensures p in RawPass(refT, othT, n).pairs
  {
    var a, b := RawPass(refT, othT, n - 1).pairs, Scan(refT[n - 1], Window(othT, n - 1)).pairs;
    assert RawPass(refT, othT, n).pairs == a + b;
    if i < n - 1 {
      RawPassHas(refT, othT, n - 1, i, p);
    }
  }

  /** The first loop only ever appends. */
  lemma {:induction false} RawPassPrefix(refT: seq<Tok>, othT: seq<Tok>, m: nat, n: nat)
    requires m <= n <= |refT|
    ensures |RawPass(refT, othT, m).pairs| <= |RawPass(refT, othT, n).pairs|
    ensures RawPass(refT, othT, n).pairs[..|RawPass(refT, othT, m).pairs|] == RawPass(refT, othT, m).pairs
    decreases n
  {
    if m < n {
      RawPassPrefix(refT, othT, m, n - 1);
      var a, b := RawPass(refT, othT, m).pairs, RawPass(refT, othT, n - 1).pairs;
      assert RawPass(refT, othT, n).pairs[..|b|] == b;
      assert RawPass(refT, othT, n).pairs[..|a|] == b[..|a|];
    }
  }

  lemma RawPairAt(refT: seq<Tok>, othT: seq<Tok>, n: nat, p: Pair)
    requires n <= |refT| && Indexed(refT) && p in RawPass(refT, othT, n).pairs
    ensures p.0.0 < n && p.0 == refT[p.0.0] && p in Scan(refT[p.0.0], Window(othT, p.0.0)).pairs
  {
    RawPassSound(refT, othT, n);
  }

  /**
   * Each pair of `matched` belongs to a reference token; inside the other
   * sequence it comes from that token's window, beyond it it is the
   * trailing pair with the last other token.
   */
  lemma MatchedPair(refT: seq<Tok>, othT: seq<Tok>, p: Pair)
    requires Indexed(refT) && !(|refT| > |othT| && |othT| == 0) && p in MatchedOf(refT, othT)
    ensures p.0.0 < |refT| && p.0 == refT[p.0.0]
    ensures if p.0.0 < |othT| then p in Scan(refT[p.0.0], Window(othT, p.0.0)).pairs else p.1 == Some(othT[|othT| - 1])
  {
    var raw := RawPass(refT, othT, |refT|).pairs;
    if p in Dedup(raw) {
      DedupMembers(raw);
      RawPairAt(refT, othT, |refT|, p);
    } else {
      var tr := Trailing(refT, othT);
      var k :| 0 <= k < |tr| && tr[k] == p;
      assert refT[|othT| + k].0 == |othT| + k;
    }
  }

  /** Every pair of a window loop is in `matched`. */
  lemma MatchedHas(refT: seq<Tok>, othT: seq<Tok>, i: nat, p: Pair)
    requires Indexed(refT) && !(|refT| > |othT| && |othT| == 0)
    requires i < |refT| && p in Scan(refT[i], Window(othT, i)).pairs
    ensures p in MatchedOf(refT, othT)
  {
    var raw := RawPass(refT, othT, |refT|).pairs;
    RawPassHas(refT, othT, |refT|, i, p);
    DedupMembers(raw);
    assert p in Dedup(raw);
  }

  /** Every reference token beyond the end of the other sequence has its trailing pair in `matched`. */
  lemma MatchedTrailing(refT: seq<Tok>, othT: seq<Tok>, i: nat)
    requires 0 < |othT| <= i < |refT|
    ensures (refT[i], Some(othT[|othT| - 1])) in MatchedOf(refT, othT)
  {
    var tr := Trailing(refT, othT);
    assert tr[i - |othT|] == (refT[i], Some(othT[|othT| - 1]));
  }

  /** A link made from pair `p`: the same reference token, and the pair's partner or a prefix-related token of `pool`. */
  predicate FromPair(e: Link, p: Pair, pool: seq<Tok>)
  {
    p.0 == e.0 && if p.1.Some? then e.1 == p.1.value else e.1 in pool && PrefixRelated(e.0.1, e.1.1)
  }

  ghost predicate Sourced(e: Link, ms: seq<Pair>, pool: seq<Tok>)
  {
    exists p :: p in ms && FromPair(e, p, pool)
  }

  /**
   * The recovery loop keeps `latest_other_ix`, appends links of the
   * reference token to snapshot tokens that pass the test, and pops exactly
   * one head of `missed` per appended link.
   */
  lemma {:induction false} RecoverFacts(r: Tok, snap: seq<Tok>, st: NormState)
    requires |snap| <= |st.missed|
    ensures var st' := Recover(r, snap, st);
      var c := |st'.normalized| - |st.normalized|;
      && |st.normalized| <= |st'.normalized| && st'.normalized[..|st.normalized|] == st.normalized
      && c <= |st.missed| && st'.missed == st.missed[c..]
      && st'.latest == st.latest
      && forall k :: |st.normalized| <= k < |st'.normalized| ==>
        st'.normalized[k].0 == r && st'.normalized[k].1 in snap && Recovers(r, st'.normalized[k].1, st.latest)
  {
    if snap != [] {
      var st1 := if Recovers(r, snap[0], st.latest)
        then NormState(st.normalized + [(r, snap[0])], st.missed[1..], st.latest)
        else st;
      RecoverFacts(r, snap[1..], st1);
      var st' := Recover(r, snap, st);
      assert st' == Recover(r, snap[1..], st1);
      assert forall m :: m in snap[1..] ==> m in snap;
      if Recovers(r, snap[0], st.latest) {
        var c1 := |st'.normalized| - |st1.normalized|;
        assert st.missed[1..][c1..] == st.missed[c1 + 1..];
        assert st'.normalized[..|st1.normalized|][..|st.normalized|] == st'.normalized[..|st.normalized|];
        assert st'.normalized[|st.normalized|] == st1.normalized[|st.normalized|];
      }
    }
  }

  /** One iteration of the normalisation loop only appends links made from its pair, and only shrinks `missed`. */
  lemma NormStepFacts(st: NormState, p: Pair)
    ensures var st' := NormStep(st, p);
      && |st.normalized| <= |st'.normalized| && st'.normalized[..|st.normalized|] == st.normalized
      && (forall m :: m in st'.missed ==> m in st.missed)
      && (forall k :: |st.normalized| <= k < |st'.normalized| ==> FromPair(st'.normalized[k], p, st.missed))
      && (p.1.Some? ==> st'.normalized == st.normalized + [(p.0, p.1.value)])
  {
    if p.1.None? {
      var snap := PySlice(st.missed, 0, 5);
      RecoverFacts(p.0, snap, st);
      var st' := NormStep(st, p);
      var c := |st'.normalized| - |st.normalized|;
      assert forall m :: m in st.missed[c..] ==> m in st.missed;
      assert forall m :: m in snap ==> m in st.missed;
    }
  }

  /** Folding over `a + b` is folding over `a`, then over `b`. */
  lemma {:induction false} NormFoldAppend(st: NormState, a: seq<Pair>, b: seq<Pair>)
    ensures NormFold(st, a + b) == NormFold(NormFold(st, a), b)
    decreases |b|
  {
    if b == [] {
      assert a + b == a;
    } else {
      var b' := b[..|b| - 1];
      assert (a + b)[..|a + b| - 1] == a + b';
      NormFoldAppend(st, a, b');
    }
  }

  /**
   * The normalisation loop only appends, every appended link is made from
   * one of the pairs, and every pair with a partner leaves its link.
   */
  lemma {:induction false} NormFacts(st0: NormState, ms: seq<Pair>)
    ensures var f := NormFold(st0, ms);
      && |st0.normalized| <= |f.normalized| && f.normalized[..|st0.normalized|] == st0.normalized
      && (forall m :: m in f.missed ==> m in st0.missed)
      && (forall k :: |st0.normalized| <= k < |f.normalized| ==> Sourced(f.normalized[k], ms, st0.missed))
      && (forall p :: p in ms && p.1.Some? ==> (p.0, p.1.value) in f.normalized)
  {
    if ms != [] {
      var init, last := ms[..|ms| - 1], ms[|ms| - 1];
      NormFacts(st0, init);
      var f0 := NormFold(st0, init);
      NormStepFacts(f0, last);
      var f := NormFold(st0, ms);
      assert f == NormStep(f0, last);
      assert f.normalized[..|f0.normalized|][..|st0.normalized|] == f.normalized[..|st0.normalized|];
      forall k | |st0.normalized| <= k < |f.normalized| ensures Sourced(f.normalized[k], ms, st0.missed) {
        if k < |f0.normalized| {
          assert f.normalized[k] == f0.normalized[k];
          var p :| p in init && FromPair(f0.normalized[k], p, st0.missed);
          assert p in ms;
        } else {
          assert FromPair(f.normalized[k], last, f0.missed);
          assert FromPair(f.normalized[k], last, st0.missed);
        }
      }
      forall p | p in ms && p.1.Some? ensures (p.0, p.1.value) in f.normalized {
        if p in init {
          var j :| 0 <= j < |f0.normalized| && f0.normalized[j] == (p.0, p.1.value);
          assert f.normalized[j] == f0.normalized[j];
        } else {
          assert p == last;
        }
      }
    }
  }

  /** Every key of the dictionary is the key of some link and holds that link's value; every link's key is present. */
  lemma {:induction false} Ref2OtherSound(links: seq<Link>)
    ensures forall k :: k in Ref2Other(links) ==> exists e :: e in links && e.0.0 == k && e.1.0 == Ref2Other(links)[k]
    ensures forall e :: e in links ==> e.0.0 in Ref2Other(links)
  {
    if links != [] {
      var init, last := links[..|links| - 1], links[|links| - 1];
      Ref2OtherSound(init);
      assert links == init + [last];
      assert Ref2Other(links) == Ref2Other(init)[last.0.0 := last.1.0];
      forall k | k in Ref2Other(links) ensures exists e :: e in links && e.0.0 == k && e.1.0 == Ref2Other(links)[k] {
        if k != last.0.0 {
          var e :| e in init && e.0.0 == k && e.1.0 == Ref2Other(init)[k];
          assert e in links;
        } else {
          assert last in links;
        }
      }
    }
  }

  /** The last link of a key decides its value. */
  lemma {:induction false} Ref2OtherLast(a: seq<Link>, e: Link, b: seq<Link>)
    requires forall x :: x in b ==> x.0.0 != e.0.0
    ensures e.0.0 in Ref2Other(a + [e] + b) && Ref2Other(a + [e] + b)[e.0.0] == e.1.0
    decreases |b|
  {
    if b == [] {
      assert (a + [e] + b)[..|a + [e] + b| - 1] == a;
    } else {
      var b' := b[..|b| - 1];
      assert (a + [e] + b)[..|a + [e] + b| - 1] == a + [e] + b';
      assert forall x :: x in b' ==> x in b;
      Ref2OtherLast(a, e, b');
    }
  }

  /**
   * Why reference index `i` may be aligned to other index `j`: beyond the
   * end of the other sequence only to its last token, otherwise only to a
   * token whose text is a prefix of the reference text or has it as a prefix.
   */
  predicate Justified(reference: seq<string>, other: seq<string>, i: nat, j: nat)
    requires i < |reference| && j < |other|
  {
    if i >= |other| then j == |other| - 1 else PrefixRelated(reference[i], other[j])
  }

  /** A link between two real tokens, justified. */
  predicate LinkOk(reference: seq<string>, other: seq<string>, e: Link)
  {
    && e.0.0 < |reference| && e.1.0 < |other|
    && e.0.1 == reference[e.0.0] && e.1.1 == other[e.1.0]
    && Justified(reference, other, e.0.0, e.1.0)
  }

  /** The misses left for recovery, after `ordered_unique`. */
  ghost function MissedOf(refT: seq<Tok>, othT: seq<Tok>): seq<Tok>
  {
    Dedup(RawPass(refT, othT, |refT|).missed)
  }

  /** The links of `normalized`, where the trailing pairs are defined. */
  ghost function LinksOf(refT: seq<Tok>, othT: seq<Tok>): seq<Link>
    requires !(|refT| > |othT| && |othT| == 0)
  {
    NormFold(NormState([], MissedOf(refT, othT), 0), MatchedOf(refT, othT)).normalized
  }

  lemma MissedIn(refT: seq<Tok>, othT: seq<Tok>, m: Tok)
    requires Indexed(refT) && m in MissedOf(refT, othT)
    ensures m in othT
  {
    RawPassMissed(refT, othT, |refT|);
    DedupMembers(RawPass(refT, othT, |refT|).missed);
  }

  /** Every link comes from a pair of `matched`. */
  lemma LinkFrom(refT: seq<Tok>, othT: seq<Tok>, e: Link) returns (p: Pair)
    requires !(|refT| > |othT| && |othT| == 0) && e in LinksOf(refT, othT)
    ensures p in MatchedOf(refT, othT) && FromPair(e, p, MissedOf(refT, othT))
  {
    NormFacts(NormState([], MissedOf(refT, othT), 0), MatchedOf(refT, othT));
    var links := LinksOf(refT, othT);
    var k :| 0 <= k < |links| && links[k] == e;
    p :| p in MatchedOf(refT, othT) && FromPair(e, p, MissedOf(refT, othT));
  }

  /** Every pair of `matched` with a partner leaves its link. */
  lemma LinkPresent(refT: seq<Tok>, othT: seq<Tok>, p: Pair)
    requires !(|refT| > |othT| && |othT| == 0) && p in MatchedOf(refT, othT) && p.1.Some?
    ensures (p.0, p.1.value) in LinksOf(refT, othT)
  {
    NormFacts(NormState([], MissedOf(refT, othT), 0), MatchedOf(refT, othT));
  }

  lemma LinkAt(reference: seq<string>, other: seq<string>, e: Link)
    requires !(|reference| > |other| && |other| == 0) && e in LinksOf(Enumerate(reference), Enumerate(other))
    ensures LinkOk(reference, other, e)
  {
    var refT, othT := Enumerate(reference), Enumerate(other);
    var p := LinkFrom(refT, othT, e);
    MatchedPair(refT, othT, p);
    var i := p.0.0;
    if i < |othT| {
      ScanFacts(refT[i], Window(othT, i));
      WindowWithin(othT, i);
      if p.1.Some? {
        assert p.1.value in othT;
        assert StartsWith(reference[i], other[e.1.0]);
      } else {
        MissedIn(refT, othT, e.1);
      }
    }
  }

  /**
   * `normalized` fails exactly when the trailing pairs need the last token
   * of an empty other sequence; otherwise every link joins a reference token
   * and an other token, justified.
   */
  lemma LinksSound(reference: seq<string>, other: seq<string>)
    ensures var r := NormalizedOf(reference, other);
      && (r.Err? <==> |other| == 0 && |reference| > 0)
      && (r.Err? ==> r.error == IndexError)
      && (r.Ok? ==> forall e :: e in r.value ==> LinkOk(reference, other, e))
  {
    var refT, othT := Enumerate(reference), Enumerate(other);
    if !(|refT| > |othT| && |othT| == 0) {
      assert NormalizedOf(reference, other) == Ok(LinksOf(refT, othT));
      forall e | e in LinksOf(refT, othT) ensures LinkOk(reference, other, e) {
        LinkAt(reference, other, e);
      }
    }
  }

  /**
   * `align_token_sequences` fails only on an empty other sequence with a
   * non-empty reference; every key is a reference index, every value an
   * other index, and each pairing justified. The order-aware variant gives
   * the same guarantees.
   */
  lemma AlignSound(reference: seq<string>, other: seq<string>)
    ensures var r := Align(reference, other);
      && (r.Err? <==> |other| == 0 && |reference| > 0)
      && (r.Err? ==> r.error == IndexError)
      && (r.Ok? ==> forall i :: i in r.value ==>
            i < |reference| && r.value[i] < |other| && Justified(reference, other, i, r.value[i]))
    ensures var r := AlignCorrected(reference, other);
      && (r.Err? <==> |other| == 0 && |reference| > 0)
      && (r.Ok? ==> forall i :: i in r.value ==>
            i < |reference| && r.value[i] < |other| && Justified(reference, other, i, r.value[i]))
  {
    LinksSound(reference, other);
    var n := NormalizedOf(reference, other);
    if n.Ok? {
      DedupMembers(n.value);
      Ref2OtherSound(Dedup(n.value));
      Ref2OtherSound(n.value);
      var m := Ref2Other(Dedup(n.value));
      forall i | i in m ensures i < |reference| && m[i] < |other| && Justified(reference, other, i, m[i]) {
        var e :| e in Dedup(n.value) && e.0.0 == i && e.1.0 == m[i];
        assert LinkOk(reference, other, e);
      }
      var m' := Ref2Other(n.value);
      forall i | i in m' ensures i < |reference| && m'[i] < |other| && Justified(reference, other, i, m'[i]) {
        var e :| e in n.value && e.0.0 == i && e.1.0 == m'[i];
        assert LinkOk(reference, other, e);
      }
    }
  }

  lemma KeyValue(links: seq<Link>, i: nat, v: nat)
    requires exists e :: e in links && e.0.0 == i
    requires forall e :: e in links && e.0.0 == i ==> e.1.0 == v
    ensures i in Ref2Other(links) && Ref2Other(links)[i] == v
  {
    Ref2OtherSound(links);
    var e :| e in links && e.0.0 == i;
    var e' :| e' in links && e'.0.0 == i && e'.1.0 == Ref2Other(links)[i];
  }

  /** If some link has key `i` and every such link has value `v`, both dictionaries send `i` to `v`. */
  lemma KeyDecided(links: seq<Link>, i: nat, v: nat)
    requires exists e :: e in links && e.0.0 == i
    requires forall e :: e in links && e.0.0 == i ==> e.1.0 == v
    ensures i in Ref2Other(links) && Ref2Other(links)[i] == v
    ensures i in Ref2Other(Dedup(links)) && Ref2Other(Dedup(links))[i] == v
  {
    KeyValue(links, i, v);
    var d := Dedup(links);
    DedupMembers(links);
    var e :| e in links && e.0.0 == i;
    assert e in d;
    KeyValue(d, i, v);
  }

  /** A reference token equal to the other token at its own index is aligned to that index. */
  lemma AlignExact(reference: seq<string>, other: seq<string>, i: nat)
    requires i < |reference| && i < |other| && reference[i] == other[i]
    ensures var r := Align(reference, other); r.Ok? && i in r.value && r.value[i] == i
    ensures var r := AlignCorrected(reference, other); r.Ok? && i in r.value && r.value[i] == i
  {
    var refT, othT := Enumerate(reference), Enumerate(other);
    var win := Window(othT, i);
    assert win[0] == othT[i];
    var pS := (refT[i], Some(othT[i]));
    assert Scan(refT[i], win).pairs == [pS];
    MatchedHas(refT, othT, i, pS);
    LinkPresent(refT, othT, pS);
    var links := LinksOf(refT, othT);
    forall e | e in links && e.0.0 == i ensures e.1.0 == i {
      var p := LinkFrom(refT, othT, e);
      MatchedPair(refT, othT, p);
    }
    assert NormalizedOf(reference, other) == Ok(links);
    KeyDecided(links, i, i);
  }

  /** Every reference index beyond the end of a non-empty other sequence is aligned to its last token. */
  lemma AlignTrailing(reference: seq<string>, other: seq<string>, i: nat)
    requires 0 < |other| <= i < |reference|
    ensures var r := Align(reference, other); r.Ok? && i in r.value && r.value[i] == |other| - 1
    ensures var r := AlignCorrected(reference, other); r.Ok? && i in r.value && r.value[i] == |other| - 1
  {
    var refT, othT := Enumerate(reference), Enumerate(other);
    var pT := (refT[i], Some(othT[|othT| - 1]));
    MatchedTrailing(refT, othT, i);
    LinkPresent(refT, othT, pT);
    var links := LinksOf(refT, othT);
    forall e | e in links && e.0.0 == i ensures e.1.0 == |other| - 1 {
      var p := LinkFrom(refT, othT, e);
      MatchedPair(refT, othT, p);
    }
    assert NormalizedOf(reference, other) == Ok(links);
    KeyDecided(links, i, |other| - 1);
  }

  // ---- the exact pair one ahead ----

  /**
   * As written, a reference token whose window misses at its own index and
   * hits one ahead need not be aligned one ahead: here "ab" equals
   * `other[1]`, yet the recovered pair with "a" at index 2 survives
   * `ordered_unique` while the later exact pair, a duplicate of the first
   * recovered one, is dropped.
   */
  lemma AlignNextAsWritten()
    ensures var r := Align(["ab", "zz"], ["q", "ab", "a"]);
      r.Ok? && 0 in r.value && r.value[0] == 2
  {
    var reference, other := ["ab", "zz"], ["q", "ab", "a"];
    var refT, othT := Enumerate(reference), Enumerate(other);
    CexEnumerate();
    CexMatched();
    CexNormalized();
    var links := [(CexR0, CexO1), (CexR0, CexO2), (CexR0, CexO1)];
    assert NormalizedOf(reference, other) == Ok(links);
    CexDict();
  }

  // The tokens of the example above.
  const CexR0: Tok := (0, "ab")
  const CexR1: Tok := (1, "zz")
  const CexO0: Tok := (0, "q")
  const CexO1: Tok := (1, "ab")
  const CexO2: Tok := (2, "a")

  lemma CexEnumerate()
    ensures Enumerate(["ab", "zz"]) == [CexR0, CexR1]
    ensures Enumerate(["q", "ab", "a"]) == [CexO0, CexO1, CexO2]
  {
  }

  lemma CexRaw()
    ensures RawPass([CexR0, CexR1], [CexO0, CexO1, CexO2], 2)
      == ScanOut([(CexR0, None), (CexR0, Some(CexO1)), (CexR1, None), (CexR1, None)], [CexO0, CexO1, CexO2])
  {
    var r0, r1, o0, o1, o2 := CexR0, CexR1, CexO0, CexO1, CexO2;
    var refT, othT := [r0, r1], [o0, o1, o2];
    assert Window(othT, 0) == [o0, o1];
    assert Window(othT, 1) == [o1, o2];
    var nothing: Option<Tok> := None;
    var noTok: seq<Tok> := [];
    var pA, pB, pC := (r0, nothing), (r0, Some(o1)), (r1, nothing);
    assert Scan(r0, [o0, o1]) == ScanOut([pA, pB], [o0]) by {
      assert [o0, o1][1..] == [o1];
    }
    assert Scan(r1, [o1, o2]) == ScanOut([pC, pC], [o1, o2]) by {
      assert "zz"[0] != "ab"[0];
      assert [o1, o2][1..] == [o2] && [o2][1..] == noTok;
      assert Scan(r1, noTok) == ScanOut([], []);
      assert Scan(r1, [o2]) == ScanOut([pC], [o2]);
    }
    assert RawPass(refT, othT, 1) == ScanOut([pA, pB], [o0]);
  }

  lemma CexMatched()
    ensures var refT, othT := [CexR0, CexR1], [CexO0, CexO1, CexO2];
      && MatchedOf(refT, othT) == [(CexR0, None), (CexR0, Some(CexO1)), (CexR1, None)]
      && Dedup(RawPass(refT, othT, |refT|).missed) == [CexO0, CexO1, CexO2]
  {
    CexMissed();
    CexRaw();
    CexPairs();
  }

  lemma CexPairs()
    ensures var pA, pB, pC := (CexR0, None), (CexR0, Some(CexO1)), (CexR1, None);
      Dedup([pA, pB, pC, pC]) == [pA, pB, pC]
  {
    var nothing: Option<Tok> := None;
    DedupThree((CexR0, nothing), (CexR0, Some(CexO1)), (CexR1, nothing));
  }

  lemma CexMissed()
    ensures Dedup([CexO0, CexO1, CexO2]) == [CexO0, CexO1, CexO2]
  {
    DedupThree(CexO0, CexO1, CexO2);
  }

  lemma DedupThree<T>(a: T, b: T, c: T)
    requires a != b && a != c && b != c
    ensures Dedup([a, b, c]) == [a, b, c] && Dedup([a, b, c, c]) == [a, b, c]
  {
    var none: seq<T> := [];
    DedupSnoc(none, a);
    DedupSnoc([a], b);
    DedupSnoc([a, b], c);
    DedupSnoc([a, b, c], c);
    assert none + [a] == [a] && [a] + [b] == [a, b] && [a, b] + [c] == [a, b, c] && [a, b, c] + [c] == [a, b, c, c];
  }

  lemma DedupBack<T>(a: T, b: T)
    requires a != b
    ensures Dedup([a, b, a]) == [a, b]
  {
    var none: seq<T> := [];
    DedupSnoc(none, a);
    DedupSnoc([a], b);
    DedupSnoc([a, b], a);
    assert none + [a] == [a] && [a] + [b] == [a, b] && [a, b] + [a] == [a, b, a];
  }

  /** The miss of "ab" recovers "ab" and "a", popping "q" and "ab"; the exact pair then adds "ab" once more. */
  lemma CexNormalized()
    ensures NormFold(NormState([], [CexO0, CexO1, CexO2], 0), [(CexR0, None), (CexR0, Some(CexO1)), (CexR1, None)])
      == NormState([(CexR0, CexO1), (CexR0, CexO2), (CexR0, CexO1)], [CexO2], 1)
  {
    assert !Recovers(CexR0, CexO0, 0) by {
      assert "ab"[..1][0] != "q"[0];
    }
    assert Recovers(CexR0, CexO1, 0);
    assert Recovers(CexR0, CexO2, 0) by {
      assert "ab"[..1] == "a";
    }
    assert !Recovers(CexR1, CexO2, 1) by {
      assert "zz"[..1][0] != "a"[0];
    }
    CexFold(CexR0, CexR1, CexO0, CexO1, CexO2);
  }

  /** The three steps of the normalisation loop on the counterexample, for any tokens passing the same tests. */
  lemma CexFold(r0: Tok, r1: Tok, o0: Tok, o1: Tok, o2: Tok)
    requires !Recovers(r0, o0, 0) && Recovers(r0, o1, 0) && Recovers(r0, o2, 0) && !Recovers(r1, o2, o1.0)
    ensures NormFold(NormState([], [o0, o1, o2], 0), [(r0, None), (r0, Some(o1)), (r1, None)])
      == NormState([(r0, o1), (r0, o2), (r0, o1)], [o2], o1.0)
  {
    var nothing: Option<Tok> := None;
    var pA, pB, pC := (r0, nothing), (r0, Some(o1)), (r1, nothing);
    var st0 := NormState([], [o0, o1, o2], 0);
    var st1 := NormState([(r0, o1), (r0, o2)], [o2], 0);
    var st2 := NormState([(r0, o1), (r0, o2), (r0, o1)], [o2], o1.0);
    CexRecoverFirst(r0, o0, o1, o2);
    assert NormStep(st1, pB) == st2;
    CexRecoverLast(r1, o2, st2);
    NormFoldThree(st0, pA, pB, pC);
  }

  lemma NormFoldThree(st: NormState, a: Pair, b: Pair, c: Pair)
    ensures NormFold(st, [a, b, c]) == NormStep(NormStep(NormStep(st, a), b), c)
  {
    var none: seq<Pair> := [];
    NormFoldSnoc(st, none, a);
    NormFoldSnoc(st, [a], b);
    NormFoldSnoc(st, [a, b], c);
    assert none + [a] == [a] && [a] + [b] == [a, b] && [a, b] + [c] == [a, b, c];
  }

  /** Each accepted candidate pops the head of `missed`, not the candidate itself. */
  lemma CexRecoverFirst(r: Tok, o0: Tok, o1: Tok, o2: Tok)
    requires !Recovers(r, o0, 0) && Recovers(r, o1, 0) && Recovers(r, o2, 0)
    ensures NormStep(NormState([], [o0, o1, o2], 0), (r, None)) == NormState([(r, o1), (r, o2)], [o2], 0)
  {
    var noTok: seq<Tok> := [];
    var missed := [o0, o1, o2];
    var st0 := NormState([], missed, 0);
    var stA := NormState([(r, o1)], [o1, o2], 0);
    var st1 := NormState([(r, o1), (r, o2)], [o2], 0);
    assert missed[1..] == [o1, o2] && [o1, o2][1..] == [o2] && [o2][1..] == noTok;
    assert st0.normalized + [(r, o1)] == stA.normalized;
    assert Recover(r, noTok, st1) == st1;
    assert Recover(r, [o2], stA) == st1;
    assert Recover(r, [o1, o2], st0) == st1;
    assert Recover(r, missed, st0) == st1;
    assert PySlice(missed, 0, 5) == missed;
  }

  lemma CexRecoverLast(r: Tok, o: Tok, st: NormState)
    requires st.missed == [o] && !Recovers(r, o, st.latest)
    ensures NormStep(st, (r, None)) == st
  {
    var noTok: seq<Tok> := [];
    assert [o][1..] == noTok;
    assert PySlice([o], 0, 5) == [o];
    assert Recover(r, noTok, st) == st;
  }

  /** The repeated link is dropped, so the recovered "a" decides. */
  lemma CexDict()
    ensures Ref2Other(Dedup([(CexR0, CexO1), (CexR0, CexO2), (CexR0, CexO1)])) == map[0 := 2]
  {
    var e1, e2 := (CexR0, CexO1), (CexR0, CexO2);
    DedupBack(e1, e2);
    var noLink: seq<Link> := [];
    Ref2OtherSnoc(noLink, e1);
    Ref2OtherSnoc([e1], e2);
    assert noLink + [e1] == [e1] && [e1] + [e2] == [e1, e2];
  }

  lemma DedupSnoc<T>(xs: seq<T>, y: T)
    ensures Dedup(xs + [y]) == if y in xs then Dedup(xs) else Dedup(xs) + [y]
  {
    assert (xs + [y])[..|xs|] == xs;
  }

  lemma NormFoldSnoc(st: NormState, ms: seq<Pair>, p: Pair)
    ensures NormFold(st, ms + [p]) == NormStep(NormFold(st, ms), p)
  {
    assert (ms + [p])[..|ms|] == ms;
  }

  lemma Ref2OtherSnoc(links: seq<Link>, e: Link)
    ensures Ref2Other(links + [e]) == Ref2Other(links)[e.0.0 := e.1.0]
  {
    assert (links + [e])[..|links|] == links;
  }

  lemma DedupHas<T>(xs: seq<T>, x: T)
    requires x in xs
    ensures x in Dedup(xs)
  {
    DedupMembers(xs);
  }

  lemma DedupOrderAt<T>(xs: seq<T>, a: nat, b: nat, x: T, y: T)
    requires a < |Dedup(xs)| && b < |Dedup(xs)| && Dedup(xs)[a] == x && Dedup(xs)[b] == y
    requires FirstIndex(xs, x) < FirstIndex(xs, y)
    ensures a < b
  {
    DedupSpec(xs);
  }

  /** `ordered_unique` keeps the order of first occurrences. */
  lemma DedupOrder<T>(xs: seq<T>, x: T, y: T)
    requires x in xs && y in xs && FirstIndex(xs, x) < FirstIndex(xs, y)
    ensures FirstIndex(Dedup(xs), x) < FirstIndex(Dedup(xs), y) < |Dedup(xs)|
  {
    var d := Dedup(xs);
    DedupHas(xs, x);
    DedupHas(xs, y);
    DedupOrderAt(xs, FirstIndex(d, x), FirstIndex(d, y), x, y);
  }

  /** The window of a token that misses its own index and hits the next one. */
  lemma ScanMissThenHit(r: Tok, othT: seq<Tok>, i: nat)
    requires i + 1 < |othT| && r.1 != othT[i].1 && r.1 == othT[i + 1].1
    ensures Scan(r, Window(othT, i)).pairs == [(r, None), (r, Some(othT[i + 1]))]
  {
    var win := Window(othT, i);
    assert win == [othT[i], othT[i + 1]];
    assert win[1..] == [othT[i + 1]];
  }

  /** The first occurrence in `a + b` of an element missing from `a` lies in `b`. */
  lemma {:induction false} FirstIndexAppend<T>(a: seq<T>, b: seq<T>, x: T)
    requires x !in a
    ensures FirstIndex(a + b, x) == |a| + FirstIndex(b, x)
  {
    if a == [] {
      assert a + b == b;
    } else {
      assert (a + b)[0] == a[0];
      assert (a + b)[1..] == a[1..] + b;
      FirstIndexAppend(a[1..], b, x);
    }
  }

  lemma SplitAfter<T>(s: seq<T>, pre: seq<T>, x: T, y: T) returns (t: seq<T>)
    requires |pre| + 2 <= |s| && s[..|pre| + 2] == pre + [x, y]
    ensures s == pre + t && |t| >= 2 && t[0] == x && t[1] == y
  {
    var n := |pre|;
    t := [x, y] + s[n + 2..];
    assert s == s[..n + 2] + s[n + 2..];
  }

  lemma FirstIndexTwo<T>(t: seq<T>, x: T, y: T)
    requires |t| >= 2 && t[0] == x && t[1] == y && x != y
    ensures FirstIndex(t, x) == 0 && FirstIndex(t, y) == 1
  {
    assert t[1..][0] == y;
  }

  /** Two distinct new elements right behind a prefix have their first occurrences there. */
  lemma FirstTwo<T>(s: seq<T>, pre: seq<T>, x: T, y: T)
    requires |pre| + 2 <= |s| && s[..|pre| + 2] == pre + [x, y]
    requires x !in pre && y !in pre && x != y
    ensures FirstIndex(s, x) == |pre| && FirstIndex(s, y) == |pre| + 1
  {
    var t := SplitAfter(s, pre, x, y);
    FirstIndexAppend(pre, t, x);
    FirstIndexAppend(pre, t, y);
    FirstIndexTwo(t, x, y);
  }

  /** In the first loop, the miss of token `i` at its own index comes right before its exact pair one ahead. */
  lemma RawOrder(refT: seq<Tok>, othT: seq<Tok>, i: nat)
    requires Indexed(refT) && i < |refT| && i + 1 < |othT|
    requires refT[i].1 != othT[i].1 && refT[i].1 == othT[i + 1].1
    ensures var raw := RawPass(refT, othT, |refT|).pairs;
      && (refT[i], None) in raw && (refT[i], Some(othT[i + 1])) in raw
      && FirstIndex(raw, (refT[i], None)) < FirstIndex(raw, (refT[i], Some(othT[i + 1])))
  {
    var raw := RawPass(refT, othT, |refT|).pairs;
    var pN, pS := (refT[i], None), (refT[i], Some(othT[i + 1]));
    ScanMissThenHit(refT[i], othT, i);
    var pre := RawPass(refT, othT, i).pairs;
    RawPassPrefix(refT, othT, i + 1, |refT|);
    assert RawPass(refT, othT, i + 1).pairs == pre + [pN, pS];
    assert refT[i].0 == i;
    assert pN !in pre by {
      if pN in pre {
        RawPairAt(refT, othT, i, pN);
      }
    }
    assert pS !in pre by {
      if pS in pre {
        RawPairAt(refT, othT, i, pS);
      }
    }
    FirstTwo(raw, pre, pN, pS);
  }

  lemma DistinctAfter<T>(s: seq<T>, a: nat, b: nat, k: nat)
    requires NoDuplicates(s) && a < b < k < |s|
    ensures s[k] != s[a] && s[k] != s[b]
  {
  }

  /** `ordered_unique(matched)` opens `matched`. */
  lemma MatchedStart(refT: seq<Tok>, othT: seq<Tok>)
    requires !(|refT| > |othT| && |othT| == 0)
    ensures var d := Dedup(RawPass(refT, othT, |refT|).pairs);
      |d| <= |MatchedOf(refT, othT)| && MatchedOf(refT, othT)[..|d|] == d
  {
  }

  /** Behind both pairs of token `i` in `matched`, no pair belongs to `i`. */
  lemma AfterBoth(refT: seq<Tok>, othT: seq<Tok>, i: nat, a: nat, b: nat, k: nat)
    requires Indexed(refT) && i < |refT| && i + 1 < |othT|
    requires refT[i].1 != othT[i].1 && refT[i].1 == othT[i + 1].1
    requires var d := Dedup(RawPass(refT, othT, |refT|).pairs);
      a < b < |d| && d[a] == (refT[i], None) && d[b] == (refT[i], Some(othT[i + 1]))
    requires b < k < |MatchedOf(refT, othT)|
    ensures MatchedOf(refT, othT)[k].0.0 != i
  {
    var raw := RawPass(refT, othT, |refT|).pairs;
    var d := Dedup(raw);
    var p := MatchedOf(refT, othT)[k];
    MatchedPair(refT, othT, p);
    ScanMissThenHit(refT[i], othT, i);
    if k < |d| {
      MatchedStart(refT, othT);
      assert MatchedOf(refT, othT)[k] == d[k];
      DedupDistinct(raw);
      DistinctAfter(d, a, b, k);
    }
  }

  /**
   * When token `i` misses its own index and hits the next one, its exact
   * pair sits in `matched` behind its miss, and no later pair belongs to `i`.
   */
  lemma NextSplit(refT: seq<Tok>, othT: seq<Tok>, i: nat) returns (b: nat)
    requires Indexed(refT) && i < |refT| && i + 1 < |othT|
    requires refT[i].1 != othT[i].1 && refT[i].1 == othT[i + 1].1
    ensures b < |MatchedOf(refT, othT)| && MatchedOf(refT, othT)[b] == (refT[i], Some(othT[i + 1]))
    ensures forall p :: p in MatchedOf(refT, othT)[b + 1..] ==> p.0.0 != i
  {
    var raw := RawPass(refT, othT, |refT|).pairs;
    var d := Dedup(raw);
    var pN, pS := (refT[i], None), (refT[i], Some(othT[i + 1]));
    RawOrder(refT, othT, i);
    DedupOrder(raw, pN, pS);
    var a := FirstIndex(d, pN);
    b := FirstIndex(d, pS);
    MatchedStart(refT, othT);
    var matched := MatchedOf(refT, othT);
    assert matched[b] == d[b];
    forall p | p in matched[b + 1..] ensures p.0.0 != i {
      var k :| b + 1 <= k < |matched| && matched[k] == p;
      AfterBoth(refT, othT, i, a, b, k);
    }
  }

  /** Folding a pair with a partner appends its link; what the later pairs append belongs to their reference tokens. */
  lemma FoldSplit(st0: NormState, head: seq<Pair>, p: Pair, tail: seq<Pair>) returns (pre: seq<Link>, rest: seq<Link>)
    requires p.1.Some?
    ensures NormFold(st0, head + [p] + tail).normalized == pre + [(p.0, p.1.value)] + rest
    ensures forall x :: x in rest ==> exists q :: q in tail && q.0 == x.0
  {
    NormFoldAppend(st0, head + [p], tail);
    NormFoldSnoc(st0, head, p);
    var s0 := NormFold(st0, head);
    NormStepFacts(s0, p);
    pre := s0.normalized;
    rest := FoldTail(NormFold(st0, head + [p]), tail);
  }

  /** What the later pairs append belongs to their reference tokens. */
  lemma FoldTail(s1: NormState, tail: seq<Pair>) returns (rest: seq<Link>)
    ensures NormFold(s1, tail).normalized == s1.normalized + rest
    ensures forall x :: x in rest ==> exists q :: q in tail && q.0 == x.0
  {
    NormFacts(s1, tail);
    var links := NormFold(s1, tail).normalized;
    rest := links[|s1.normalized|..];
    assert links == links[..|s1.normalized|] + rest;
    forall x | x in rest ensures exists q :: q in tail && q.0 == x.0 {
      var k :| 0 <= k < |rest| && rest[k] == x;
      assert links[|s1.normalized| + k] == x;
      var q :| q in tail && FromPair(x, q, s1.missed);
    }
  }

  /** A pair with a partner decides the dictionary entry of its reference token unless a later pair belongs to the same token. */
  lemma FoldLastWins(st0: NormState, head: seq<Pair>, p: Pair, tail: seq<Pair>)
    requires p.1.Some?
    requires forall q :: q in tail ==> q.0.0 != p.0.0
    ensures var m := Ref2Other(NormFold(st0, head + [p] + tail).normalized);
      p.0.0 in m && m[p.0.0] == p.1.value.0
  {
    var pre, rest := FoldSplit(st0, head, p, tail);
    forall x | x in rest ensures x.0.0 != p.0.0 {
      var q :| q in tail && q.0 == x.0;
    }
    Ref2OtherLast(pre, (p.0, p.1.value), rest);
  }

  /**
   * With the links folded in order, a reference token that misses its own
   * index and equals the other token one ahead is aligned one ahead.
   */
  lemma AlignNextCorrected(reference: seq<string>, other: seq<string>, i: nat)
    requires i < |reference| && i + 1 < |other| && reference[i] != other[i] && reference[i] == other[i + 1]
    ensures var r := AlignCorrected(reference, other); r.Ok? && i in r.value && r.value[i] == i + 1
  {
    var refT, othT := Enumerate(reference), Enumerate(other);
    var b := NextSplit(refT, othT, i);
    var matched := MatchedOf(refT, othT);
    var head, tail := matched[..b], matched[b + 1..];
    assert matched == head + [matched[b]] + tail;
    FoldLastWins(NormState([], MissedOf(refT, othT), 0), head, matched[b], tail);
    assert NormalizedOf(reference, other) == Ok(LinksOf(refT, othT));
  }
}
