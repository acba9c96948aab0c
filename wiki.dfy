/**
 * Parsing raw Wikipedia markup: wiki links `[[Title|surface]]` into
 * title, surface form and article URL, collected per surface form; page
 * text split into sections at its `== heading ==` lines; and the
 * `|key = value` lines of an infobox.
 */
module Wiki {
  import opened Common
  import opened PyDict

  // ---- _get_wiki_link_details ----

  datatype WikiLink = WikiLink(title: string, surfaceForm: string, wikiLink: string)

  const WikiPrefix: string := "https://en.wikipedia.org/wiki/"

  /** The article URL for a title: spaces become '_'. */
  function WikiUrl(title: string): string
  {
    WikiPrefix + ReplaceAll(title, " ", "_")
  }

  /** File and category tags give `{}`. */
  predicate IgnoredTag(b: string)
  {
    StartsWith(b, "[[File:") || StartsWith(b, "[[Category:")
  }

  /** A link from its title and surface form as cut out of the markup: '<br/>' in the title reads as ' '. */
  function MakeLink(parts: (string, string), plural: bool): (w: WikiLink)
    ensures w.wikiLink == WikiUrl(w.title)
  {
    var title := ReplaceAll(parts.0, "<br/>", " ");
    WikiLink(title, if plural then parts.1 + "s" else parts.1, WikiUrl(title))
  }

  /**
   * Title and surface form as `_get_wiki_link_details` cuts them: with a
   * '|' before the last character, the text after "[[" up to the first '|'
   * and the rest joined with ' ' less its last three characters; without,
   * `[2:-3]` for both.
   */
  function LinkParts(b: string): (string, string)
  {
    if '|' in PySlice(b, 0, -1) then
      var tmp := Split(b, '|');
      (PySlice(tmp[0], 2, |tmp[0]|), PySlice(Join(tmp[1..], " "), 0, -3))
    else (PySlice(b, 2, -3), PySlice(b, 2, -3))
  }

  /**
   * `_get_wiki_link_details(bracketed_string)` for a link followed by one
   * more character; `None` is the empty dict, and `bracketed_string[-1]`
   * raises IndexError on the empty string.
   */
  function WikiLinkDetails(b: string): (r: Result<Option<WikiLink>>)
    ensures r.Err? <==> b == ""
    ensures r.Ok? ==> (r.value.None? <==> IgnoredTag(b))
  {
    if IgnoredTag(b) then Ok(None)
    else if b == "" then Err(IndexError)
    else Ok(Some(MakeLink(LinkParts(b), b[|b| - 1] == 's')))
  }

  lemma NoPipeIn(t: string, extra: string)
    requires '|' !in t && '|' !in extra
    ensures '|' !in t + extra && '|' !in extra + t
  {
  }

  /**
   * "[[T]]c": title T with '<br/>' read as ' ', surface form T, plus 's'
   * when the following character is 's'.
   */
  lemma PlainLink(b: string, t: string, c: char)
    requires b == "[[" + t + "]]" + [c] && '|' !in t && !IgnoredTag(b)
    ensures WikiLinkDetails(b) == Ok(Some(WikiLink(ReplaceAll(t, "<br/>", " "), if c == 's' then t + "s" else t,
                                                  WikiUrl(ReplaceAll(t, "<br/>", " ")))))
  {
    assert PySlice(b, 0, -1) == "[[" + t + "]]";
    NoPipeIn("[[", t);
    NoPipeIn("[[" + t, "]]");
    assert PySlice(b, 2, -3) == t;
    assert LinkParts(b) == (t, t);
  }

  /** A link with one '|' splits into the part before it and the part after it. */
  lemma PipedParts(t: string, f: string, tail: string)
    requires '|' !in t && '|' !in f && '|' !in tail
    ensures Split("[[" + t + "|" + f + tail, '|') == ["[[" + t, f + tail]
  {
    var head, rest := "[[" + t, f + tail;
    assert "[[" + t + "|" + f + tail == head + ['|'] + rest;
    NoPipeIn("[[", t);
    NoPipeIn(f, tail);
    SplitAtFirst(head, '|', rest);
    assert IndexOf(rest, '|') == |rest|;
  }

  lemma SecondOnly(a: string, b: string)
    ensures [a, b][1..] == [b] && Join([a, b][1..], " ") == b
  {
    assert [a, b][1..] == [b];
  }

  lemma PipedLinkParts(b: string, t: string, f: string, c: char)
    requires b == "[[" + t + "|" + f + "]]" + [c] && '|' !in t && '|' !in f && c != '|'
    ensures LinkParts(b) == (t, f)
  {
    var head, rest := "[[" + t, f + "]]" + [c];
    assert PySlice(b, 0, -1)[|head|] == '|';
    PipedParts(t, f, "]]" + [c]);
    assert b == "[[" + t + "|" + f + ("]]" + [c]);
    SecondOnly(head, rest);
    assert PySlice(head, 2, |head|) == t;
    assert PySlice(rest, 0, -3) == f;
  }

  /** "[[T|F]]c": title T with '<br/>' read as ' ', surface form F, plus 's' when the following character is 's'. */
  lemma PipedLink(b: string, t: string, f: string, c: char)
    requires b == "[[" + t + "|" + f + "]]" + [c] && '|' !in t && '|' !in f && c != '|' && !IgnoredTag(b)
    ensures WikiLinkDetails(b) == Ok(Some(WikiLink(ReplaceAll(t, "<br/>", " "), if c == 's' then f + "s" else f,
                                                  WikiUrl(ReplaceAll(t, "<br/>", " ")))))
  {
    PipedLinkParts(b, t, f, c);
  }

  /** As written, a plain link that ends the text loses the last character of its title. */
  lemma PlainLinkAtEnd(b: string, t: string)
    requires b == "[[" + t + "]]" && |t| >= 1 && '|' !in t && !IgnoredTag(b)
    ensures WikiLinkDetails(b) == Ok(Some(WikiLink(ReplaceAll(t[..|t| - 1], "<br/>", " "), t[..|t| - 1],
                                                  WikiUrl(ReplaceAll(t[..|t| - 1], "<br/>", " ")))))
  {
    assert PySlice(b, 0, -1) == "[[" + t + "]";
    NoPipeIn("[[", t);
    NoPipeIn("[[" + t, "]");
    assert PySlice(b, 2, -3) == t[..|t| - 1];
    assert LinkParts(b) == (t[..|t| - 1], t[..|t| - 1]);
  }

  /** "[[Vienna]]" at the end of the text is read as the link "Vienn". */
  lemma ViennaAtEnd()
    ensures WikiLinkDetails("[[Vienna]]").Ok? && WikiLinkDetails("[[Vienna]]").value.Some?
    ensures WikiLinkDetails("[[Vienna]]").value.value.surfaceForm == "Vienn"
  {
    assert !StartsWith("[[Vienna]]", "[[File:") && !StartsWith("[[Vienna]]", "[[Category:") by {
      assert "[[Vienna]]"[2] != "[[File:"[2] && "[[Vienna]]"[2] != "[[Category:"[2];
    }
    PlainLinkAtEnd("[[Vienna]]", "Vienna");
    assert "Vienna"[..5] == "Vienn";
  }

  /** Title and surface form cut out of the match alone: `[2:-2]`, or around the first '|'. */
  function CorrectedParts(link: string): (string, string)
  {
    if '|' in link then
      var tmp := Split(link, '|');
      (PySlice(tmp[0], 2, |tmp[0]|), PySlice(Join(tmp[1..], " "), 0, -2))
    else (PySlice(link, 2, -2), PySlice(link, 2, -2))
  }

  /**
   * The link read from the match alone, with the character after it (if
   * any) deciding the plural 's'.
   */
  function WikiLinkCorrected(link: string, next: Option<char>): (r: Option<WikiLink>)
    ensures r.None? <==> IgnoredTag(link)
  {
    if IgnoredTag(link) then None else Some(MakeLink(CorrectedParts(link), next == Some('s')))
  }

  /** Corrected, "[[T]]" gives title T and surface form T whether or not a character follows. */
  lemma PlainLinkCorrected(link: string, t: string, next: Option<char>)
    requires link == "[[" + t + "]]" && '|' !in t && !IgnoredTag(link)
    ensures WikiLinkCorrected(link, next) == Some(WikiLink(ReplaceAll(t, "<br/>", " "), if next == Some('s') then t + "s" else t,
                                                         WikiUrl(ReplaceAll(t, "<br/>", " "))))
  {
    NoPipeIn("[[", t);
    NoPipeIn("[[" + t, "]]");
    assert PySlice(link, 2, -2) == t;
    assert CorrectedParts(link) == (t, t);
  }

  /** Corrected, "[[T|F]]" gives title T and surface form F whether or not a character follows. */
  lemma PipedLinkCorrected(link: string, t: string, f: string, next: Option<char>)
    requires link == "[[" + t + "|" + f + "]]" && '|' !in t && '|' !in f && !IgnoredTag(link)
    ensures WikiLinkCorrected(link, next) == Some(WikiLink(ReplaceAll(t, "<br/>", " "), if next == Some('s') then f + "s" else f,
                                                         WikiUrl(ReplaceAll(t, "<br/>", " "))))
  {
    var head, rest := "[[" + t, f + "]]";
    assert link[|head|] == '|';
    PipedParts(t, f, "]]");
    SecondOnly(head, rest);
    assert PySlice(head, 2, |head|) == t;
    assert PySlice(rest, 0, -2) == f;
    assert CorrectedParts(link) == (t, f);
  }

  // ---- get_wiki_linked_entities ----

  /** "]]" starts at `j`. */
  predicate ClosesAt(s: string, j: int)
  {
    0 <= j && j + 2 <= |s| && s[j..j + 2] == "]]"
  }

  /**
   * The end of the lazy `.+?\]\]` once `s[q - 1]` was taken in: the first
   * "]]" at or after `q`, with no '\n' before it.
   */
  function CloseAt(s: string, q: nat): (e: Option<nat>)
    requires q >= 1
    ensures e.Some? ==> q + 2 <= e.value <= |s| && s[e.value - 2..e.value] == "]]"
    ensures e.Some? ==> forall j :: q - 1 <= j < e.value - 2 ==> s[j] != '\n'
    ensures e.Some? ==> forall j :: q <= j < e.value - 2 ==> !ClosesAt(s, j)
    decreases |s| - q
  {
    if q > |s| then None
    else if s[q - 1] == '\n' then None
    else if q + 2 <= |s| && s[q..q + 2] == "]]" then Some(q + 2)
    else CloseAt(s, q + 1)
  }

  /** Where a match of `\[\[.+?\]\]` starting at `i` ends, if there is one. */
  function MatchAt(s: string, i: nat): (e: Option<nat>)
    ensures e.Some? ==> i + 5 <= e.value <= |s| && s[i..i + 2] == "[[" && s[e.value - 2..e.value] == "]]"
  {
    if i + 2 <= |s| && s[i..i + 2] == "[[" then CloseAt(s, i + 3) else None
  }

  /** `re.finditer(r"\[\[.+?\]\]", s)` from position `i`, as (start, end) pairs. */
  function FindLinks(s: string, i: nat): (ms: seq<(nat, nat)>)
    ensures forall k :: 0 <= k < |ms| ==> i <= ms[k].0 && MatchAt(s, ms[k].0) == Some(ms[k].1)
    ensures forall k :: 0 < k < |ms| ==> ms[k - 1].1 <= ms[k].0
    decreases |s| - i
  {
    if i >= |s| then []
    else
      match MatchAt(s, i)
      case Some(e) =>
        var rest := FindLinks(s, e);
        assert forall k :: 0 <= k < |rest| ==> e <= rest[k].0;
        [(i, e)] + rest
      case None => FindLinks(s, i + 1)
  }

  /**
   * `finditer` skips no match: every position at or after `i` where a
   * match could start lies inside one of the matches found.
   */
  lemma {:induction false} FindLinksComplete(s: string, i: nat, p: nat)
    requires i <= p < |s| && MatchAt(s, p).Some?
    ensures exists k :: 0 <= k < |FindLinks(s, i)| && FindLinks(s, i)[k].0 <= p < FindLinks(s, i)[k].1
    decreases |s| - i
  {
    var ms := FindLinks(s, i);
    match MatchAt(s, i)
    case Some(e) =>
      assert ms == [(i, e)] + FindLinks(s, e);
      if p < e {
        assert ms[0].0 <= p < ms[0].1;
      } else {
        FindLinksComplete(s, e, p);
        var k :| 0 <= k < |FindLinks(s, e)| && FindLinks(s, e)[k].0 <= p < FindLinks(s, e)[k].1;
        assert ms[k + 1] == FindLinks(s, e)[k];
      }
    case None =>
      assert ms == FindLinks(s, i + 1);
      FindLinksComplete(s, i + 1, p);
  }

  /** `raw_text[match.start():match.end()+1]`: the match and the character after it, if any. */
  function LinkText(raw: string, m: (nat, nat)): string
  {
    PySlice(raw, m.0, m.1 + 1)
  }

  lemma LinkTextShape(raw: string, m: (nat, nat))
    requires m.0 < m.1 <= |raw|
    ensures m.1 < |raw| ==> LinkText(raw, m) == raw[m.0..m.1] + [raw[m.1]]
    ensures m.1 == |raw| ==> LinkText(raw, m) == raw[m.0..m.1]
  {
    if m.1 < |raw| {
      assert raw[m.0..m.1 + 1] == raw[m.0..m.1] + [raw[m.1]];
    }
  }

  /** The assignment one match makes: none for an ignored tag. */
  function LinkPair(raw: string, m: (nat, nat)): (p: seq<(string, string)>)
    ensures |p| <= 1
  {
    match WikiLinkDetails(LinkText(raw, m))
    case Ok(Some(w)) => [(w.surfaceForm, w.wikiLink)]
    case _ => []
  }

  /** The (surface form, URL) assignments the matches make, in order. */
  function LinkPairs(raw: string, ms: seq<(nat, nat)>): seq<(string, string)>
  {
    if ms == [] then [] else LinkPairs(raw, ms[..|ms| - 1]) + LinkPair(raw, ms[|ms| - 1])
  }

  /** A match is never empty, so the text handed to `_get_wiki_link_details` never is. */
  lemma LinkTextNonEmpty(raw: string, m: (nat, nat))
    requires m.0 < m.1 <= |raw|
    ensures WikiLinkDetails(LinkText(raw, m)).Ok?
  {
    LinkTextShape(raw, m);
  }

  /** What `get_wiki_linked_entities(raw_text)` returns. */
  function LinkedEntitiesSpec(raw: string): Dict<string, string>
  {
    PutAll(LinkPairs(raw, FindLinks(raw, 0)))
  }

  /** `get_wiki_linked_entities(raw_text)` */
  method GetWikiLinkedEntities(raw: string) returns (d: Dict<string, string>)
    ensures d == LinkedEntitiesSpec(raw)
  {
    var ms := FindLinks(raw, 0);
    ghost var pairs: seq<(string, string)> := [];
    d := Empty();
    var k := 0;
    while k < |ms|
      invariant k <= |ms|
      invariant pairs == LinkPairs(raw, ms[..k]) && d == PutAll(pairs)
    {
      var wikiInfo := WikiLinkDetails(LinkText(raw, ms[k]));
      LinkPairsNext(raw, ms, k, wikiInfo);
      if wikiInfo.value.Some? {
        PutAllSnoc(pairs, wikiInfo.value.value.surfaceForm, wikiInfo.value.value.wikiLink);
        d := d.Put(wikiInfo.value.value.surfaceForm, wikiInfo.value.value.wikiLink);
        pairs := pairs + [(wikiInfo.value.value.surfaceForm, wikiInfo.value.value.wikiLink)];
      }
      k := k + 1;
    }
    assert ms[..k] == ms;
  }

  /** The assignment match `k` adds, in terms of what `_get_wiki_link_details` returned for it. */
  lemma LinkPairsNext(raw: string, ms: seq<(nat, nat)>, k: nat, info: Result<Option<WikiLink>>)
    requires k < |ms| && MatchAt(raw, ms[k].0) == Some(ms[k].1)
    requires info == WikiLinkDetails(LinkText(raw, ms[k]))
    ensures info.Ok?
    ensures LinkPairs(raw, ms[..k + 1]) == LinkPairs(raw, ms[..k])
      + (if info.value.Some? then [(info.value.value.surfaceForm, info.value.value.wikiLink)] else [])
  {
    assert ms[..k + 1][..k] == ms[..k];
    LinkTextNonEmpty(raw, ms[k]);
  }

  /**
   * A surface form is in the result exactly when some link gives it, and
   * it maps to the URL of the last such link.
   */
  lemma LinkedEntitiesLastWins(raw: string, surfaceForm: string, j: int)
    ensures surfaceForm in LinkedEntitiesSpec(raw).entries <==> Assigns(LinkPairs(raw, FindLinks(raw, 0)), surfaceForm)
    ensures LastAssigns(LinkPairs(raw, FindLinks(raw, 0)), j, surfaceForm) ==>
      surfaceForm in LinkedEntitiesSpec(raw).entries &&
      LinkedEntitiesSpec(raw).entries[surfaceForm] == LinkPairs(raw, FindLinks(raw, 0))[j].1
  {
    var pairs := LinkPairs(raw, FindLinks(raw, 0));
    PutAllKeys(pairs, surfaceForm);
    if LastAssigns(pairs, j, surfaceForm) {
      PutAllLastWins(pairs, surfaceForm, j);
    }
  }

  // ---- extract_sections ----

  datatype Section = Section(index: int, level: int, content: string)

  /** A heading's level: `tmp.count("=")//2 - 1`. */
  function HeadingLevel(tmp: string): int
  {
    CountChar(tmp, '=') / 2 - 1
  }

  /** A heading's title: `tmp.replace("=", "").strip()`. */
  function HeadingTitle(tmp: string): string
  {
    Strip(ReplaceAll(tmp, "=", ""))
  }

  /** A heading's (level, title), the heading being `text[start:end]`. */
  function Heading(text: string, m: (int, int)): (int, string)
  {
    var tmp := PySlice(text, m.0, m.1);
    (HeadingLevel(tmp), HeadingTitle(tmp))
  }

  /** `section_titles`: "Summary" at level 1, then one per heading match. */
  function SectionTitles(text: string, ms: seq<(int, int)>): (r: seq<(int, string)>)
    ensures |r| == |ms| + 1 && r[0] == (1, "Summary")
  {
    if ms == [] then [(1, "Summary")] else SectionTitles(text, ms[..|ms| - 1]) + [Heading(text, ms[|ms| - 1])]
  }

  /** After the summary, title `i` comes from heading `i - 1`. */
  lemma {:induction false} TitleAt(text: string, ms: seq<(int, int)>, i: nat)
    requires 0 < i <= |ms|
    ensures SectionTitles(text, ms)[i] == Heading(text, ms[i - 1])
  {
    if i < |ms| {
      TitleAt(text, ms[..|ms| - 1], i);
    }
  }

  /** `section_starts`: 0, then one past the end of each heading. */
  function SectionStarts(ms: seq<(int, int)>): (r: seq<int>)
    ensures |r| == |ms| + 1 && r[0] == 0 && forall i :: 0 < i <= |ms| ==> r[i] == ms[i - 1].1 + 1
  {
    if ms == [] then [0] else SectionStarts(ms[..|ms| - 1]) + [ms[|ms| - 1].1 + 1]
  }

  /** `section_ends`: where each heading starts. */
  function SectionEnds(ms: seq<(int, int)>): (r: seq<int>)
    ensures |r| == |ms| && forall i :: 0 <= i < |ms| ==> r[i] == ms[i].0
  {
    if ms == [] then [] else SectionEnds(ms[..|ms| - 1]) + [ms[|ms| - 1].0]
  }

  /**
   * Entry `i` of `zip(section_titles, section_starts, section_ends)`: the
   * title, and a section with index `i + 1`, the title's level and the
   * stripped text between the two positions.
   */
  function ZipEntry(text: string, titles: seq<(int, string)>, starts: seq<int>, ends: seq<int>, i: nat): (string, Section)
    requires i < |titles| && i < |starts| && i < |ends|
  {
    (titles[i].1, Section(i + 1, titles[i].0, Strip(PySlice(text, starts[i], ends[i]))))
  }

  /** The first `n` entries of the zip, in order. */
  function ZipSections(text: string, titles: seq<(int, string)>, starts: seq<int>, ends: seq<int>, n: nat): (r: seq<(string, Section)>)
    requires n <= |titles| && n <= |starts| && n <= |ends|
    ensures |r| == n
  {
    if n == 0 then [] else ZipSections(text, titles, starts, ends, n - 1) + [ZipEntry(text, titles, starts, ends, n - 1)]
  }

  lemma {:induction false} ZipAt(text: string, titles: seq<(int, string)>, starts: seq<int>, ends: seq<int>, n: nat, i: nat)
    requires i < n <= |titles| && n <= |starts| && n <= |ends|
    ensures ZipSections(text, titles, starts, ends, n)[i] == ZipEntry(text, titles, starts, ends, i)
  {
    if i < n - 1 {
      ZipAt(text, titles, starts, ends, n - 1, i);
      assert ZipSections(text, titles, starts, ends, n)[i] == ZipSections(text, titles, starts, ends, n - 1)[i];
    }
  }

  /**
   * The entry the zip assigns for section `i`: titled by heading `i - 1`
   * (the summary for 0), with index `i + 1`, its text running from the end
   * of that heading to the start of heading `i`.
   */
  function SectionEntry(text: string, ms: seq<(int, int)>, i: nat): (string, Section)
    requires i < |ms|
  {
    ZipEntry(text, SectionTitles(text, ms), SectionStarts(ms), SectionEnds(ms), i)
  }

  /**
   * The entries, in order; `zip` stops at the shortest list, so the text
   * after the last heading is never a section.
   */
  function SectionPairs(text: string, ms: seq<(int, int)>): (r: seq<(string, Section)>)
  {
    ZipSections(text, SectionTitles(text, ms), SectionStarts(ms), SectionEnds(ms), |ms|)
  }

  lemma SectionPairAt(text: string, ms: seq<(int, int)>, i: nat)
    requires i < |ms|
    ensures |SectionPairs(text, ms)| == |ms| && SectionPairs(text, ms)[i] == SectionEntry(text, ms, i)
  {
    ZipAt(text, SectionTitles(text, ms), SectionStarts(ms), SectionEnds(ms), |ms|, i);
  }

  /** The entry of section `i` spelled out: the summary first, then each heading's title and level. */
  lemma SectionEntryIs(text: string, ms: seq<(int, int)>, i: nat)
    requires i < |ms|
    ensures var title := if i == 0 then (1, "Summary") else Heading(text, ms[i - 1]);
      var start := if i == 0 then 0 else ms[i - 1].1 + 1;
      SectionEntry(text, ms, i) == (title.1, Section(i + 1, title.0, Strip(PySlice(text, start, ms[i].0))))
  {
    if i > 0 {
      TitleAt(text, ms, i);
    }
  }

  /** `extract_sections(page_text)`, the heading matches of `=+(\s.+\s)=+` given as (start, end) pairs. */
  method ExtractSections(pageText: string, ms: seq<(int, int)>) returns (d: Dict<string, Section>)
    ensures d == PutAll(SectionPairs(pageText, ms))
  {
    var sectionEnds: seq<int> := [];
    var sectionStarts: seq<int> := [0];
    var sectionTitles: seq<(int, string)> := [(1, "Summary")];
    var k := 0;
    while k < |ms|
      invariant k <= |ms|
      invariant sectionTitles == SectionTitles(pageText, ms[..k])
      invariant sectionStarts == SectionStarts(ms[..k]) && sectionEnds == SectionEnds(ms[..k])
    {
      assert ms[..k + 1][..k] == ms[..k];
      var tmp := PySlice(pageText, ms[k].0, ms[k].1);
      var secLevel := HeadingLevel(tmp);
      var title := HeadingTitle(tmp);
      sectionEnds := sectionEnds + [ms[k].0];
      sectionStarts := sectionStarts + [ms[k].1 + 1];
      sectionTitles := sectionTitles + [(secLevel, title)];
      k := k + 1;
    }
    assert ms[..k] == ms;
    d := ZipIntoDict(pageText, sectionTitles, sectionStarts, sectionEnds);
  }

  /** The second loop of `extract_sections`: `for title, start, end in zip(...)`, numbering from 1. */
  method ZipIntoDict(pageText: string, sectionTitles: seq<(int, string)>, sectionStarts: seq<int>, sectionEnds: seq<int>)
    returns (d: Dict<string, Section>)
    requires |sectionEnds| <= |sectionTitles| && |sectionEnds| <= |sectionStarts|
    ensures d == PutAll(ZipSections(pageText, sectionTitles, sectionStarts, sectionEnds, |sectionEnds|))
  {
    d := Empty();
    ghost var pairs: seq<(string, Section)> := [];
    var i := 0;
    while i < |sectionEnds|
      invariant i <= |sectionEnds|
      invariant pairs == ZipSections(pageText, sectionTitles, sectionStarts, sectionEnds, i)
      invariant d == PutAll(pairs)
    {
      var entry := ZipEntry(pageText, sectionTitles, sectionStarts, sectionEnds, i);
      PutAllSnoc(pairs, entry.0, entry.1);
      d := d.Put(entry.0, entry.1);
      pairs := pairs + [entry];
      i := i + 1;
    }
    assert i == |sectionEnds|;
  }

  /**
   * A title is a key exactly when one of the first |ms| sections (the
   * summary and those of every heading but the last) has it, and it holds
   * the last such section.
   */
  lemma SectionsLastWins(text: string, ms: seq<(int, int)>, title: string, j: int)
    ensures title in PutAll(SectionPairs(text, ms)).entries <==>
      exists i :: 0 <= i < |ms| && SectionEntry(text, ms, i).0 == title
    ensures LastAssigns(SectionPairs(text, ms), j, title) ==>
      j < |ms| && title in PutAll(SectionPairs(text, ms)).entries &&
      PutAll(SectionPairs(text, ms)).entries[title] == SectionEntry(text, ms, j).1
  {
    var pairs := SectionPairs(text, ms);
    PutAllKeys(pairs, title);
    if title in PutAll(pairs).entries {
      var i :| 0 <= i < |pairs| && pairs[i].0 == title;
      SectionPairAt(text, ms, i);
    }
    if i :| 0 <= i < |ms| && SectionEntry(text, ms, i).0 == title {
      SectionPairAt(text, ms, i);
      assert pairs[i].0 == title;
    }
    if LastAssigns(pairs, j, title) {
      PutAllLastWins(pairs, title, j);
      SectionPairAt(text, ms, j);
    }
  }

  // ---- extract_infobox ----

  /** `\w` on ASCII: letters, digits and '_'. */
  predicate IsWordChar(c: char)
  {
    ('a' <= c <= 'z') || ('A' <= c <= 'Z') || ('0' <= c <= '9') || c == '_'
  }

  /** The end of the greedy run `[\w\s]*` starting at `i`. */
  function RunEnd(line: string, i: nat): (k: nat)
    requires i <= |line|
    ensures i <= k <= |line|
    ensures forall j :: i <= j < k ==> IsWordChar(line[j]) || IsSpace(line[j])
    ensures k < |line| ==> !IsWordChar(line[k]) && !IsSpace(line[k])
    decreases |line| - i
  {
    if i < |line| && (IsWordChar(line[i]) || IsSpace(line[i])) then RunEnd(line, i + 1) else i
  }

  /**
   * `re.match(r"\|([\w\s]+)\s*=\s*(.*)", line)`: a '|', a non-empty run of
   * word and space characters, then '='; key and value are stripped.
   */
  function KeyValue(line: string): (r: Option<(string, string)>)
    ensures r.Some? ==> |line| >= 3 && line[0] == '|'
  {
    if |line| >= 1 && line[0] == '|' then
      var k := RunEnd(line, 1);
      if k > 1 && k < |line| && line[k] == '=' then Some((Strip(line[1..k]), Strip(line[k + 1..]))) else None
    else None
  }

  /** The assignments the matching lines make, in order. */
  function InfoboxPairs(lines: seq<string>): seq<(string, string)>
  {
    if lines == [] then []
    else
      var pre := InfoboxPairs(lines[..|lines| - 1]);
      match KeyValue(lines[|lines| - 1])
      case Some(kv) => pre + [kv]
      case None => pre
  }

  /**
   * `extract_infobox(raw_text)`, given the text of the infobox match
   * (`None` when `re.search` finds none).
   */
  method ExtractInfobox(infobox: Option<string>) returns (r: Option<Dict<string, string>>)
    ensures infobox.None? <==> r.None?
    ensures r.Some? ==> r.value == PutAll(InfoboxPairs(Split(infobox.value, '\n')))
  {
    if infobox.None? {
      return None;
    }
    var lines := Split(infobox.value, '\n');
    var infoboxDict := Empty();
    ghost var pairs: seq<(string, string)> := [];
    var k := 0;
    while k < |lines|
      invariant k <= |lines|
      invariant pairs == InfoboxPairs(lines[..k]) && infoboxDict == PutAll(pairs)
    {
      assert lines[..k + 1][..k] == lines[..k];
      var m := KeyValue(lines[k]);
      if m.Some? {
        infoboxDict := infoboxDict.Put(m.value.0, m.value.1);
        pairs := pairs + [m.value];
        assert pairs[..|pairs| - 1] == InfoboxPairs(lines[..k]);
      }
      k := k + 1;
    }
    assert lines[..k] == lines;
    r := Some(infoboxDict);
  }

  /** A line "|k = v" assigns its stripped key and value. */
  lemma KeyValueLine(key: string, gap: string, value: string)
    requires |key| > 0 && forall j :: 0 <= j < |key| ==> IsWordChar(key[j]) || IsSpace(key[j])
    requires forall j :: 0 <= j < |gap| ==> IsSpace(gap[j])
    ensures KeyValue("|" + key + gap + "=" + value) == Some((Strip(key + gap), Strip(value)))
  {
    var line := "|" + key + gap + "=" + value;
    var k := 1 + |key| + |gap|;
    assert line[k] == '=';
    assert forall j :: 1 <= j < k ==> IsWordChar(line[j]) || IsSpace(line[j]) by {
      forall j | 1 <= j < k ensures IsWordChar(line[j]) || IsSpace(line[j]) {
        if j <= |key| {
          assert line[j] == key[j - 1];
        } else {
          assert line[j] == gap[j - 1 - |key|];
        }
      }
    }
    RunEndAt(line, 1, k);
    assert line[1..k] == key + gap;
    assert line[k + 1..] == value;
  }

  lemma {:induction false} RunEndAt(line: string, i: nat, k: nat)
    requires i <= k < |line| && !IsWordChar(line[k]) && !IsSpace(line[k])
    requires forall j :: i <= j < k ==> IsWordChar(line[j]) || IsSpace(line[j])
    ensures RunEnd(line, i) == k
    decreases k - i
  {
    if i < k {
      RunEndAt(line, i + 1, k);
    }
  }

  /** A key is in the infobox exactly when some line assigns it, and holds the last line's value. */
  lemma InfoboxLastWins(lines: seq<string>, key: string, j: int)
    ensures key in PutAll(InfoboxPairs(lines)).entries <==> Assigns(InfoboxPairs(lines), key)
    ensures LastAssigns(InfoboxPairs(lines), j, key) ==>
      key in PutAll(InfoboxPairs(lines)).entries && PutAll(InfoboxPairs(lines)).entries[key] == InfoboxPairs(lines)[j].1
  {
    var pairs := InfoboxPairs(lines);
    PutAllKeys(pairs, key);
    if LastAssigns(pairs, j, key) {
      PutAllLastWins(pairs, key, j);
    }
  }
}
