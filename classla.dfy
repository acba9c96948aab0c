/**
 * The Slovenian pipeline's bookkeeping around CLASSLA (`slovenian/utils_nlp.py`).
 *
 * `run_classla` walks the tagger's sentences twice. The first pass moves a
 * character cursor over the words and records, in two dictionaries, which
 * document word starts and ends at each cursor position. The second pass
 * inverts those dictionaries and emits one token record per word.
 * `bio2entities` then decodes the BIO tags of the records into entities.
 * The tagger itself is not part of this model: its sentences are the input.
 */
module Classla {
  import opened Common
  import opened PyDict
  import opened BioDecode

  // ---- the tagger's output ----

  /** A CLASSLA token: its text and its NER tag. */
  datatype ClasslaToken = ClasslaToken(text: string, ner: string)

  /** A CLASSLA word; `misc` is set (for example `SpaceAfter=No`) when no space follows. */
  datatype ClasslaWord = ClasslaWord(
    text: string, lemmaText: string, upos: string, xpos: string, feats: string,
    head: int, deprel: string, misc: Option<string>)

  /** A sentence: its tokens (which carry the NER tags) and its words. */
  datatype ClasslaSentence = ClasslaSentence(tokens: seq<ClasslaToken>, words: seq<ClasslaWord>)

  /** A word together with the index of its sentence. */
  type Placed = (ClasslaWord, nat)

  function PlaceSentence(words: seq<ClasslaWord>, sentIx: nat): (ps: seq<Placed>)
    ensures |ps| == |words| && forall j :: 0 <= j < |words| ==> ps[j] == (words[j], sentIx)
  {
    seq(|words|, j requires 0 <= j < |words| => (words[j], sentIx))
  }

  /** `document_tokens`, each word paired with its sentence index. */
  function PlacedGroups(sents: seq<ClasslaSentence>): (gs: seq<seq<Placed>>)
    ensures |gs| == |sents| && forall i :: 0 <= i < |sents| ==> gs[i] == PlaceSentence(sents[i].words, i)
  {
    seq(|sents|, i requires 0 <= i < |sents| => PlaceSentence(sents[i].words, i))
  }

  /** All words of the document, in order. */
  function DocWords(sents: seq<ClasslaSentence>): seq<Placed>
  {
    Flatten(PlacedGroups(sents))
  }

  /** `[tok.ner for tok in s.tokens]` */
  function TokenNers(s: ClasslaSentence): (ners: seq<string>)
    ensures |ners| == |s.tokens| && forall k :: 0 <= k < |s.tokens| ==> ners[k] == s.tokens[k].ner
  {
    seq(|s.tokens|, k requires 0 <= k < |s.tokens| => s.tokens[k].ner)
  }

  /** `[tok.text for tok in s.tokens]` */
  function TokenTexts(s: ClasslaSentence): (texts: seq<string>)
    ensures |texts| == |s.tokens| && forall k :: 0 <= k < |s.tokens| ==> texts[k] == s.tokens[k].text
  {
    seq(|s.tokens|, k requires 0 <= k < |s.tokens| => s.tokens[k].text)
  }

  /** The NER tags of every sentence's tokens (`tok_ents`, one list per sentence). */
  function NerGroups(sents: seq<ClasslaSentence>): (gs: seq<seq<string>>)
    ensures |gs| == |sents| && forall i :: 0 <= i < |sents| ==> gs[i] == TokenNers(sents[i])
  {
    seq(|sents|, i requires 0 <= i < |sents| => TokenNers(sents[i]))
  }

  /** `classla_sents`: each sentence's token texts joined by spaces. */
  function SentenceTexts(sents: seq<ClasslaSentence>): (ts: seq<string>)
    ensures |ts| == |sents| && forall i :: 0 <= i < |sents| ==> ts[i] == Join(TokenTexts(sents[i]), " ")
  {
    seq(|sents|, i requires 0 <= i < |sents| => Join(TokenTexts(sents[i]), " "))
  }

  /**
   * A sentence text splits back into its token texts when none of them
   * holds a space, so `classla_sents` loses nothing of the tokenisation.
   */
  lemma SentenceTextsRoundTrip(sents: seq<ClasslaSentence>, i: nat)
    requires i < |sents| && |sents[i].tokens| >= 1
    requires forall k :: 0 <= k < |sents[i].tokens| ==> ' ' !in sents[i].tokens[k].text
    ensures Split(SentenceTexts(sents)[i], ' ') == TokenTexts(sents[i])
  {
    var texts := TokenTexts(sents[i]);
    forall p | p in texts ensures ' ' !in p {
      var k :| 0 <= k < |texts| && texts[k] == p;
    }
    assert " " == [' '];
    SplitJoin(texts, ' ');
  }

  // ---- pass 1: the character cursor ----

  /** How far the cursor moves over a word: its length, plus one unless `misc` says no space follows. */
  function Advance(w: ClasslaWord): nat
  {
    |w.text| + if Truthy(w.misc) then 0 else 1
  }

  /** The cursor after the words `ws`. */
  function Cursor(ws: seq<Placed>): nat
  {
    if ws == [] then 0 else Cursor(ws[..|ws| - 1]) + Advance(ws[|ws| - 1].0)
  }

  /**
   * The key word `t` is filed under: the cursor before it in
   * `charstarts2token`, that plus its length in `charends2token`.
   */
  function KeyOf(ws: seq<Placed>, t: nat, ends: bool): nat
    requires t < |ws|
  {
    Cursor(ws[..t]) + if ends then |ws[t].0.text| else 0
  }

  /** `charstarts2token` (`ends` false) or `charends2token` (`ends` true) after the words `ws`. */
  function CharKeys(ws: seq<Placed>, ends: bool): Dict<nat, nat>
  {
    if ws == [] then Empty() else CharKeys(ws[..|ws| - 1], ends).Put(KeyOf(ws, |ws| - 1, ends), |ws| - 1)
  }

  lemma {:induction false} CharKeysValid(ws: seq<Placed>, ends: bool)
    ensures CharKeys(ws, ends).Valid()
  {
    if ws != [] {
      CharKeysValid(ws[..|ws| - 1], ends);
    }
  }

  /** `spaces_after`. */
  function SpacesAfter(ws: seq<Placed>): (sp: seq<bool>)
    ensures |sp| == |ws|
  {
    if ws == [] then [] else SpacesAfter(ws[..|ws| - 1]) + [!Truthy(ws[|ws| - 1].0.misc)]
  }

  /** `space_after` holds exactly for the words without `misc`. */
  lemma {:induction false} SpacesAfterMeaning(ws: seq<Placed>)
    ensures forall t :: 0 <= t < |ws| ==> (SpacesAfter(ws)[t] <==> !Truthy(ws[t].0.misc))
  {
    if ws != [] {
      var init := ws[..|ws| - 1];
      SpacesAfterMeaning(init);
      assert forall t :: 0 <= t < |init| ==> ws[t] == init[t];
    }
  }

  /** What the first pass leaves behind. */
  datatype FirstPass = FirstPass(
    sentences: seq<string>, tokEnts: seq<string>, charStarts: Dict<nat, nat>, charEnds: Dict<nat, nat>,
    spacesAfter: seq<bool>, documentTokens: seq<seq<Placed>>)

  function FirstPassOf(sents: seq<ClasslaSentence>): FirstPass
  {
    var ws := DocWords(sents);
    FirstPass(SentenceTexts(sents), Flatten(NerGroups(sents)), CharKeys(ws, false), CharKeys(ws, true), SpacesAfter(ws), PlacedGroups(sents))
  }

  lemma PrefixSnoc<T>(ws: seq<T>, w: T)
    ensures (ws + [w])[..|ws|] == ws
  {
  }

  /** The first-pass bookkeeping after the words `pre`. */
  ghost predicate Walked(pre: seq<Placed>, charStarts: Dict<nat, nat>, charEnds: Dict<nat, nat>,
                         spacesAfter: seq<bool>, totToks: nat, docCharIndex: nat)
  {
    && totToks == |pre| && docCharIndex == Cursor(pre)
    && charStarts == CharKeys(pre, false) && charEnds == CharKeys(pre, true) && spacesAfter == SpacesAfter(pre)
  }

  /** One more word: the cursor, both dictionaries and `spaces_after` take one step. */
  lemma WalkStep(pre: seq<Placed>, w: ClasslaWord, sentIx: nat, charStarts: Dict<nat, nat>, charEnds: Dict<nat, nat>,
                 spacesAfter: seq<bool>, totToks: nat, docCharIndex: nat)
    requires Walked(pre, charStarts, charEnds, spacesAfter, totToks, docCharIndex)
    ensures Walked(pre + [(w, sentIx)], charStarts.Put(docCharIndex, totToks), charEnds.Put(docCharIndex + |w.text|, totToks),
                   spacesAfter + [!Truthy(w.misc)], totToks + 1, docCharIndex + Advance(w))
  {
    CursorSnoc(pre, (w, sentIx));
    CharKeysSnoc(pre, (w, sentIx), false);
    CharKeysSnoc(pre, (w, sentIx), true);
  }

  lemma CursorSnoc(pre: seq<Placed>, p: Placed)
    ensures Cursor(pre + [p]) == Cursor(pre) + Advance(p.0)
    ensures SpacesAfter(pre + [p]) == SpacesAfter(pre) + [!Truthy(p.0.misc)]
  {
    assert (pre + [p])[..|pre|] == pre;
  }

  lemma CharKeysSnoc(pre: seq<Placed>, p: Placed, ends: bool)
    ensures CharKeys(pre + [p], ends) == CharKeys(pre, ends).Put(Cursor(pre) + (if ends then |p.0.text| else 0), |pre|)
  {
    var ws := pre + [p];
    assert ws[..|pre|] == pre;
    assert KeyOf(ws, |pre|, ends) == Cursor(pre) + (if ends then |p.0.text| else 0);
  }

  lemma PlacedSnoc(words: seq<ClasslaWord>, sentIx: nat, j: nat)
    requires j < |words|
    ensures PlaceSentence(words, sentIx)[..j + 1] == PlaceSentence(words, sentIx)[..j] + [(words[j], sentIx)]
  {
    var placed := PlaceSentence(words, sentIx);
    assert placed[j] == (words[j], sentIx);
  }

  /** The inner loop of the first pass, over the words of sentence `sentIx`. */
  method WalkWords(words: seq<ClasslaWord>, sentIx: nat, ghost base: seq<Placed>,
                   charStarts0: Dict<nat, nat>, charEnds0: Dict<nat, nat>, spacesAfter0: seq<bool>,
                   totToks0: nat, docCharIndex0: nat)
    returns (sentenceTokens: seq<Placed>, charStarts: Dict<nat, nat>, charEnds: Dict<nat, nat>,
             spacesAfter: seq<bool>, totToks: nat, docCharIndex: nat)
    requires Walked(base, charStarts0, charEnds0, spacesAfter0, totToks0, docCharIndex0)
    ensures sentenceTokens == PlaceSentence(words, sentIx)
    ensures Walked(base + sentenceTokens, charStarts, charEnds, spacesAfter, totToks, docCharIndex)
  {
    sentenceTokens := [];
    charStarts, charEnds, spacesAfter, totToks, docCharIndex := charStarts0, charEnds0, spacesAfter0, totToks0, docCharIndex0;
    ghost var placed := PlaceSentence(words, sentIx);
    ghost var pre := base;
    assert base + sentenceTokens == base;
    var j := 0;
    while j < |words|
      invariant j <= |words|
      invariant sentenceTokens == placed[..j]
      invariant pre == base + sentenceTokens
      invariant Walked(pre, charStarts, charEnds, spacesAfter, totToks, docCharIndex)
    {
      var tok := words[j];
      WalkStep(pre, tok, sentIx, charStarts, charEnds, spacesAfter, totToks, docCharIndex);
      ghost var startsNext, endsNext := charStarts.Put(docCharIndex, totToks), charEnds.Put(docCharIndex + |tok.text|, totToks);
      ghost var spacesNext, cursorNext := spacesAfter + [!Truthy(tok.misc)], docCharIndex + Advance(tok);
      charStarts := charStarts.Put(docCharIndex, totToks);
      charEnds := charEnds.Put(docCharIndex + |tok.text|, totToks);
      totToks := totToks + 1;
      if Truthy(tok.misc) {
        docCharIndex := docCharIndex + |tok.text|;
        spacesAfter := spacesAfter + [false];
      } else {
        docCharIndex := docCharIndex + |tok.text| + 1;
        spacesAfter := spacesAfter + [true];
      }
      assert spacesAfter == spacesNext && docCharIndex == cursorNext;
      assert charStarts == startsNext && charEnds == endsNext;
      PlacedSnoc(words, sentIx, j);
      sentenceTokens := sentenceTokens + [(tok, sentIx)];
      pre := pre + [(tok, sentIx)];
      j := j + 1;
    }
    assert placed[..j] == placed;
  }

  method RunFirstPass(sents: seq<ClasslaSentence>) returns (fp: FirstPass)
    ensures fp == FirstPassOf(sents)
  {
    var classlaSents: seq<string> := [];
    var tokEnts: seq<string> := [];
    var charStarts: Dict<nat, nat> := Empty();
    var charEnds: Dict<nat, nat> := Empty();
    var spacesAfter: seq<bool> := [];
    var documentTokens: seq<seq<Placed>> := [];
    var totToks: nat := 0;
    var docCharIndex: nat := 0;
    var i := 0;
    while i < |sents|
      invariant PassedUpTo(sents, i, classlaSents, tokEnts, documentTokens)
      invariant Walked(Flatten(PlacedGroups(sents)[..i]), charStarts, charEnds, spacesAfter, totToks, docCharIndex)
    {
      var s := sents[i];
      PassStep(sents, i, classlaSents, tokEnts, documentTokens);
      tokEnts := tokEnts + TokenNers(s);
      classlaSents := classlaSents + [Join(TokenTexts(s), " ")];
      var sentenceTokens;
      sentenceTokens, charStarts, charEnds, spacesAfter, totToks, docCharIndex :=
        WalkWords(s.words, i, Flatten(PlacedGroups(sents)[..i]), charStarts, charEnds, spacesAfter, totToks, docCharIndex);
      documentTokens := documentTokens + [sentenceTokens];
      i := i + 1;
    }
    PassDone(sents, classlaSents, tokEnts, documentTokens);
    fp := FirstPass(classlaSents, tokEnts, charStarts, charEnds, spacesAfter, documentTokens);
  }

  /** The per-sentence lists of the first pass after sentences `0..i`. */
  ghost predicate PassedUpTo(sents: seq<ClasslaSentence>, i: nat, classlaSents: seq<string>, tokEnts: seq<string>, documentTokens: seq<seq<Placed>>)
  {
    && i <= |sents|
    && classlaSents == SentenceTexts(sents)[..i]
    && tokEnts == Flatten(NerGroups(sents)[..i])
    && documentTokens == PlacedGroups(sents)[..i]
  }

  lemma PrefixStep<T>(xs: seq<T>, i: nat)
    requires i < |xs|
    ensures xs[..i + 1] == xs[..i] + [xs[i]]
  {
  }

  lemma FlattenPrefixStep<T>(gs: seq<seq<T>>, i: nat)
    requires i < |gs|
    ensures Flatten(gs[..i + 1]) == Flatten(gs[..i]) + gs[i]
  {
    PrefixStep(gs, i);
    FlattenSnoc(gs[..i], gs[i]);
  }

  /** Sentence `i` extends each list by its own entry. */
  lemma PassStep(sents: seq<ClasslaSentence>, i: nat, classlaSents: seq<string>, tokEnts: seq<string>, documentTokens: seq<seq<Placed>>)
    requires i < |sents| && PassedUpTo(sents, i, classlaSents, tokEnts, documentTokens)
    ensures PassedUpTo(sents, i + 1, classlaSents + [Join(TokenTexts(sents[i]), " ")], tokEnts + TokenNers(sents[i]),
                       documentTokens + [PlaceSentence(sents[i].words, i)])
    ensures Flatten(PlacedGroups(sents)[..i + 1]) == Flatten(PlacedGroups(sents)[..i]) + PlaceSentence(sents[i].words, i)
  {
    PrefixStep(SentenceTexts(sents), i);
    PrefixStep(PlacedGroups(sents), i);
    FlattenPrefixStep(NerGroups(sents), i);
    FlattenPrefixStep(PlacedGroups(sents), i);
  }

  lemma PassDone(sents: seq<ClasslaSentence>, classlaSents: seq<string>, tokEnts: seq<string>, documentTokens: seq<seq<Placed>>)
    requires PassedUpTo(sents, |sents|, classlaSents, tokEnts, documentTokens)
    ensures classlaSents == SentenceTexts(sents) && tokEnts == Flatten(NerGroups(sents)) && documentTokens == PlacedGroups(sents)
  {
    assert SentenceTexts(sents)[..|sents|] == SentenceTexts(sents);
    assert NerGroups(sents)[..|sents|] == NerGroups(sents);
    assert PlacedGroups(sents)[..|sents|] == PlacedGroups(sents);
  }

  // ---- inverting the dictionaries ----

  /** `{v: k for k, v in d.items()}`, items taken in the order of `keys`. */
  function InvertKeys(keys: seq<nat>, entries: map<nat, nat>): map<nat, nat>
  {
    if keys == [] then map[]
    else
      var k := keys[|keys| - 1];
      var inv := InvertKeys(keys[..|keys| - 1], entries);
      if k in entries then inv[entries[k] := k] else inv
  }

  /** For a valid dictionary every key has an entry, so no item is skipped. */
  function Invert(d: Dict<nat, nat>): map<nat, nat>
  {
    InvertKeys(d.keys, d.entries)
  }

  /** The inverse sends each value to a key that holds it, and has every value held by some key. */
  lemma {:induction false} InvertKeysSound(keys: seq<nat>, entries: map<nat, nat>)
    requires forall k :: k in keys ==> k in entries
    ensures forall v :: v in InvertKeys(keys, entries) ==>
      InvertKeys(keys, entries)[v] in keys && entries[InvertKeys(keys, entries)[v]] == v
    ensures forall k :: k in keys ==> entries[k] in InvertKeys(keys, entries)
  {
    if keys != [] {
      InvertKeysSound(keys[..|keys| - 1], entries);
      var k := keys[|keys| - 1];
      forall k' | k' in keys ensures entries[k'] in InvertKeys(keys, entries) {
        if k' != k {
          assert k' in keys[..|keys| - 1];
        }
      }
    }
  }

  lemma InvertSound(d: Dict<nat, nat>)
    requires d.Valid()
    ensures forall v :: v in Invert(d) ==> Invert(d)[v] in d.entries && d.entries[Invert(d)[v]] == v
    ensures forall k :: k in d.entries ==> d.entries[k] in Invert(d)
  {
    InvertKeysSound(d.keys, d.entries);
  }

  // ---- where each word's keys lie ----

  lemma KeyOfPrefix(ws: seq<Placed>, t: nat, ends: bool)
    requires t < |ws| - 1
    ensures KeyOf(ws, t, ends) == KeyOf(ws[..|ws| - 1], t, ends)
  {
    assert ws[..t] == ws[..|ws| - 1][..t];
  }

  /** Every key names a word of `ws` and is that word's key. */
  lemma {:induction false} CharKeysShape(ws: seq<Placed>, ends: bool)
    ensures forall k :: k in CharKeys(ws, ends).entries ==>
      CharKeys(ws, ends).entries[k] < |ws| && k == KeyOf(ws, CharKeys(ws, ends).entries[k], ends)
  {
    if ws != [] {
      var init := ws[..|ws| - 1];
      CharKeysShape(init, ends);
      forall k | k in CharKeys(ws, ends).entries
        ensures CharKeys(ws, ends).entries[k] < |ws| && k == KeyOf(ws, CharKeys(ws, ends).entries[k], ends)
      {
        var t := CharKeys(ws, ends).entries[k];
        if k != KeyOf(ws, |ws| - 1, ends) {
          assert k in CharKeys(init, ends).entries && t == CharKeys(init, ends).entries[k];
          KeyOfPrefix(ws, t, ends);
        }
      }
    }
  }

  /** No word of `ws` has empty text. */
  predicate NonEmptyTexts(ws: seq<Placed>)
  {
    forall t :: 0 <= t < |ws| ==> |ws[t].0.text| > 0
  }

  lemma {:induction false} CursorGrows(ws: seq<Placed>, a: nat, b: nat)
    requires a < b <= |ws| && NonEmptyTexts(ws)
    ensures Cursor(ws[..a]) + |ws[a].0.text| <= Cursor(ws[..b])
    decreases b - a
  {
    assert ws[..a + 1][..a] == ws[..a];
    if a + 1 < b {
      CursorGrows(ws, a + 1, b);
    }
  }

  /** With no empty word, keys strictly increase along the words. */
  lemma KeysIncrease(ws: seq<Placed>, a: nat, b: nat, ends: bool)
    requires a < b < |ws| && NonEmptyTexts(ws)
    ensures KeyOf(ws, a, ends) < KeyOf(ws, b, ends)
  {
    CursorGrows(ws, a, b);
  }

  /** With no empty word, no key is ever overwritten: word `t` keeps its key. */
  lemma {:induction false} CharKeysKept(ws: seq<Placed>, ends: bool)
    requires NonEmptyTexts(ws)
    ensures forall t :: 0 <= t < |ws| ==>
      KeyOf(ws, t, ends) in CharKeys(ws, ends).entries && CharKeys(ws, ends).entries[KeyOf(ws, t, ends)] == t
  {
    if ws != [] {
      var init := ws[..|ws| - 1];
      assert NonEmptyTexts(init);
      CharKeysKept(init, ends);
      forall t | 0 <= t < |ws| - 1
        ensures KeyOf(ws, t, ends) in CharKeys(ws, ends).entries && CharKeys(ws, ends).entries[KeyOf(ws, t, ends)] == t
      {
        KeyOfPrefix(ws, t, ends);
        KeysIncrease(ws, t, |ws| - 1, ends);
      }
    }
  }

  /**
   * `token2charstart` and `token2charends`: a word found in the inverse
   * gets the cursor before it as its start and that plus its length as its
   * end; with no empty word every word is found.
   */
  lemma InverseLookups(ws: seq<Placed>, ends: bool)
    ensures forall t :: t in Invert(CharKeys(ws, ends)) ==> t < |ws| && Invert(CharKeys(ws, ends))[t] == KeyOf(ws, t, ends)
    ensures NonEmptyTexts(ws) ==> forall t :: 0 <= t < |ws| ==> t in Invert(CharKeys(ws, ends))
  {
    var d := CharKeys(ws, ends);
    var inv := Invert(d);
    CharKeysValid(ws, ends);
    InvertSound(d);
    CharKeysShape(ws, ends);
    forall t | t in inv ensures t < |ws| && inv[t] == KeyOf(ws, t, ends) {
      var k := inv[t];
      assert k in d.entries && d.entries[k] == t;
    }
    if NonEmptyTexts(ws) {
      CharKeysKept(ws, ends);
      forall t | 0 <= t < |ws| ensures t in inv {
        var k := KeyOf(ws, t, ends);
        assert k in d.entries && d.entries[k] == t;
      }
    }
  }

  // ---- pass 2: the token records ----

  /** The record `run_classla` emits for one word. */
  datatype TokenObj = TokenObj(
    id: nat, text: string, lemmaText: string, upos: string, xpos: string, morph: string,
    depHead: int, depRel: string, nerIob: string, startChar: nat, endChar: nat,
    spaceAfter: bool, sentId: nat)

  /** The record of document word `t`; `tok_ents` may be shorter than the words, and a lost key fails. */
  function TokenObjOf(p: Placed, t: nat, fp: FirstPass): Result<TokenObj>
    requires t < |fp.spacesAfter|
  {
    var w := p.0;
    var starts := Invert(fp.charStarts);
    var ends := Invert(fp.charEnds);
    if t >= |fp.tokEnts| then Err(IndexError)
    else if t !in starts then Err(KeyError)
    else if t !in ends then Err(KeyError)
    else Ok(TokenObj(t, w.text, w.lemmaText, w.upos, w.xpos, w.feats, w.head, w.deprel,
                     fp.tokEnts[t], starts[t], ends[t], fp.spacesAfter[t], p.1))
  }

  /** The records of the words `ws`, which are the first `|ws|` words of the document. */
  function TokenObjs(ws: seq<Placed>, fp: FirstPass): Result<seq<TokenObj>>
    requires |ws| <= |fp.spacesAfter|
  {
    if ws == [] then Ok([])
    else
      match TokenObjs(ws[..|ws| - 1], fp)
      case Err(e) => Err(e)
      case Ok(objs) =>
        match TokenObjOf(ws[|ws| - 1], |ws| - 1, fp)
        case Err(e) => Err(e)
        case Ok(o) => Ok(objs + [o])
  }

  lemma TokenObjsSnoc(pre: seq<Placed>, p: Placed, fp: FirstPass)
    requires |pre| < |fp.spacesAfter|
    requires TokenObjs(pre, fp).Ok? && TokenObjOf(p, |pre|, fp).Ok?
    ensures TokenObjs(pre + [p], fp) == Ok(TokenObjs(pre, fp).value + [TokenObjOf(p, |pre|, fp).value])
  {
    assert (pre + [p])[..|pre|] == pre;
  }

  lemma {:induction false} TokenObjsErrPrefix(a: seq<Placed>, b: seq<Placed>, fp: FirstPass)
    requires |a + b| <= |fp.spacesAfter|
    requires TokenObjs(a, fp).Err?
    ensures TokenObjs(a + b, fp) == TokenObjs(a, fp)
    decreases |b|
  {
    if b == [] {
      assert a + b == a;
    } else {
      var b' := b[..|b| - 1];
      assert (a + b)[..|a + b| - 1] == a + b';
      TokenObjsErrPrefix(a, b', fp);
    }
  }

  /** One document word of the second pass: its record, or the error its lookups raise. */
  method WordRecord(tok: Placed, t: nat, fp: FirstPass, starts: map<nat, nat>, ends: map<nat, nat>)
    returns (r: Result<TokenObj>)
    requires t < |fp.spacesAfter| && starts == Invert(fp.charStarts) && ends == Invert(fp.charEnds)
    ensures r == TokenObjOf(tok, t, fp)
  {
    if t >= |fp.tokEnts| {
      return Err(IndexError);
    }
    if t !in starts || t !in ends {
      return Err(KeyError);
    }
    r := Ok(TokenObj(t, tok.0.text, tok.0.lemmaText, tok.0.upos, tok.0.xpos, tok.0.feats, tok.0.head,
                     tok.0.deprel, fp.tokEnts[t], starts[t], ends[t], fp.spacesAfter[t], tok.1));
  }

  /** The records after one more word, or the error that ends the whole pass. */
  lemma WordStep(pre: seq<Placed>, tok: Placed, rest: seq<Placed>, fp: FirstPass, objs: seq<TokenObj>)
    requires |pre + [tok] + rest| <= |fp.spacesAfter| && TokenObjs(pre, fp) == Ok(objs)
    ensures TokenObjOf(tok, |pre|, fp).Err? ==> TokenObjs(pre + [tok] + rest, fp) == Err(TokenObjOf(tok, |pre|, fp).error)
    ensures TokenObjOf(tok, |pre|, fp).Ok? ==> TokenObjs(pre + [tok], fp) == Ok(objs + [TokenObjOf(tok, |pre|, fp).value])
  {
    PrefixSnoc(pre, tok);
    if TokenObjOf(tok, |pre|, fp).Err? {
      TokenObjsErrPrefix(pre + [tok], rest, fp);
    } else {
      TokenObjsSnoc(pre, tok, fp);
    }
  }

  /**
   * The inner loop of the second pass, over the words `group` of one
   * sentence, which follow the words `done` and precede `rest`.
   */
  method GroupRecords(fp: FirstPass, group: seq<Placed>, ghost done0: seq<Placed>, ghost rest: seq<Placed>,
                      docLevelTokenId0: nat, objs0: seq<TokenObj>, starts: map<nat, nat>, ends: map<nat, nat>)
    returns (r: Result<seq<TokenObj>>, docLevelTokenId: nat)
    requires |done0 + group + rest| <= |fp.spacesAfter| && docLevelTokenId0 == |done0|
    requires starts == Invert(fp.charStarts) && ends == Invert(fp.charEnds)
    requires TokenObjs(done0, fp) == Ok(objs0)
    ensures r.Ok? ==> TokenObjs(done0 + group, fp) == r && docLevelTokenId == |done0 + group|
    ensures r.Err? ==> TokenObjs(done0 + group + rest, fp) == r
  {
    var objs := objs0;
    docLevelTokenId := docLevelTokenId0;
    ghost var done := done0;
    assert group[..0] == [];
    var j := 0;
    while j < |group|
      invariant j <= |group|
      invariant done == done0 + group[..j] && docLevelTokenId == |done|
      invariant TokenObjs(done, fp) == Ok(objs)
    {
      var tok := group[j];
      ghost var rest' := group[j + 1..] + rest;
      SplitAt(done0, group, rest, j);
      WordStep(done, tok, rest', fp, objs);
      var obj := WordRecord(tok, docLevelTokenId, fp, starts, ends);
      if obj.Err? {
        return Err(obj.error), docLevelTokenId;
      }
      objs := objs + [obj.value];
      done := done + [tok];
      docLevelTokenId := docLevelTokenId + 1;
      j := j + 1;
    }
    assert group[..j] == group;
    r := Ok(objs);
  }

  /** Cutting a group at word `j`: the words before, word `j`, and the rest with what follows the group. */
  lemma SplitAt<T>(done0: seq<T>, group: seq<T>, rest: seq<T>, j: nat)
    requires j < |group|
    ensures done0 + group + rest == done0 + group[..j] + [group[j]] + (group[j + 1..] + rest)
    ensures done0 + group[..j] + [group[j]] == done0 + group[..j + 1]
  {
    assert group == group[..j] + [group[j]] + group[j + 1..];
    assert group[..j + 1] == group[..j] + [group[j]];
  }

  method RunSecondPass(fp: FirstPass, ghost ws: seq<Placed>) returns (r: Result<seq<TokenObj>>)
    requires ws == Flatten(fp.documentTokens) && |ws| == |fp.spacesAfter|
    ensures r == TokenObjs(ws, fp)
  {
    var groups := fp.documentTokens;
    var starts := Invert(fp.charStarts);
    var ends := Invert(fp.charEnds);
    var objs: seq<TokenObj> := [];
    var docLevelTokenId: nat := 0;
    var i := 0;
    while i < |groups|
      invariant i <= |groups|
      invariant docLevelTokenId == |Flatten(groups[..i])| <= |ws|
      invariant TokenObjs(Flatten(groups[..i]), fp) == Ok(objs)
    {
      FlattenAround(groups, i);
      assert groups[..i + 1] == groups[..i] + [groups[i]];
      FlattenSnoc(groups[..i], groups[i]);
      var next;
      next, docLevelTokenId := GroupRecords(fp, groups[i], Flatten(groups[..i]), Flatten(groups[i + 1..]),
                                            docLevelTokenId, objs, starts, ends);
      if next.Err? {
        return next;
      }
      objs := next.value;
      i := i + 1;
    }
    assert groups[..i] == groups;
    r := Ok(objs);
  }

  /** The dictionaries and `spaces_after` of `fp` are those of the words `all`. */
  ghost predicate Bookkeeping(fp: FirstPass, all: seq<Placed>)
  {
    fp.charStarts == CharKeys(all, false) && fp.charEnds == CharKeys(all, true) && fp.spacesAfter == SpacesAfter(all)
  }

  /** The second pass succeeds iff every word's record does, and then holds exactly those records; a failure is some word's. */
  lemma {:induction false} TokenObjsElems(ws: seq<Placed>, fp: FirstPass)
    requires |ws| <= |fp.spacesAfter|
    ensures var r := TokenObjs(ws, fp);
      && (r.Ok? <==> forall t :: 0 <= t < |ws| ==> TokenObjOf(ws[t], t, fp).Ok?)
      && (r.Ok? ==> |r.value| == |ws| && forall t :: 0 <= t < |ws| ==> TokenObjOf(ws[t], t, fp) == Ok(r.value[t]))
      && (r.Err? ==> exists t :: 0 <= t < |ws| && TokenObjOf(ws[t], t, fp) == Err(r.error))
  {
    if ws != [] {
      var n := |ws| - 1;
      var init := ws[..n];
      TokenObjsElems(init, fp);
      assert forall t :: 0 <= t < n ==> init[t] == ws[t];
      var r := TokenObjs(ws, fp);
      if TokenObjs(init, fp).Err? {
        var t :| 0 <= t < n && TokenObjOf(init[t], t, fp) == Err(r.error);
        assert TokenObjOf(ws[t], t, fp) == Err(r.error);
      } else if TokenObjOf(ws[n], n, fp).Err? {
        assert TokenObjOf(ws[n], n, fp) == Err(r.error);
      }
    }
  }

  /**
   * The record of word `t`: it exists iff `tok_ents` reaches `t` and both
   * inverses hold `t`, which, with no empty word, is only the former; it
   * carries its own position as `id`, the tag `tok_ents` holds there, the
   * word's fields, its sentence, `space_after` exactly when no `misc` is
   * set, and the character span the cursor gives it.
   */
  lemma TokenObjAt(fp: FirstPass, all: seq<Placed>, t: nat)
    requires Bookkeeping(fp, all) && t < |all|
    ensures var r := TokenObjOf(all[t], t, fp);
      var w := all[t].0;
      && (r.Ok? <==> t < |fp.tokEnts| && t in Invert(fp.charStarts) && t in Invert(fp.charEnds))
      && (r.Err? ==> r.error == IndexError || r.error == KeyError)
      && (NonEmptyTexts(all) ==> (r.Ok? <==> t < |fp.tokEnts|) && (r.Err? ==> r.error == IndexError))
      && (r.Ok? ==>
            var o := r.value;
            && o.id == t && o.text == w.text && o.lemmaText == w.lemmaText && o.morph == w.feats
            && o.upos == w.upos && o.xpos == w.xpos && o.depHead == w.head && o.depRel == w.deprel
            && o.nerIob == fp.tokEnts[t] && o.sentId == all[t].1
            && (o.spaceAfter <==> !Truthy(w.misc))
            && o.startChar == Cursor(all[..t]) && o.endChar == o.startChar + |w.text|)
  {
    InverseLookups(all, false);
    InverseLookups(all, true);
    SpacesAfterMeaning(all);
  }

  /** The records of a prefix `ws` of the words `all`, one per word, each as `TokenObjAt` describes. */
  lemma TokenObjsShape(ws: seq<Placed>, fp: FirstPass, all: seq<Placed>)
    requires Bookkeeping(fp, all)
    requires |ws| <= |all| && ws == all[..|ws|]
    ensures var r := TokenObjs(ws, fp);
      r.Ok? ==> |r.value| == |ws| && forall t :: 0 <= t < |ws| ==>
        var o := r.value[t];
        var w := ws[t].0;
        && o.id == t && o.text == w.text && o.lemmaText == w.lemmaText && o.morph == w.feats
        && o.upos == w.upos && o.xpos == w.xpos && o.depHead == w.head && o.depRel == w.deprel
        && o.nerIob == fp.tokEnts[t] && o.sentId == ws[t].1
        && (o.spaceAfter <==> !Truthy(w.misc))
        && o.startChar == Cursor(ws[..t]) && o.endChar == o.startChar + |w.text|
  {
    TokenObjsElems(ws, fp);
    var r := TokenObjs(ws, fp);
    if r.Ok? {
      forall t | 0 <= t < |ws|
        ensures var o := r.value[t];
          var w := ws[t].0;
          && o.id == t && o.text == w.text && o.lemmaText == w.lemmaText && o.morph == w.feats
          && o.upos == w.upos && o.xpos == w.xpos && o.depHead == w.head && o.depRel == w.deprel
          && o.nerIob == fp.tokEnts[t] && o.sentId == ws[t].1
          && (o.spaceAfter <==> !Truthy(w.misc))
          && o.startChar == Cursor(ws[..t]) && o.endChar == o.startChar + |w.text|
      {
        assert ws[t] == all[t] && ws[..t] == all[..t];
        TokenObjAt(fp, all, t);
      }
    }
  }

  /** Neighbouring records touch, or leave exactly one space when `space_after` is set. */
  lemma CharsAdjacent(ws: seq<Placed>, fp: FirstPass)
    requires Bookkeeping(fp, ws)
    ensures var r := TokenObjs(ws, fp);
      r.Ok? ==> |r.value| == |ws| && forall t :: 0 <= t < |ws| - 1 ==>
        r.value[t + 1].startChar == r.value[t].endChar + if r.value[t].spaceAfter then 1 else 0
  {
    TokenObjsElems(ws, fp);
    var r := TokenObjs(ws, fp);
    if r.Ok? {
      forall t | 0 <= t < |ws| - 1
        ensures r.value[t + 1].startChar == r.value[t].endChar + if r.value[t].spaceAfter then 1 else 0
      {
        CharsAdjacentAt(ws, fp, t);
      }
    }
  }

  lemma CharsAdjacentAt(ws: seq<Placed>, fp: FirstPass, t: nat)
    requires Bookkeeping(fp, ws) && t + 1 < |ws|
    requires TokenObjs(ws, fp).Ok?
    ensures var o := TokenObjs(ws, fp).value;
      t + 1 < |o| && o[t + 1].startChar == o[t].endChar + if o[t].spaceAfter then 1 else 0
  {
    TokenObjsElems(ws, fp);
    TokenObjAt(fp, ws, t);
    TokenObjAt(fp, ws, t + 1);
    assert ws[..t + 1][..t] == ws[..t];
    assert Cursor(ws[..t + 1]) == Cursor(ws[..t]) + Advance(ws[t].0);
  }

  /** The second pass fails iff `tok_ents` runs short or some word lost a key; with no empty word, only the former. */
  lemma TokenObjsFail(ws: seq<Placed>, fp: FirstPass, all: seq<Placed>)
    requires Bookkeeping(fp, all)
    requires |ws| <= |all| && ws == all[..|ws|]
    ensures var r := TokenObjs(ws, fp);
      && (r.Ok? <==> |ws| <= |fp.tokEnts| && forall t :: 0 <= t < |ws| ==> t in Invert(fp.charStarts) && t in Invert(fp.charEnds))
      && (r.Err? ==> r.error == IndexError || r.error == KeyError)
      && (NonEmptyTexts(all) ==> (r.Ok? <==> |ws| <= |fp.tokEnts|) && (r.Err? ==> r.error == IndexError))
  {
    TokenObjsElems(ws, fp);
    var r := TokenObjs(ws, fp);
    forall t | 0 <= t < |ws|
      ensures var o := TokenObjOf(ws[t], t, fp);
        && (o.Ok? <==> t < |fp.tokEnts| && t in Invert(fp.charStarts) && t in Invert(fp.charEnds))
        && (o.Err? ==> o.error == IndexError || o.error == KeyError)
        && (NonEmptyTexts(all) ==> (o.Ok? <==> t < |fp.tokEnts|) && (o.Err? ==> o.error == IndexError))
    {
      assert ws[t] == all[t];
      TokenObjAt(fp, all, t);
    }
    if !(|ws| <= |fp.tokEnts|) {
      assert !TokenObjOf(ws[|ws| - 1], |ws| - 1, fp).Ok?;
    }
  }

  // ---- bio2entities ----

  /** An entity of `bio2entities`; `ID` is always `None` and `method` always `classla`. */
  datatype ClasslaEntity = ClasslaEntity(
    id: Option<string>, surfaceForm: string, category: string, locationStart: nat, locationEnd: nat,
    tokenStart: nat, tokenEnd: nat, tool: string)

  function EntityOf(sp: Span<TokenObj>): Result<ClasslaEntity>
  {
    if |sp.items| == 0 || |sp.indices| == 0 then Err(IndexError)
    else
      var texts := seq(|sp.items|, k requires 0 <= k < |sp.items| => sp.items[k].text);
      Ok(ClasslaEntity(None, Join(texts, " "), ToUpper(sp.category), sp.items[0].startChar,
                       sp.items[|sp.items| - 1].endChar, sp.indices[0], sp.indices[|sp.indices| - 1] + 1, "classla"))
  }

  function EntitiesOf(spans: seq<Span<TokenObj>>): (r: Result<seq<ClasslaEntity>>)
    ensures r.Ok? <==> forall k :: 0 <= k < |spans| ==> |spans[k].items| > 0 && |spans[k].indices| > 0
    ensures r.Ok? ==> |r.value| == |spans| && forall k :: 0 <= k < |spans| ==> EntityOf(spans[k]) == Ok(r.value[k])
    ensures r.Err? ==> r.error == IndexError
  {
    if spans == [] then Ok([])
    else
      match EntityOf(spans[0])
      case Err(e) => Err(e)
      case Ok(e) =>
        match EntitiesOf(spans[1..])
        case Err(err) => Err(err)
        case Ok(rest) => Ok([e] + rest)
  }

  /** The records paired with their own tags. */
  function TaggedObjs(objs: seq<TokenObj>): seq<(string, TokenObj)>
  {
    Tagged(seq(|objs|, t requires 0 <= t < |objs| => objs[t].nerIob), objs)
  }

  function Bio2Entities(objs: seq<TokenObj>): Result<seq<ClasslaEntity>>
  {
    EntitiesOf(NerSpans(TaggedObjs(objs), Bio))
  }

  method Bio2EntitiesLoop(objs: seq<TokenObj>) returns (r: Result<seq<ClasslaEntity>>)
    ensures r == Bio2Entities(objs)
  {
    var spans := DecodeEntities(TaggedObjs(objs), Bio);
    r := EntitiesOf(spans);
  }

  /** The entity of one decoded span: it spans the span's records, first to last. */
  lemma EntityShape(sp: Span<TokenObj>, objs: seq<TokenObj>)
    requires SpanIn(sp, TaggedObjs(objs))
    ensures EntityOf(sp).Ok?
    ensures var e := EntityOf(sp).value;
      && e.tokenStart == sp.indices[0] && e.tokenEnd == LastIndex(sp) + 1
      && e.tokenStart < e.tokenEnd <= |objs|
      && e.locationStart == objs[e.tokenStart].startChar && e.locationEnd == objs[e.tokenEnd - 1].endChar
      && e.id == None && e.tool == "classla"
  {
    var tagged := TaggedObjs(objs);
    var n := |sp.indices| - 1;
    assert sp.indices[0] <= sp.indices[n] by {
      if n > 0 {
        assert sp.indices[0] < sp.indices[n];
      }
    }
    assert sp.items[0] == tagged[sp.indices[0]].1 && sp.items[n] == tagged[sp.indices[n]].1;
    assert tagged[sp.indices[0]].1 == objs[sp.indices[0]] && tagged[sp.indices[n]].1 == objs[sp.indices[n]];
  }

  /** What holds of the decoded spans of the records. */
  lemma SpansOfObjs(objs: seq<TokenObj>)
    ensures var spans := NerSpans(TaggedObjs(objs), Bio);
      && OrderedSpans(spans, TaggedObjs(objs))
      && Bio2Entities(objs).Ok? && |Bio2Entities(objs).value| == |spans|
      && forall k :: 0 <= k < |spans| ==> EntityOf(spans[k]) == Ok(Bio2Entities(objs).value[k])
  {
    var tagged := TaggedObjs(objs);
    var spans := NerSpans(tagged, Bio);
    NerSpansOrdered(tagged, Bio);
    forall k | 0 <= k < |spans| ensures |spans[k].items| > 0 && |spans[k].indices| > 0 {
      assert SpanIn(spans[k], tagged);
    }
  }

  /** Entity `k` lies within the records, runs from its first record's start to its last record's end, and ends before entity `k + 1` begins. */
  predicate EntityFits(r: seq<ClasslaEntity>, k: nat, objs: seq<TokenObj>)
    requires k < |r|
  {
    var e := r[k];
    && e.tokenStart < e.tokenEnd <= |objs|
    && e.locationStart == objs[e.tokenStart].startChar && e.locationEnd == objs[e.tokenEnd - 1].endChar
    && e.id == None && e.tool == "classla"
    && (k + 1 < |r| ==> e.tokenEnd <= r[k + 1].tokenStart)
  }

  lemma EntityAt(objs: seq<TokenObj>, k: nat)
    requires Bio2Entities(objs).Ok? && k < |Bio2Entities(objs).value|
    ensures EntityFits(Bio2Entities(objs).value, k, objs)
  {
    var spans := NerSpans(TaggedObjs(objs), Bio);
    SpansOfObjs(objs);
    EntityShape(spans[k], objs);
    if k + 1 < |spans| {
      EntityShape(spans[k + 1], objs);
    }
  }

  /**
   * Every emitted entity is a run of records: it never fails, its token
   * range lies in the document and increases, and its characters run from
   * its first record's start to its last record's end.
   */
  lemma Bio2EntitiesShape(objs: seq<TokenObj>)
    ensures Bio2Entities(objs).Ok?
    ensures forall k :: 0 <= k < |Bio2Entities(objs).value| ==> EntityFits(Bio2Entities(objs).value, k, objs)
  {
    SpansOfObjs(objs);
    forall k | 0 <= k < |Bio2Entities(objs).value| ensures EntityFits(Bio2Entities(objs).value, k, objs) {
      EntityAt(objs, k);
    }
  }

  // ---- run_classla ----

  /** What `run_classla` returns, without the tagger's own document object. */
  datatype ClasslaDoc = ClasslaDoc(
    sentences: seq<string>, tokens: seq<string>, tokenObjs: seq<TokenObj>, entities: seq<ClasslaEntity>)

  function RunClassla(sents: seq<ClasslaSentence>): Result<ClasslaDoc>
  {
    var fp := FirstPassOf(sents);
    var ws := DocWords(sents);
    match TokenObjs(ws, fp)
    case Err(e) => Err(e)
    case Ok(objs) =>
      match Bio2Entities(objs)
      case Err(e) => Err(e)
      case Ok(ents) => Ok(ClasslaDoc(fp.sentences, seq(|objs|, t requires 0 <= t < |objs| => objs[t].text), objs, ents))
  }

  method RunClasslaPasses(sents: seq<ClasslaSentence>) returns (r: Result<ClasslaDoc>)
    ensures r == RunClassla(sents)
  {
    var fp := RunFirstPass(sents);
    var objs := RunSecondPass(fp, DocWords(sents));
    if objs.Err? {
      return Err(objs.error);
    }
    var ents := Bio2EntitiesLoop(objs.value);
    if ents.Err? {
      return Err(ents.error);
    }
    r := Ok(ClasslaDoc(fp.sentences, seq(|objs.value|, t requires 0 <= t < |objs.value| => objs.value[t].text), objs.value, ents.value));
  }

  /**
   * For a document whose words all have text, `run_classla` succeeds iff
   * the tokens carry at least as many tags as there are words; the records
   * then tile the text with one space exactly where `misc` is unset, and
   * every entity covers the characters of its records.
   */
  lemma RunClasslaShape(sents: seq<ClasslaSentence>)
    requires NonEmptyTexts(DocWords(sents))
    ensures var r := RunClassla(sents);
      var ws := DocWords(sents);
      && (r.Ok? <==> |ws| <= |Flatten(NerGroups(sents))|)
      && (r.Err? ==> r.error == IndexError)
      && (r.Ok? ==>
            && |r.value.tokenObjs| == |ws| && |r.value.tokens| == |ws|
            && (forall t :: 0 <= t < |ws| ==>
                 && r.value.tokenObjs[t].startChar == Cursor(ws[..t])
                 && r.value.tokenObjs[t].endChar == Cursor(ws[..t]) + |ws[t].0.text|))
  {
    var fp := FirstPassOf(sents);
    var ws := DocWords(sents);
    assert ws[..|ws|] == ws;
    TokenObjsFail(ws, fp, ws);
    TokenObjsShape(ws, fp, ws);
    var objs := TokenObjs(ws, fp);
    if objs.Ok? {
      Bio2EntitiesShape(objs.value);
    }
  }
}
