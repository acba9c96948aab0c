/**
 * The IDM stage of english/nlp_to_idm_json.py: unified entities are typed
 * (person, place, group, cultural-heritage object) and numbered, and their
 * relations become IDM events with role references on both participants.
 * `ConvertNlpToIdm` puts the whole of `convert_nlp_to_idm_json` together.
 */
module IdmGraph {
  import opened Common
  import opened PyDict
  import opened IdmIndex
  import opened IdmUnify

  // ---- stringify_id ----

  /** `stringify_id(number)`: zero-padded to three digits below 100, plain `str` otherwise. */
  function StringifyId(n: int): string
  {
    if 0 < n < 10 then "00" + NatToStr(n)
    else if 10 <= n < 100 then "0" + NatToStr(n)
    else IntToStr(n)
  }

  lemma {:induction false} LeadingZero(s: string)
    requires AllDigits(s)
    ensures AllDigits("0" + s) && DigitsValue("0" + s) == DigitsValue(s)
  {
    if s != [] {
      var t := "0" + s;
      assert t[..|t| - 1] == "0" + s[..|s| - 1];
      LeadingZero(s[..|s| - 1]);
    }
  }

  /** A padded id is still the decimal numeral of `n`. */
  lemma StringifyIdValue(n: nat)
    ensures AllDigits(StringifyId(n)) && DigitsValue(StringifyId(n)) == n
  {
    NatToStrValue(n);
    if 0 < n < 100 {
      LeadingZero(NatToStr(n));
      if n < 10 {
        assert "00" + NatToStr(n) == "0" + ("0" + NatToStr(n));
        LeadingZero("0" + NatToStr(n));
      }
    }
  }

  /** Ids from 1 to 999 are exactly three characters long. */
  lemma StringifyIdWidth(n: int)
    requires 1 <= n <= 999
    ensures |StringifyId(n)| == 3
  {
    if n >= 100 {
      assert NatToStr(n) == NatToStr(n / 10) + [DigitChar(n % 10)];
      assert NatToStr(n / 10) == NatToStr(n / 100) + [DigitChar((n / 10) % 10)];
    } else if n >= 10 {
      assert NatToStr(n) == NatToStr(n / 10) + [DigitChar(n % 10)];
    }
  }

  /** Different counters never give the same id. */
  lemma StringifyIdInjective(m: nat, n: nat)
    requires StringifyId(m) == StringifyId(n)
    ensures m == n
  {
    StringifyIdValue(m);
    StringifyIdValue(n);
  }

  // ---- the relation vocabulary ----

  /** `inverse_relations_dict.get(relation, "unk")` */
  function InverseRelation(rel: string): string
  {
    if rel == "based_in" then "location_of"
    else if rel == "born_in" then "place_of_birth"
    else if rel == "child_of" then "parent_of"
    else if rel == "lived_in" then "place_of_residence"
    else if rel == "married_to" then "married_to"
    else if rel == "parent_of" then "child_of"
    else if rel == "sibling_of" then "sibling_of"
    else "unk"
  }

  /**
   * The kinship relations are their own inverses' inverses, the symmetric
   * ones their own inverses, and a relation outside the table has the
   * inverse "unk".
   */
  lemma InverseRelationSpec(rel: string)
    ensures rel in {"child_of", "parent_of", "married_to", "sibling_of"} ==> InverseRelation(InverseRelation(rel)) == rel
    ensures rel in {"married_to", "sibling_of"} ==> InverseRelation(rel) == rel
    ensures InverseRelation(rel) == "unk" <==> rel !in {"based_in", "born_in", "child_of", "lived_in", "married_to", "parent_of", "sibling_of"}
  {
  }

  // ---- choosing label and type ----

  /** The position `sorted(forms, key=len)[-1]` comes from: with a stable sort, the last of the longest forms. */
  function LongestAt(forms: seq<string>): (i: nat)
    requires |forms| > 0
    ensures i < |forms|
  {
    if |forms| == 1 then 0
    else
      var b := LongestAt(forms[..|forms| - 1]);
      if |forms[|forms| - 1]| >= |forms[b]| then |forms| - 1 else b
  }

  /** No form is longer than the chosen one, and every form after it is shorter. */
  lemma {:induction false} LongestAtSpec(forms: seq<string>)
    requires |forms| > 0
    ensures var i := LongestAt(forms);
      (forall j :: 0 <= j < |forms| ==> |forms[j]| <= |forms[i]|)
      && (forall j :: i < j < |forms| ==> |forms[j]| < |forms[i]|)
  {
    if |forms| > 1 {
      var init := forms[..|forms| - 1];
      LongestAtSpec(init);
      assert forall j :: 0 <= j < |init| ==> init[j] == forms[j];
    }
  }

  /** The position of `Counter(xs).most_common(1)[0][0]` among the first `n`: the first position whose value is counted most often. */
  function MostCommonAt(xs: seq<string>, n: nat): (b: nat)
    requires 0 < n <= |xs|
    ensures b < n
  {
    if n == 1 then 0
    else
      var b := MostCommonAt(xs, n - 1);
      if Count(xs, xs[n - 1]) > Count(xs, xs[b]) then n - 1 else b
  }

  lemma {:induction false} MostCommonAtSpec(xs: seq<string>, n: nat)
    requires 0 < n <= |xs|
    ensures var b := MostCommonAt(xs, n);
      (forall j :: 0 <= j < n ==> Count(xs, xs[j]) <= Count(xs, xs[b]))
      && (forall j :: 0 <= j < b ==> Count(xs, xs[j]) < Count(xs, xs[b]))
  {
    if n > 1 {
      MostCommonAtSpec(xs, n - 1);
    }
  }

  /** `Counter(xs).most_common(1)[0][0]` */
  function MostCommon(xs: seq<string>): string
    requires |xs| > 0
  {
    xs[MostCommonAt(xs, |xs|)]
  }

  /**
   * The most common value occurs at least as often as any other, and of
   * the values that occur as often it is the one seen first.
   */
  lemma MostCommonSpec(xs: seq<string>, y: string)
    requires |xs| > 0 && y in xs
    ensures MostCommon(xs) in xs
    ensures Count(xs, y) <= Count(xs, MostCommon(xs))
    ensures Count(xs, y) == Count(xs, MostCommon(xs)) ==> FirstIndex(xs, MostCommon(xs)) <= FirstIndex(xs, y)
  {
    MostCommonAtSpec(xs, |xs|);
    var b := MostCommonAt(xs, |xs|);
    var j := FirstIndex(xs, y);
    assert xs[j] == y;
    var f := FirstIndex(xs, xs[b]);
    assert f <= b;
  }

  // ---- IDM entities ----

  datatype Kind = Person | Place | Group | CulturalObject

  /** The NER label a kind is chosen from; other labels (DATE, NORP, …) give no IDM entity. */
  function KindOf(category: string): Option<Kind>
  {
    if category in {"PER", "PERSON"} then Some(Person)
    else if category in {"LOC", "GPE", "FAC"} then Some(Place)
    else if category == "ORG" then Some(Group)
    else if category == "WORK_OF_ART" then Some(CulturalObject)
    else None
  }

  /** The type code in an IDM id. */
  function Code(k: Kind): string
  {
    match k
    case Person => "pr"
    case Place => "pl"
    case Group => "gr"
    case CulturalObject => "ob"
  }

  /** The `kind` of the entity template. */
  function KindName(k: Kind): string
  {
    match k
    case Person => "person"
    case Place => "place"
    case Group => "group"
    case CulturalObject => "cultural-heritage-object"
  }

  /** `{"event": …, "role": …}` on an entity. */
  datatype RoleRef = RoleRef(event: string, role: string)

  /** An IDM entity: id, default label, kind and its event role references; the constant template fields are left out. */
  datatype IdmEntity = IdmEntity(id: string, defaultLabel: string, kind: Kind, relations: seq<RoleRef>)

  /** `{"entity": …, "role": …}` on an event; the entity is `None` when the subject entity has no IDM type. */
  datatype EventRole = EventRole(entity: Option<string>, role: string)

  datatype IdmEvent = IdmEvent(id: string, defaultLabel: string, kind: string, relations: seq<EventRole>)

  datatype VocabEntry = VocabEntry(id: string, defaultLabel: string)

  /** `per_ix`, `pl_ix`, `gr_ix`, `obj_ix` */
  datatype Counts = Counts(pr: nat, pl: nat, gr: nat, ob: nat)
  {
    function Get(k: Kind): nat
    {
      match k
      case Person => pr
      case Place => pl
      case Group => gr
      case CulturalObject => ob
    }

    function Inc(k: Kind): (c: Counts)
      ensures c.Get(k) == Get(k) + 1
      ensures forall k' :: k' != k ==> c.Get(k') == Get(k')
    {
      match k
      case Person => this.(pr := pr + 1)
      case Place => this.(pl := pl + 1)
      case Group => this.(gr := gr + 1)
      case CulturalObject => this.(ob := ob + 1)
    }
  }

  /** `f"{lastname}-{code}-{stringify_id(n)}"`, with `CodedNumber` the part after the name. */
  function MakeId(lastname: string, k: Kind, n: nat): string
  {
    lastname + "-" + CodedNumber(k, n)
  }

  /** Under one name, an id determines its kind and its number. */
  lemma MakeIdInjective(lastname: string, k1: Kind, n1: nat, k2: Kind, n2: nat)
    requires MakeId(lastname, k1, n1) == MakeId(lastname, k2, n2)
    ensures k1 == k2 && n1 == n2
  {
    var pre := lastname + "-";
    var t1, t2 := CodedNumber(k1, n1), CodedNumber(k2, n2);
    CommonPrefix(pre, t1, t2);
    CodedNumberParts(k1, n1);
    CodedNumberParts(k2, n2);
    StringifyIdInjective(n1, n2);
  }

  function CodedNumber(k: Kind, n: nat): string
  {
    Code(k) + "-" + StringifyId(n)
  }

  lemma CodedNumberParts(k: Kind, n: nat)
    ensures |CodedNumber(k, n)| >= 3
    ensures CodedNumber(k, n)[..2] == Code(k) && CodedNumber(k, n)[3..] == StringifyId(n)
  {
    assert |Code(k)| == 2;
  }

  lemma CommonPrefix(pre: string, t1: string, t2: string)
    requires pre + t1 == pre + t2
    ensures t1 == t2
  {
    assert t1 == (pre + t1)[|pre|..];
    assert t2 == (pre + t2)[|pre|..];
  }

  /** `idm_entity_dict`, `univ_id2idm_id`, `idm_id2univ_id` and the counters while entities are typed. */
  datatype Typing = Typing(entities: Dict<string, IdmEntity>, univ2idm: map<string, Option<string>>,
                           idm2univ: map<string, string>, counts: Counts)

  function InitialTyping(): Typing
  {
    Typing(Empty(), map[], map[], Counts(0, 0, 0, 0))
  }

  /**
   * One unified entity: the longest surface form is its label and the
   * most common NER label its kind; a kind takes the next number of its
   * counter. Empty form or label lists are an IndexError.
   */
  function TypeEntity(ty: Typing, lastname: string, key: string, u: Unified): (r: Result<Typing>)
  {
    if |u.surfaceForms| == 0 || |u.ner| == 0 then Err(IndexError)
    else Ok(Classify(ty, lastname, key, Label(u), KindOf(MostCommon(u.ner))))
  }

  /** `sorted(surface_forms, key=len)[-1]` */
  function Label(u: Unified): string
    requires |u.surfaceForms| > 0
  {
    u.surfaceForms[LongestAt(u.surfaceForms)]
  }

  /** An entity without a kind maps to `None`; one with a kind is registered under the next number of its counter. */
  function Classify(ty: Typing, lastname: string, key: string, form: string, kind: Option<Kind>): (ty': Typing)
  {
    match kind
    case None => ty.(univ2idm := ty.univ2idm[key := None])
    case Some(k) => Register(ty, key, IdmEntity(MakeId(lastname, k, ty.counts.Get(k) + 1), form, k, []), k)
  }

  /** Records IDM entity `e` of kind `k` for unified entity `key` in all three maps and counts it. */
  function Register(ty: Typing, key: string, e: IdmEntity, k: Kind): (ty': Typing)
  {
    Typing(ty.entities.Put(key, e), ty.univ2idm[key := Some(e.id)], ty.idm2univ[e.id := key], ty.counts.Inc(k))
  }

  /** The first typing loop over the first `n` unified entities. */
  function TypeAll(lastname: string, unified: Dict<string, Unified>, n: nat): (r: Result<Typing>)
    requires unified.Valid() && n <= |unified.keys|
  {
    if n == 0 then Ok(InitialTyping())
    else match TypeAll(lastname, unified, n - 1)
      case Err(e) => Err(e)
      case Ok(ty) => TypeEntity(ty, lastname, unified.keys[n - 1], unified.entries[unified.keys[n - 1]])
  }

  lemma {:induction false} TypeAllErrStays(lastname: string, unified: Dict<string, Unified>, n: nat, m: nat)
    requires unified.Valid() && n <= m <= |unified.keys|
    requires TypeAll(lastname, unified, n).Err?
    ensures TypeAll(lastname, unified, m) == TypeAll(lastname, unified, n)
  {
    if m > n {
      TypeAllErrStays(lastname, unified, n, m - 1);
    }
  }

  lemma TypeAllStep(lastname: string, unified: Dict<string, Unified>, n: nat)
    requires unified.Valid() && n < |unified.keys|
    requires TypeAll(lastname, unified, n).Ok?
    ensures TypeAll(lastname, unified, n + 1)
      == TypeEntity(TypeAll(lastname, unified, n).value, lastname, unified.keys[n], unified.entries[unified.keys[n]])
  {
  }

  /** The body of the first typing loop, for unified entity `n`. */
  method TypeOne(ty: Typing, lastname: string, unified: Dict<string, Unified>, n: nat) returns (r: Result<Typing>)
    requires unified.Valid() && n < |unified.keys| && TypeAll(lastname, unified, n) == Ok(ty)
    ensures r == TypeAll(lastname, unified, n + 1)
  {
    TypeAllStep(lastname, unified, n);
    var key := unified.keys[n];
    var u := unified.entries[key];
    if |u.surfaceForms| == 0 || |u.ner| == 0 {
      return Err(IndexError);
    }
    var form := u.surfaceForms[LongestAt(u.surfaceForms)];
    var kind := KindOf(MostCommon(u.ner));
    if kind.Some? {
      var counts := ty.counts.Inc(kind.value);
      var id := MakeId(lastname, kind.value, counts.Get(kind.value));
      r := Ok(Typing(ty.entities.Put(key, IdmEntity(id, form, kind.value, [])), ty.univ2idm[key := Some(id)], ty.idm2univ[id := key], counts));
    } else {
      r := Ok(ty.(univ2idm := ty.univ2idm[key := None]));
    }
  }

  /** The first typing loop of `convert_nlp_to_idm_json`; an IndexError ends it. */
  method TypeEntities(lastname: string, unified: Dict<string, Unified>) returns (r: Result<Typing>)
    requires unified.Valid()
    ensures r == TypeAll(lastname, unified, |unified.keys|)
  {
    var ty := InitialTyping();
    var n := 0;
    while n < |unified.keys|
      invariant n <= |unified.keys|
      invariant TypeAll(lastname, unified, n) == Ok(ty)
    {
      r := TypeOne(ty, lastname, unified, n);
      if r.Err? {
        TypeAllErrStays(lastname, unified, n + 1, |unified.keys|);
        return;
      }
      ty := r.value;
      n := n + 1;
    }
    r := Ok(ty);
  }

  /** No id still to be issued is in use. */
  ghost predicate IssuedBelow(ty: Typing, lastname: string)
  {
    forall k: Kind, n: nat :: MakeId(lastname, k, n) in ty.idm2univ ==> 1 <= n <= ty.counts.Get(k)
  }

  /** The two id maps are inverse on the typed entities, which carry no role references yet. */
  ghost predicate TypingInv(ty: Typing, lastname: string)
  {
    ty.entities.Valid() && IssuedBelow(ty, lastname) && IdsInverse(ty)
  }

  ghost predicate IdsInverse(ty: Typing)
  {
    && (forall k :: k in ty.entities.entries ==>
          ty.entities.entries[k].id in ty.idm2univ && ty.idm2univ[ty.entities.entries[k].id] == k
          && ty.entities.entries[k].relations == [])
    && (forall id :: id in ty.idm2univ ==> ty.idm2univ[id] in ty.entities.entries && ty.entities.entries[ty.idm2univ[id]].id == id)
    && (forall k :: k in ty.univ2idm && ty.univ2idm[k].Some? ==> ty.univ2idm[k].value in ty.idm2univ)
    && (forall k :: k in ty.entities.entries ==> k in ty.univ2idm)
  }

  /** Registering a fresh id for a fresh key keeps the maps inverse. */
  lemma IdsInversePut(ty: Typing, key: string, e: IdmEntity, k: Kind)
    requires IdsInverse(ty) && key !in ty.univ2idm && e.id !in ty.idm2univ && e.relations == []
    ensures IdsInverse(Register(ty, key, e, k))
  {
  }

  lemma IssuedPut(ty: Typing, lastname: string, key: string, e: IdmEntity, c: Kind)
    requires IssuedBelow(ty, lastname) && e.id == MakeId(lastname, c, ty.counts.Get(c) + 1)
    ensures IssuedBelow(Register(ty, key, e, c), lastname)
    ensures e.id !in ty.idm2univ
  {
    var counts := ty.counts.Inc(c);
    forall k: Kind, n: nat | MakeId(lastname, k, n) in ty.idm2univ[e.id := key] ensures 1 <= n <= counts.Get(k) {
      if MakeId(lastname, k, n) == e.id {
        MakeIdInjective(lastname, k, n, c, counts.Get(c));
      }
    }
  }

  lemma RegisterInv(ty: Typing, lastname: string, key: string, e: IdmEntity, c: Kind)
    requires TypingInv(ty, lastname) && key !in ty.univ2idm
    requires e.id == MakeId(lastname, c, ty.counts.Get(c) + 1) && e.relations == []
    ensures TypingInv(Register(ty, key, e, c), lastname)
  {
    IssuedPut(ty, lastname, key, e, c);
    IdsInversePut(ty, key, e, c);
  }

  lemma TypeEntityInv(ty: Typing, lastname: string, key: string, u: Unified)
    requires TypingInv(ty, lastname) && key !in ty.univ2idm
    requires TypeEntity(ty, lastname, key, u).Ok?
    ensures TypingInv(TypeEntity(ty, lastname, key, u).value, lastname)
    ensures TypeEntity(ty, lastname, key, u).value.univ2idm.Keys == ty.univ2idm.Keys + {key}
  {
    ClassifyInv(ty, lastname, key, Label(u), KindOf(MostCommon(u.ner)));
  }

  lemma ClassifyInv(ty: Typing, lastname: string, key: string, form: string, kind: Option<Kind>)
    requires TypingInv(ty, lastname) && key !in ty.univ2idm
    ensures TypingInv(Classify(ty, lastname, key, form, kind), lastname)
    ensures Classify(ty, lastname, key, form, kind).univ2idm.Keys == ty.univ2idm.Keys + {key}
  {
    if kind.Some? {
      var c := kind.value;
      var e := IdmEntity(MakeId(lastname, c, ty.counts.Get(c) + 1), form, c, []);
      assert Classify(ty, lastname, key, form, kind) == Register(ty, key, e, c);
      RegisterInv(ty, lastname, key, e, c);
    } else {
      SkipInv(ty, lastname, key);
    }
  }

  lemma SkipInv(ty: Typing, lastname: string, key: string)
    requires TypingInv(ty, lastname) && key !in ty.univ2idm
    ensures TypingInv(ty.(univ2idm := ty.univ2idm[key := None]), lastname)
  {
  }

  /** What typing leaves for unified entity `key`. */
  predicate TypedAs(ty: Typing, lastname: string, key: string, u: Unified)
  {
    && key in ty.univ2idm
    && |u.surfaceForms| > 0 && |u.ner| > 0
    && (ty.univ2idm[key].Some? <==> KindOf(MostCommon(u.ner)).Some?)
    && (ty.univ2idm[key].Some? <==> key in ty.entities.entries)
    && (key in ty.entities.entries ==>
          var e := ty.entities.entries[key];
          && Some(e.id) == ty.univ2idm[key]
          && e.defaultLabel == u.surfaceForms[LongestAt(u.surfaceForms)]
          && Some(e.kind) == KindOf(MostCommon(u.ner))
          && |e.id| >= |lastname| + 4 && e.id[..|lastname| + 4] == lastname + "-" + Code(e.kind) + "-")
  }

  /** An id starts with the name and the type code. */
  lemma MakeIdPrefix(lastname: string, k: Kind, n: nat)
    ensures var id := MakeId(lastname, k, n);
      |id| >= |lastname| + 4 && id[..|lastname| + 4] == lastname + "-" + Code(k) + "-"
  {
    var id := MakeId(lastname, k, n);
    assert id == (lastname + "-" + Code(k) + "-") + StringifyId(n);
  }

  lemma TypeEntityTyped(ty: Typing, lastname: string, key: string, u: Unified, key2: string, u2: Unified)
    requires TypeEntity(ty, lastname, key, u).Ok? && key !in ty.entities.entries
    requires key2 == key ==> u2 == u
    requires key2 != key ==> TypedAs(ty, lastname, key2, u2)
    ensures TypedAs(TypeEntity(ty, lastname, key, u).value, lastname, key2, u2)
  {
    var kind := KindOf(MostCommon(u.ner));
    if key2 == key && kind.Some? {
      MakeIdPrefix(lastname, kind.value, ty.counts.Get(kind.value) + 1);
    }
  }

  /** One more step of the first typing loop. */
  lemma TypeAllUnfold(lastname: string, unified: Dict<string, Unified>, n: nat)
    requires unified.Valid() && 0 < n <= |unified.keys|
    requires TypeAll(lastname, unified, n).Ok?
    ensures TypeAll(lastname, unified, n - 1).Ok?
    ensures TypeAll(lastname, unified, n)
      == TypeEntity(TypeAll(lastname, unified, n - 1).value, lastname, unified.keys[n - 1], unified.entries[unified.keys[n - 1]])
  {
  }

  lemma KeysExtend(a: set<string>, b: set<string>, keys: seq<string>, n: nat)
    requires n < |keys| && (forall k :: k in a <==> k in keys[..n]) && b == a + {keys[n]}
    ensures forall k :: k in b <==> k in keys[..n + 1]
  {
    assert keys[..n + 1] == keys[..n] + [keys[n]];
  }

  lemma {:induction false} TypeAllInv(lastname: string, unified: Dict<string, Unified>, n: nat)
    requires unified.Valid() && n <= |unified.keys|
    requires TypeAll(lastname, unified, n).Ok?
    ensures var ty := TypeAll(lastname, unified, n).value;
      TypingInv(ty, lastname) && forall k :: k in ty.univ2idm <==> k in unified.keys[..n]
  {
    if n > 0 {
      TypeAllUnfold(lastname, unified, n);
      TypeAllInv(lastname, unified, n - 1);
      var ty := TypeAll(lastname, unified, n - 1).value;
      var key := unified.keys[n - 1];
      NotBefore(unified.keys, n - 1);
      TypeStepInv(ty, TypeAll(lastname, unified, n), lastname, unified.entries[key], unified.keys, n - 1);
    }
  }

  /** One typing step keeps the invariant and adds its key to the typed ones. */
  lemma TypeStepInv(ty: Typing, r: Result<Typing>, lastname: string, u: Unified, keys: seq<string>, n: nat)
    requires n < |keys| && keys[n] !in keys[..n]
    requires TypingInv(ty, lastname) && forall k :: k in ty.univ2idm <==> k in keys[..n]
    requires r == TypeEntity(ty, lastname, keys[n], u) && r.Ok?
    ensures TypingInv(r.value, lastname) && forall k :: k in r.value.univ2idm <==> k in keys[..n + 1]
  {
    TypeEntityInv(ty, lastname, keys[n], u);
    KeysExtend(ty.univ2idm.Keys, r.value.univ2idm.Keys, keys, n);
  }

  /** Entity `n - 1` is typed last, and no earlier step has typed it. */
  lemma TypeAllFresh(lastname: string, unified: Dict<string, Unified>, n: nat)
    requires unified.Valid() && 0 < n <= |unified.keys|
    requires TypeAll(lastname, unified, n).Ok?
    ensures TypeAll(lastname, unified, n - 1).Ok?
    ensures unified.keys[n - 1] !in TypeAll(lastname, unified, n - 1).value.entities.entries
    ensures TypeAll(lastname, unified, n)
      == TypeEntity(TypeAll(lastname, unified, n - 1).value, lastname, unified.keys[n - 1], unified.entries[unified.keys[n - 1]])
  {
    TypeAllUnfold(lastname, unified, n);
    TypeAllInv(lastname, unified, n - 1);
    NotBefore(unified.keys, n - 1);
  }

  /** Typing entity `m` keeps the typing of the ones before it and types it. */
  lemma TypedExtend(ty: Typing, r: Result<Typing>, lastname: string, unified: Dict<string, Unified>, m: nat)
    requires unified.Valid() && m < |unified.keys|
    requires forall i {:trigger TypedAs(ty, lastname, unified.keys[i], unified.entries[unified.keys[i]])} :: 0 <= i < m ==> TypedAs(ty, lastname, unified.keys[i], unified.entries[unified.keys[i]])
    requires unified.keys[m] !in ty.entities.entries
    requires r == TypeEntity(ty, lastname, unified.keys[m], unified.entries[unified.keys[m]]) && r.Ok?
    ensures forall i {:trigger TypedAs(r.value, lastname, unified.keys[i], unified.entries[unified.keys[i]])} :: 0 <= i < m + 1 ==> TypedAs(r.value, lastname, unified.keys[i], unified.entries[unified.keys[i]])
  {
    var key := unified.keys[m];
    forall i | 0 <= i < m + 1 ensures TypedAs(r.value, lastname, unified.keys[i], unified.entries[unified.keys[i]]) {
      TypeEntityTyped(ty, lastname, key, unified.entries[key], unified.keys[i], unified.entries[unified.keys[i]]);
    }
  }

  lemma {:induction false} TypeAllSpec(lastname: string, unified: Dict<string, Unified>, n: nat)
    requires unified.Valid() && n <= |unified.keys|
    requires TypeAll(lastname, unified, n).Ok?
    ensures forall i {:trigger TypedAs(TypeAll(lastname, unified, n).value, lastname, unified.keys[i], unified.entries[unified.keys[i]])} :: 0 <= i < n ==>
      TypedAs(TypeAll(lastname, unified, n).value, lastname, unified.keys[i], unified.entries[unified.keys[i]])
  {
    if n > 0 {
      TypeAllFresh(lastname, unified, n);
      TypeAllSpec(lastname, unified, n - 1);
      TypedExtend(TypeAll(lastname, unified, n - 1).value, TypeAll(lastname, unified, n), lastname, unified, n - 1);
    }
  }

  /**
   * After typing, every unified entity has an entry in `univ_id2idm_id`;
   * exactly those whose most common label has a kind become IDM entities,
   * labelled with their longest surface form and numbered under
   * `<lastname>-<code>-`; no two IDM entities share an id, and each id
   * leads back to its entity.
   */
  lemma TypingSpec(lastname: string, unified: Dict<string, Unified>)
    requires unified.Valid()
    requires TypeAll(lastname, unified, |unified.keys|).Ok?
    ensures var ty := TypeAll(lastname, unified, |unified.keys|).value;
      && (forall k :: k in unified.entries ==> TypedAs(ty, lastname, k, unified.entries[k]))
      && (forall k1, k2 :: k1 in ty.entities.entries && k2 in ty.entities.entries && k1 != k2 ==>
            ty.entities.entries[k1].id != ty.entities.entries[k2].id)
      && (forall k :: k in ty.entities.entries ==> ty.entities.entries[k].id in ty.idm2univ && ty.idm2univ[ty.entities.entries[k].id] == k)
  {
    TypeAllSpec(lastname, unified, |unified.keys|);
    TypeAllInv(lastname, unified, |unified.keys|);
    forall k | k in unified.entries
      ensures TypedAs(TypeAll(lastname, unified, |unified.keys|).value, lastname, k, unified.entries[k])
    {
      var i := FirstIndex(unified.keys, k);
      assert unified.keys[i] == k;
    }
  }

  // ---- IDM events ----

  /** The `event_info` of one event. */
  datatype EventInfo = EventInfo(fullId: string, defaultLabel: string, kind: string, subjRole: string, objRole: string)

  /** What the event loop threads: entities, events, `event_ix`, `ev_sub_id` (unbound at first) and the two vocabularies. */
  datatype EventState = EventState(entities: Dict<string, IdmEntity>, events: seq<IdmEvent>, eventIx: int,
                                   evSubId: Option<string>, eventVocab: Dict<string, VocabEntry>, roleVocab: Dict<string, VocabEntry>)

  ghost predicate Wellformed(st: EventState)
  {
    st.entities.Valid() && st.eventVocab.Valid() && st.roleVocab.Valid()
  }

  /** The lookups the event loop makes into the earlier stages. */
  datatype Lookups = Lookups(lastname: string, univ2idm: map<string, Option<string>>, idm2univ: map<string, string>,
                             nlp2univ: map<string, string>)

  /** `f"{lastname}-{ev_sub_id}-ev-{stringify_id(event_ix)}"` */
  function EventId(lastname: string, sub: string, ix: int): string
  {
    lastname + "-" + sub + "-ev-" + StringifyId(ix)
  }

  /** An event id ends in its number. */
  lemma EventIdEnds(lastname: string, sub: string, ix: int)
    ensures EndsWith(EventId(lastname, sub, ix), "-ev-" + StringifyId(ix))
  {
    var p := lastname + "-" + sub;
    AppendAssoc(p, "-ev-", StringifyId(ix));
    EndsWithAppend(p, "-ev-" + StringifyId(ix));
  }

  lemma AppendAssoc(a: string, b: string, c: string)
    ensures a + b + c == a + (b + c)
  {
  }

  lemma EndsWithAppend(p: string, t: string)
    ensures EndsWith(p + t, t)
  {
    assert (p + t)[|p + t| - |t|..] == t;
  }

  /**
   * `create_idm_event` followed by the caller's `event_ix += 1`: the
   * subject entity gains the subject-role reference, then the object entity
   * the object-role reference (so an entity related to itself gains both);
   * the event lists the object first; the vocabularies get their entries
   * overwritten.
   */
  function CreateIdmEvent(st: EventState, info: EventInfo, subjId: Option<string>, subjKey: string, objKey: string): (st': EventState)
    requires subjKey in st.entities.entries && objKey in st.entities.entries
    ensures st'.entities.keys == st.entities.keys && st'.entities.entries.Keys == st.entities.entries.Keys
    ensures Wellformed(st) ==> Wellformed(st')
  {
    var subjRole, objRole := "role-" + info.subjRole, "role-" + info.objRole;
    var s := st.entities.entries[subjKey];
    var e1 := st.entities.Put(subjKey, s.(relations := s.relations + [RoleRef(info.fullId, subjRole)]));
    var o := e1.entries[objKey];
    var e2 := e1.Put(objKey, o.(relations := o.relations + [RoleRef(info.fullId, objRole)]));
    var kind := "event-kind-" + info.kind;
    var ev := IdmEvent(info.fullId, info.defaultLabel, kind, [EventRole(Some(o.id), objRole), EventRole(subjId, subjRole)]);
    var roles := st.roleVocab.Put(subjRole, VocabEntry(subjRole, info.subjRole)).Put(objRole, VocabEntry(objRole, info.objRole));
    EventState(e2, st.events + [ev], st.eventIx + 1, st.evSubId, st.eventVocab.Put(kind, VocabEntry(kind, info.objRole)), roles)
  }

  /**
   * A unified entity labelled WORK_OF_ART anywhere becomes the object of a
   * creation event whose creator is `<lastname>-pr-001`, the first person
   * typed. Its id uses the `ev_sub_id` a relation set last, which is a
   * NameError before any relation has.
   */
  function CreationStep(st: EventState, lk: Lookups, key: string, u: Unified): (r: Result<EventState>)
    requires key in st.entities.entries
    ensures r.Ok? ==> r.value.entities.keys == st.entities.keys && r.value.entities.entries.Keys == st.entities.entries.Keys
    ensures r.Ok? && Wellformed(st) ==> Wellformed(r.value)
  {
    var subjId := lk.lastname + "-pr-001";
    if subjId !in lk.idm2univ || lk.idm2univ[subjId] !in st.entities.entries then Err(KeyError)
    else if st.evSubId.None? then Err(NameError)
    else if |u.surfaceForms| == 0 then Err(IndexError)
    else
      var info := EventInfo(EventId(lk.lastname, st.evSubId.value, st.eventIx), u.surfaceForms[0], "creation", "was_creator", "object_created");
      Ok(CreateIdmEvent(st, info, Some(subjId), lk.idm2univ[subjId], key))
  }

  /**
   * One relation of the current entity. `ev_sub_id` becomes the type code
   * of the current entity's id whether or not an event follows. The
   * subject's and object's NLP ids must be unified (KeyError otherwise);
   * an event is made only when the object is an IDM entity, with the
   * current entity in the subject role.
   */
  function RelationStep(st: EventState, lk: Lookups, key: string, rel: Relation): (r: Result<EventState>)
    requires key in st.entities.entries
    ensures r.Ok? ==> r.value.entities.keys == st.entities.keys && r.value.entities.entries.Keys == st.entities.entries.Keys
    ensures r.Ok? && Wellformed(st) ==> Wellformed(r.value)
  {
    var parts := Split(st.entities.entries[key].id, '-');
    if |parts| < 2 then Err(IndexError)
    else
      var st1 := st.(evSubId := Some(parts[1]));
      var info := EventInfo(EventId(lk.lastname, parts[1], st.eventIx), rel.surfaceFormObj, "event-kind-" + rel.relationValue,
                            rel.relationValue, InverseRelation(rel.relationValue));
      if rel.subjectId.None? || rel.subjectId.value !in lk.nlp2univ then Err(KeyError)
      else if lk.nlp2univ[rel.subjectId.value] !in lk.univ2idm then Err(KeyError)
      else if rel.objectId.None? || rel.objectId.value !in lk.nlp2univ then Err(KeyError)
      else
        var objKey := lk.nlp2univ[rel.objectId.value];
        if objKey in st.entities.entries then
          Ok(CreateIdmEvent(st1, info, lk.univ2idm[lk.nlp2univ[rel.subjectId.value]], key, objKey))
        else Ok(st1)
  }

  function RelationEvents(st: EventState, lk: Lookups, key: string, rels: seq<Relation>): (r: Result<EventState>)
    requires key in st.entities.entries
    ensures r.Ok? ==> r.value.entities.keys == st.entities.keys && r.value.entities.entries.Keys == st.entities.entries.Keys
    ensures r.Ok? && Wellformed(st) ==> Wellformed(r.value)
  {
    if rels == [] then Ok(st)
    else match RelationEvents(st, lk, key, rels[..|rels| - 1])
      case Err(e) => Err(e)
      case Ok(st1) => RelationStep(st1, lk, key, rels[|rels| - 1])
  }

  /** The second loop's body for one unified entity: only IDM entities take part. */
  function EntityEvents(st: EventState, lk: Lookups, key: string, u: Unified): (r: Result<EventState>)
    ensures r.Ok? ==> r.value.entities.keys == st.entities.keys && r.value.entities.entries.Keys == st.entities.entries.Keys
    ensures r.Ok? && Wellformed(st) ==> Wellformed(r.value)
  {
    if key !in st.entities.entries then Ok(st)
    else
      var r1 := if "WORK_OF_ART" in u.ner then CreationStep(st, lk, key, u) else Ok(st);
      match r1
      case Err(e) => Err(e)
      case Ok(st1) => RelationEvents(st1, lk, key, u.relations)
  }

  function AllEvents(st0: EventState, lk: Lookups, unified: Dict<string, Unified>, n: nat): (r: Result<EventState>)
    requires unified.Valid() && n <= |unified.keys|
    ensures r.Ok? ==> r.value.entities.keys == st0.entities.keys && r.value.entities.entries.Keys == st0.entities.entries.Keys
    ensures r.Ok? && Wellformed(st0) ==> Wellformed(r.value)
  {
    if n == 0 then Ok(st0)
    else match AllEvents(st0, lk, unified, n - 1)
      case Err(e) => Err(e)
      case Ok(st) => EntityEvents(st, lk, unified.keys[n - 1], unified.entries[unified.keys[n - 1]])
  }

  lemma {:induction false} RelationEventsErrStays(st: EventState, lk: Lookups, key: string, rels: seq<Relation>, n: nat)
    requires key in st.entities.entries && n <= |rels|
    requires RelationEvents(st, lk, key, rels[..n]).Err?
    ensures RelationEvents(st, lk, key, rels) == RelationEvents(st, lk, key, rels[..n])
    decreases |rels| - n
  {
    if n < |rels| {
      assert rels[..n + 1][..n] == rels[..n];
      RelationEventsErrStays(st, lk, key, rels, n + 1);
    } else {
      assert rels[..n] == rels;
    }
  }

  lemma {:induction false} AllEventsErrStays(st0: EventState, lk: Lookups, unified: Dict<string, Unified>, n: nat, m: nat)
    requires unified.Valid() && n <= m <= |unified.keys|
    requires AllEvents(st0, lk, unified, n).Err?
    ensures AllEvents(st0, lk, unified, m) == AllEvents(st0, lk, unified, n)
  {
    if m > n {
      AllEventsErrStays(st0, lk, unified, n, m - 1);
    }
  }

  /** The relation loop of one entity. */
  method RelationLoop(st0: EventState, lk: Lookups, key: string, rels: seq<Relation>) returns (r: Result<EventState>)
    requires key in st0.entities.entries
    ensures r == RelationEvents(st0, lk, key, rels)
  {
    var st := st0;
    var n := 0;
    while n < |rels|
      invariant n <= |rels|
      invariant RelationEvents(st0, lk, key, rels[..n]) == Ok(st)
      invariant key in st.entities.entries
    {
      assert rels[..n + 1][..n] == rels[..n];
      var step := RelationStep(st, lk, key, rels[n]);
      if step.Err? {
        RelationEventsErrStays(st0, lk, key, rels, n + 1);
        return step;
      }
      st := step.value;
      n := n + 1;
    }
    assert rels[..n] == rels;
    r := Ok(st);
  }

  /** The event loop over the unified entities, in order. */
  method EmitEvents(st0: EventState, lk: Lookups, unified: Dict<string, Unified>) returns (r: Result<EventState>)
    requires unified.Valid()
    ensures r == AllEvents(st0, lk, unified, |unified.keys|)
  {
    var st := st0;
    var n := 0;
    while n < |unified.keys|
      invariant n <= |unified.keys|
      invariant AllEvents(st0, lk, unified, n) == Ok(st)
    {
      var key := unified.keys[n];
      var u := unified.entries[key];
      if key in st.entities.entries {
        if "WORK_OF_ART" in u.ner {
          var c := CreationStep(st, lk, key, u);
          if c.Err? {
            AllEventsErrStays(st0, lk, unified, n + 1, |unified.keys|);
            return c;
          }
          st := c.value;
        }
        var rs := RelationLoop(st, lk, key, u.relations);
        if rs.Err? {
          AllEventsErrStays(st0, lk, unified, n + 1, |unified.keys|);
          return rs;
        }
        st := rs.value;
      }
      n := n + 1;
    }
    r := Ok(st);
  }

  // ---- what the events refer to ----

  predicate EndsWith(s: string, t: string)
  {
    |t| <= |s| && s[|s| - |t|..] == t
  }

  ghost function EventIds(events: seq<IdmEvent>): set<string>
  {
    set i | 0 <= i < |events| :: events[i].id
  }

  /** An event role that names an IDM entity by an id `idm_id2univ_id` knows. */
  predicate Names(idm2univ: map<string, string>, role: EventRole)
  {
    role.entity.Some? && role.entity.value in idm2univ
  }

  /** An event has its object and its subject role, the object an IDM entity and the subject one whenever it is set. */
  predicate EventLinked(ev: IdmEvent, idm2univ: map<string, string>)
  {
    |ev.relations| == 2 && Names(idm2univ, ev.relations[0])
    && (ev.relations[1].entity.Some? ==> Names(idm2univ, ev.relations[1]))
  }

  /**
   * While events are emitted: entity ids stay put, `event_ix` is one past
   * the number of events and numbers event `i` as `i + 1`, every event's
   * object is an IDM entity and its subject one whenever it is set, and
   * every role reference on an entity names an emitted event.
   */
  ghost predicate EventInv(st: EventState, ty: Typing)
  {
    && st.entities.Valid()
    && st.entities.keys == ty.entities.keys
    && (forall k :: k in st.entities.entries <==> k in ty.entities.entries)
    && (forall k :: k in st.entities.entries ==> st.entities.entries[k].id == ty.entities.entries[k].id)
    && st.eventIx == |st.events| + 1
    && Numbered(st.events)
    && (forall i :: 0 <= i < |st.events| ==> EventLinked(st.events[i], ty.idm2univ))
    && RoleRefsKnown(st)
  }

  /** Event `i` carries the number `i + 1`. */
  ghost predicate Numbered(events: seq<IdmEvent>)
  {
    forall i :: 0 <= i < |events| ==> EndsWith(events[i].id, "-ev-" + StringifyId(i + 1))
  }

  /** Every role reference on an entity names an emitted event. */
  ghost predicate RoleRefsKnown(st: EventState)
  {
    forall k, j :: k in st.entities.entries && 0 <= j < |st.entities.entries[k].relations| ==>
      st.entities.entries[k].relations[j].event in EventIds(st.events)
  }

  function InitialEvents(ty: Typing): EventState
  {
    EventState(ty.entities, [], 1, None, Empty(), Empty())
  }

  /**
   * What `create_idm_event` and the caller's `event_ix += 1` do: one event
   * is appended, with the given id and label, kind `event-kind-<kind>`,
   * the object in its role first and the subject second; the subject
   * gains the subject-role reference and the object the object-role one;
   * the event kind is registered with the object role as its label and
   * each role under its own name; `ev_sub_id` is not touched.
   */
  lemma CreateIdmEventShape(st: EventState, info: EventInfo, subjId: Option<string>, subjKey: string, objKey: string)
    requires subjKey in st.entities.entries && objKey in st.entities.entries
    ensures var st' := CreateIdmEvent(st, info, subjId, subjKey, objKey);
      var subjRole, objRole, kind := "role-" + info.subjRole, "role-" + info.objRole, "event-kind-" + info.kind;
      && st'.events == st.events + [IdmEvent(info.fullId, info.defaultLabel, kind,
           [EventRole(Some(st.entities.entries[objKey].id), objRole), EventRole(subjId, subjRole)])]
      && st'.eventIx == st.eventIx + 1 && st'.evSubId == st.evSubId
      && RefsAppended(st.entities.entries, st'.entities.entries, subjKey, objKey, RoleRef(info.fullId, subjRole), RoleRef(info.fullId, objRole))
      && st'.eventVocab.entries == st.eventVocab.entries[kind := VocabEntry(kind, info.objRole)]
      && st'.roleVocab.entries == st.roleVocab.entries[subjRole := VocabEntry(subjRole, info.subjRole)][objRole := VocabEntry(objRole, info.objRole)]
  {
    if subjKey == objKey {
      var s := st.entities.entries[subjKey];
      var a, b := RoleRef(info.fullId, "role-" + info.subjRole), RoleRef(info.fullId, "role-" + info.objRole);
      assert s.relations + [a] + [b] == s.relations + [a, b];
    }
  }

  /**
   * `e'` is `e` with `a` appended to the subject's role references and
   * `b` to the object's; an entity that is both gains `a` then `b`, and
   * every other entity is unchanged.
   */
  predicate RefsAppended(e: map<string, IdmEntity>, e': map<string, IdmEntity>, subjKey: string, objKey: string, a: RoleRef, b: RoleRef)
    requires subjKey in e && objKey in e
  {
    && e'.Keys == e.Keys
    && (subjKey != objKey ==>
          && e'[subjKey] == e[subjKey].(relations := e[subjKey].relations + [a])
          && e'[objKey] == e[objKey].(relations := e[objKey].relations + [b]))
    && (subjKey == objKey ==> e'[subjKey] == e[subjKey].(relations := e[subjKey].relations + [a, b]))
    && (forall k :: k in e && k != subjKey && k != objKey ==> e'[k] == e[k])
  }

  /** Appending references to one event only grows each entity by references to it. */
  lemma AppendedGrown(e: map<string, IdmEntity>, e': map<string, IdmEntity>, subjKey: string, objKey: string, ev: string, ra: string, rb: string)
    requires subjKey in e && objKey in e && RefsAppended(e, e', subjKey, objKey, RoleRef(ev, ra), RoleRef(ev, rb))
    ensures forall k :: k in e ==> Grown(e[k], e'[k], ev)
  {
    forall k | k in e ensures Grown(e[k], e'[k], ev) {
      if k == subjKey || k == objKey {
        assert e[k].relations <= e'[k].relations;
      }
    }
  }

  /** An entity that only gained role references to event `ev`. */
  predicate Grown(e: IdmEntity, e': IdmEntity, ev: string)
  {
    e'.id == e.id && e.relations <= e'.relations
    && forall j :: |e.relations| <= j < |e'.relations| ==> e'.relations[j].event == ev
  }

  lemma CreateIdmEventInv(st: EventState, ty: Typing, lastname: string, info: EventInfo, subjId: Option<string>, subjKey: string, objKey: string)
    requires TypingInv(ty, lastname) && EventInv(st, ty)
    requires subjKey in st.entities.entries && objKey in st.entities.entries
    requires EndsWith(info.fullId, "-ev-" + StringifyId(st.eventIx))
    requires subjId.Some? ==> subjId.value in ty.idm2univ
    ensures EventInv(CreateIdmEvent(st, info, subjId, subjKey, objKey), ty)
  {
    var st' := CreateIdmEvent(st, info, subjId, subjKey, objKey);
    CreateIdmEventShape(st, info, subjId, subjKey, objKey);
    assert st'.events[..|st.events|] == st.events;
    AppendedGrown(st.entities.entries, st'.entities.entries, subjKey, objKey, info.fullId, "role-" + info.subjRole, "role-" + info.objRole);
    EventsExtended(st.events, st'.events, ty.idm2univ, st.eventIx);
    EventIdsSnoc(st.events, st'.events);
    RoleRefsExtended(st, st', info.fullId);
  }

  lemma EventsExtended(evs: seq<IdmEvent>, evs': seq<IdmEvent>, idm2univ: map<string, string>, ix: int)
    requires ix == |evs| + 1 && |evs'| == |evs| + 1 && evs'[..|evs|] == evs
    requires Numbered(evs) && forall i :: 0 <= i < |evs| ==> EventLinked(evs[i], idm2univ)
    requires EndsWith(evs'[|evs|].id, "-ev-" + StringifyId(ix)) && EventLinked(evs'[|evs|], idm2univ)
    ensures Numbered(evs') && forall i :: 0 <= i < |evs'| ==> EventLinked(evs'[i], idm2univ)
  {
    forall i | 0 <= i < |evs'|
      ensures EndsWith(evs'[i].id, "-ev-" + StringifyId(i + 1)) && EventLinked(evs'[i], idm2univ)
    {
      if i < |evs| {
        assert evs'[i] == evs'[..|evs|][i] == evs[i];
        assert EndsWith(evs[i].id, "-ev-" + StringifyId(i + 1));
      } else {
        assert i == |evs| && i + 1 == ix;
      }
    }
  }

  lemma EventIdsSnoc(evs: seq<IdmEvent>, evs': seq<IdmEvent>)
    requires |evs'| == |evs| + 1 && evs'[..|evs|] == evs
    ensures EventIds(evs') == EventIds(evs) + {evs'[|evs|].id}
  {
    forall i | 0 <= i < |evs| ensures evs'[i] == evs[i] {
      assert evs'[..|evs|][i] == evs[i];
    }
  }

  lemma RoleRefsExtended(st: EventState, st': EventState, ev: string)
    requires RoleRefsKnown(st)
    requires st'.entities.entries.Keys == st.entities.entries.Keys
    requires forall k :: k in st.entities.entries ==> Grown(st.entities.entries[k], st'.entities.entries[k], ev)
    requires EventIds(st'.events) == EventIds(st.events) + {ev}
    ensures RoleRefsKnown(st')
  {
    forall k, j | k in st'.entities.entries && 0 <= j < |st'.entities.entries[k].relations|
      ensures st'.entities.entries[k].relations[j].event in EventIds(st'.events)
    {
      var rels := st'.entities.entries[k].relations;
      var old_rels := st.entities.entries[k].relations;
      if j < |old_rels| {
        assert rels[j] == old_rels[j];
      }
    }
  }

  lemma CreationStepInv(st: EventState, ty: Typing, lk: Lookups, key: string, u: Unified)
    requires TypingInv(ty, lk.lastname) && EventInv(st, ty) && lk.idm2univ == ty.idm2univ
    requires key in st.entities.entries
    requires CreationStep(st, lk, key, u).Ok?
    ensures EventInv(CreationStep(st, lk, key, u).value, ty)
  {
    var subjId := lk.lastname + "-pr-001";
    var info := EventInfo(EventId(lk.lastname, st.evSubId.value, st.eventIx), u.surfaceForms[0], "creation", "was_creator", "object_created");
    EventIdEnds(lk.lastname, st.evSubId.value, st.eventIx);
    CreateIdmEventInv(st, ty, lk.lastname, info, Some(subjId), lk.idm2univ[subjId], key);
  }

  lemma RelationStepInv(st: EventState, ty: Typing, lk: Lookups, key: string, rel: Relation)
    requires TypingInv(ty, lk.lastname) && EventInv(st, ty) && lk.idm2univ == ty.idm2univ
    requires forall k :: k in lk.univ2idm && lk.univ2idm[k].Some? ==> lk.univ2idm[k].value in ty.idm2univ
    requires key in st.entities.entries
    requires RelationStep(st, lk, key, rel).Ok?
    ensures EventInv(RelationStep(st, lk, key, rel).value, ty)
  {
    var parts := Split(st.entities.entries[key].id, '-');
    var st1 := st.(evSubId := Some(parts[1]));
    SubIdKeepsInv(st, ty, Some(parts[1]));
    var objKey := lk.nlp2univ[rel.objectId.value];
    if objKey in st.entities.entries {
      var info := EventInfo(EventId(lk.lastname, parts[1], st.eventIx), rel.surfaceFormObj, "event-kind-" + rel.relationValue,
                            rel.relationValue, InverseRelation(rel.relationValue));
      EventIdEnds(lk.lastname, parts[1], st.eventIx);
      var subjId := lk.univ2idm[lk.nlp2univ[rel.subjectId.value]];
      assert subjId.Some? ==> subjId.value in ty.idm2univ;
      CreateIdmEventInv(st1, ty, lk.lastname, info, subjId, key, objKey);
      assert RelationStep(st, lk, key, rel).value == CreateIdmEvent(st1, info, subjId, key, objKey);
    } else {
      assert RelationStep(st, lk, key, rel).value == st1;
    }
  }

  /**
   * A creation step that goes through: the event takes the next number
   * under the `ev_sub_id` a relation set last, is labelled with the
   * object's first surface form, has kind `event-kind-creation`, and lists
   * the object as `role-object_created` and `<lastname>-pr-001` as
   * `role-was_creator`; the creator gains the `role-was_creator` reference
   * and the object the `role-object_created` one.
   */
  lemma CreationStepEvent(st: EventState, lk: Lookups, key: string, u: Unified)
    requires key in st.entities.entries
    requires CreationStep(st, lk, key, u).Ok?
    ensures lk.lastname + "-pr-001" in lk.idm2univ && lk.idm2univ[lk.lastname + "-pr-001"] in st.entities.entries
    ensures st.evSubId.Some? && |u.surfaceForms| > 0
    ensures var st', id := CreationStep(st, lk, key, u).value, EventId(lk.lastname, st.evSubId.value, st.eventIx);
      && st'.events == st.events + [IdmEvent(id, u.surfaceForms[0], "event-kind-creation",
           [EventRole(Some(st.entities.entries[key].id), "role-object_created"), EventRole(Some(lk.lastname + "-pr-001"), "role-was_creator")])]
      && st'.eventIx == st.eventIx + 1
      && RefsAppended(st.entities.entries, st'.entities.entries, lk.idm2univ[lk.lastname + "-pr-001"], key,
           RoleRef(id, "role-was_creator"), RoleRef(id, "role-object_created"))
      && "event-kind-creation" in st'.eventVocab.entries && st'.eventVocab.entries["event-kind-creation"] == VocabEntry("event-kind-creation", "object_created")
      && "role-was_creator" in st'.roleVocab.entries && st'.roleVocab.entries["role-was_creator"] == VocabEntry("role-was_creator", "was_creator")
      && "role-object_created" in st'.roleVocab.entries && st'.roleVocab.entries["role-object_created"] == VocabEntry("role-object_created", "object_created")
  {
    var subjId := lk.lastname + "-pr-001";
    var id := EventId(lk.lastname, st.evSubId.value, st.eventIx);
    var info := EventInfo(id, u.surfaceForms[0], "creation", "was_creator", "object_created");
    var st' := CreateIdmEvent(st, info, Some(subjId), lk.idm2univ[subjId], key);
    assert CreationStep(st, lk, key, u).value == st';
    CreateIdmEventShape(st, info, Some(subjId), lk.idm2univ[subjId], key);
    CreationNames();
  }

  /** The ids the creation event's kind and roles are registered under. */
  lemma CreationNames()
    ensures "role-" + "was_creator" == "role-was_creator" && "role-" + "object_created" == "role-object_created"
    ensures "event-kind-" + "creation" == "event-kind-creation"
  {
  }

  /**
   * A creation step fails exactly when `<lastname>-pr-001` is not a typed
   * entity (KeyError), no relation has set `ev_sub_id` yet (NameError) or
   * the entity has no surface form (IndexError), in that order.
   */
  lemma CreationStepErrors(st: EventState, lk: Lookups, key: string, u: Unified)
    requires key in st.entities.entries
    ensures var subjId, r := lk.lastname + "-pr-001", CreationStep(st, lk, key, u);
      var noCreator := subjId !in lk.idm2univ || lk.idm2univ[subjId] !in st.entities.entries;
      && (r.Err? <==> noCreator || st.evSubId.None? || |u.surfaceForms| == 0)
      && (r.Err? ==> r.error == if noCreator then KeyError else if st.evSubId.None? then NameError else IndexError)
  {
  }

  /**
   * A relation step that goes through: `ev_sub_id` becomes the type code
   * of the current entity's id, and an event is made exactly when the
   * object is an IDM entity. That event takes the next number, is
   * labelled with the object's surface form, has kind
   * `event-kind-event-kind-<relation>`, and lists the object in the
   * inverse role (`unk` when the table has none) and the subject in the
   * relation's own role; the current entity gains the subject-role
   * reference and the object the object-role one. Without an event
   * nothing but `ev_sub_id` changes.
   */
  lemma RelationStepEvent(st: EventState, lk: Lookups, key: string, rel: Relation)
    requires key in st.entities.entries
    requires RelationStep(st, lk, key, rel).Ok?
    ensures |Split(st.entities.entries[key].id, '-')| >= 2
    ensures rel.subjectId.Some? && rel.subjectId.value in lk.nlp2univ && lk.nlp2univ[rel.subjectId.value] in lk.univ2idm
    ensures rel.objectId.Some? && rel.objectId.value in lk.nlp2univ
    ensures var st', sub := RelationStep(st, lk, key, rel).value, Split(st.entities.entries[key].id, '-')[1];
      var objKey, id := lk.nlp2univ[rel.objectId.value], EventId(lk.lastname, sub, st.eventIx);
      var subjRole, objRole := "role-" + rel.relationValue, "role-" + InverseRelation(rel.relationValue);
      && st'.evSubId == Some(sub)
      && (objKey !in st.entities.entries ==> st' == st.(evSubId := Some(sub)))
      && (objKey in st.entities.entries ==>
            && st'.events == st.events + [IdmEvent(id, rel.surfaceFormObj, "event-kind-event-kind-" + rel.relationValue,
                 [EventRole(Some(st.entities.entries[objKey].id), objRole), EventRole(lk.univ2idm[lk.nlp2univ[rel.subjectId.value]], subjRole)])]
            && st'.eventIx == st.eventIx + 1
            && RefsAppended(st.entities.entries, st'.entities.entries, key, objKey, RoleRef(id, subjRole), RoleRef(id, objRole))
            && "event-kind-event-kind-" + rel.relationValue in st'.eventVocab.entries
            && st'.eventVocab.entries["event-kind-event-kind-" + rel.relationValue] == VocabEntry("event-kind-event-kind-" + rel.relationValue, InverseRelation(rel.relationValue))
            && objRole in st'.roleVocab.entries && st'.roleVocab.entries[objRole] == VocabEntry(objRole, InverseRelation(rel.relationValue))
            && subjRole in st'.roleVocab.entries
            && (subjRole != objRole ==> st'.roleVocab.entries[subjRole] == VocabEntry(subjRole, rel.relationValue)))
  {
    var parts := Split(st.entities.entries[key].id, '-');
    var objKey := lk.nlp2univ[rel.objectId.value];
    if objKey in st.entities.entries {
      var info := EventInfo(EventId(lk.lastname, parts[1], st.eventIx), rel.surfaceFormObj, "event-kind-" + rel.relationValue,
                            rel.relationValue, InverseRelation(rel.relationValue));
      var st1 := st.(evSubId := Some(parts[1]));
      CreateIdmEventShape(st1, info, lk.univ2idm[lk.nlp2univ[rel.subjectId.value]], key, objKey);
      assert RelationStep(st, lk, key, rel).value == CreateIdmEvent(st1, info, lk.univ2idm[lk.nlp2univ[rel.subjectId.value]], key, objKey);
      RelationKindName(rel.relationValue);
    }
  }

  /** The kind a relation event is registered under carries the prefix twice. */
  lemma RelationKindName(rv: string)
    ensures "event-kind-" + ("event-kind-" + rv) == "event-kind-event-kind-" + rv
  {
  }

  /**
   * A relation step fails exactly when the current entity's id has no
   * second dash-separated part (IndexError), or the subject or object is
   * missing from the unified ids or the subject from `univ_id2idm_id`
   * (KeyError).
   */
  lemma RelationStepErrors(st: EventState, lk: Lookups, key: string, rel: Relation)
    requires key in st.entities.entries
    ensures var r, parts := RelationStep(st, lk, key, rel), Split(st.entities.entries[key].id, '-');
      var unknown := rel.subjectId.None? || rel.subjectId.value !in lk.nlp2univ || lk.nlp2univ[rel.subjectId.value] !in lk.univ2idm
                     || rel.objectId.None? || rel.objectId.value !in lk.nlp2univ;
      && (r.Err? <==> |parts| < 2 || unknown)
      && (r.Err? ==> r.error == if |parts| < 2 then IndexError else KeyError)
  {
  }

  /** A relation becomes an event exactly when its object is an IDM entity. */
  predicate ObjectTyped(lk: Lookups, keys: set<string>, rel: Relation)
  {
    rel.objectId.Some? && rel.objectId.value in lk.nlp2univ && lk.nlp2univ[rel.objectId.value] in keys
  }

  /** The number of relations whose object is an IDM entity. */
  function RelationEventCount(lk: Lookups, keys: set<string>, rels: seq<Relation>): nat
  {
    if rels == [] then 0
    else RelationEventCount(lk, keys, rels[..|rels| - 1]) + (if ObjectTyped(lk, keys, rels[|rels| - 1]) then 1 else 0)
  }

  /** The events one unified entity makes: none without an IDM type, else its creation event if any and one per relation with an IDM object. */
  function EntityEventCount(lk: Lookups, keys: set<string>, key: string, u: Unified): nat
  {
    if key !in keys then 0
    else (if "WORK_OF_ART" in u.ner then 1 else 0) + RelationEventCount(lk, keys, u.relations)
  }

  function AllEventCount(lk: Lookups, keys: set<string>, unified: Dict<string, Unified>, n: nat): nat
    requires unified.Valid() && n <= |unified.keys|
  {
    if n == 0 then 0
    else AllEventCount(lk, keys, unified, n - 1) + EntityEventCount(lk, keys, unified.keys[n - 1], unified.entries[unified.keys[n - 1]])
  }

  /** The relation loop of one entity keeps the earlier events and adds one per relation with an IDM object. */
  lemma {:induction false} RelationEventsCount(st: EventState, lk: Lookups, key: string, rels: seq<Relation>)
    requires key in st.entities.entries
    requires RelationEvents(st, lk, key, rels).Ok?
    ensures var st' := RelationEvents(st, lk, key, rels).value;
      st.events <= st'.events && |st'.events| == |st.events| + RelationEventCount(lk, st.entities.entries.Keys, rels)
  {
    if rels != [] {
      var pre := rels[..|rels| - 1];
      RelationEventsCount(st, lk, key, pre);
      var st1 := RelationEvents(st, lk, key, pre).value;
      RelationStepEvent(st1, lk, key, rels[|rels| - 1]);
    }
  }

  /** One unified entity keeps the earlier events and adds `EntityEventCount` of them. */
  lemma EntityEventsCount(st: EventState, lk: Lookups, key: string, u: Unified)
    requires EntityEvents(st, lk, key, u).Ok?
    ensures var st' := EntityEvents(st, lk, key, u).value;
      st.events <= st'.events && |st'.events| == |st.events| + EntityEventCount(lk, st.entities.entries.Keys, key, u)
  {
    if key in st.entities.entries {
      if "WORK_OF_ART" in u.ner {
        CreationStepEvent(st, lk, key, u);
        var st1 := CreationStep(st, lk, key, u).value;
        RelationEventsCount(st1, lk, key, u.relations);
      } else {
        RelationEventsCount(st, lk, key, u.relations);
      }
    }
  }

  /** The whole event loop makes exactly `AllEventCount` events, in order. */
  lemma {:induction false} AllEventsCount(st0: EventState, lk: Lookups, unified: Dict<string, Unified>, n: nat)
    requires unified.Valid() && n <= |unified.keys|
    requires AllEvents(st0, lk, unified, n).Ok?
    ensures var st := AllEvents(st0, lk, unified, n).value;
      st0.events <= st.events && |st.events| == |st0.events| + AllEventCount(lk, st0.entities.entries.Keys, unified, n)
  {
    if n > 0 {
      AllEventsCount(st0, lk, unified, n - 1);
      var st := AllEvents(st0, lk, unified, n - 1).value;
      EntityEventsCount(st, lk, unified.keys[n - 1], unified.entries[unified.keys[n - 1]]);
    }
  }

  /** Setting `ev_sub_id` changes nothing the invariant speaks of. */
  lemma SubIdKeepsInv(st: EventState, ty: Typing, sub: Option<string>)
    requires EventInv(st, ty)
    ensures EventInv(st.(evSubId := sub), ty)
  {
  }

  lemma {:induction false} RelationEventsInv(st: EventState, ty: Typing, lk: Lookups, key: string, rels: seq<Relation>)
    requires TypingInv(ty, lk.lastname) && EventInv(st, ty) && lk.idm2univ == ty.idm2univ
    requires forall k :: k in lk.univ2idm && lk.univ2idm[k].Some? ==> lk.univ2idm[k].value in ty.idm2univ
    requires key in st.entities.entries
    requires RelationEvents(st, lk, key, rels).Ok?
    ensures EventInv(RelationEvents(st, lk, key, rels).value, ty)
  {
    if rels != [] {
      RelationEventsInv(st, ty, lk, key, rels[..|rels| - 1]);
      RelationStepInv(RelationEvents(st, lk, key, rels[..|rels| - 1]).value, ty, lk, key, rels[|rels| - 1]);
    }
  }

  lemma {:induction false} AllEventsInv(st0: EventState, ty: Typing, lk: Lookups, unified: Dict<string, Unified>, n: nat)
    requires TypingInv(ty, lk.lastname) && EventInv(st0, ty) && lk.idm2univ == ty.idm2univ
    requires forall k :: k in lk.univ2idm && lk.univ2idm[k].Some? ==> lk.univ2idm[k].value in ty.idm2univ
    requires unified.Valid() && n <= |unified.keys|
    requires AllEvents(st0, lk, unified, n).Ok?
    ensures EventInv(AllEvents(st0, lk, unified, n).value, ty)
  {
    if n > 0 {
      AllEventsInv(st0, ty, lk, unified, n - 1);
      var st := AllEvents(st0, lk, unified, n - 1).value;
      var key := unified.keys[n - 1];
      var u := unified.entries[key];
      if key in st.entities.entries {
        if "WORK_OF_ART" in u.ner {
          CreationStepInv(st, ty, lk, key, u);
          RelationEventsInv(CreationStep(st, lk, key, u).value, ty, lk, key, u.relations);
        } else {
          RelationEventsInv(st, ty, lk, key, u.relations);
        }
      }
    }
  }

  /** Two ids that end in `-` and two different numerals differ. */
  lemma NumberedDistinct(a: string, m: nat, n: nat)
    requires EndsWith(a, "-ev-" + StringifyId(m)) && EndsWith(a, "-ev-" + StringifyId(n))
    ensures m == n
  {
    var s, t := StringifyId(m), StringifyId(n);
    StringifyIdValue(m);
    StringifyIdValue(n);
    if |s| < |t| {
      SuffixDash(a, s, t);
    } else if |t| < |s| {
      SuffixDash(a, t, s);
    } else {
      SameSuffix(a, "-ev-" + s, "-ev-" + t);
      CommonPrefix("-ev-", s, t);
      StringifyIdInjective(m, n);
    }
  }

  lemma SameSuffix(a: string, x: string, y: string)
    requires EndsWith(a, x) && EndsWith(a, y) && |x| == |y|
    ensures x == y
  {
  }

  /** Of two suffixes `-s` and `-t` of one string, the longer `t` has a dash where the shorter ends. */
  lemma SuffixDash(a: string, s: string, t: string)
    requires EndsWith(a, "-ev-" + s) && EndsWith(a, "-ev-" + t) && |s| < |t|
    ensures t[|t| - |s| - 1] == '-'
  {
    var ds, dt := "-ev-" + s, "-ev-" + t;
    assert a[|a| - |s| - 1] == ds[|ds| - |s| - 1];
    assert a[|a| - |s| - 1] == dt[|dt| - |s| - 1];
  }

  // ---- the whole conversion ----

  /** The parts of the IDM document this model produces. */
  datatype Idm = Idm(entities: seq<IdmEntity>, events: seq<IdmEvent>, eventKinds: seq<VocabEntry>, roles: seq<VocabEntry>)

  /** The IDM document built from the unified entities. */
  function BuildIdm(lastname: string, unified: Dict<string, Unified>, nlp2univ: map<string, string>): (r: Result<(Typing, EventState)>)
    requires unified.Valid()
    ensures r.Ok? ==> Wellformed(r.value.1)
  {
    match TypeAll(lastname, unified, |unified.keys|)
    case Err(e) => Err(e)
    case Ok(ty) =>
      TypeAllInv(lastname, unified, |unified.keys|);
      match AllEvents(InitialEvents(ty), Lookups(lastname, ty.univ2idm, ty.idm2univ, nlp2univ), unified, |unified.keys|)
      case Err(e) => Err(e)
      case Ok(st) => Ok((ty, st))
  }

  function ToIdm(st: EventState): Idm
    requires Wellformed(st)
  {
    Idm(st.entities.Values(), st.events, st.eventVocab.Values(), st.roleVocab.Values())
  }

  /**
   * Every event of a successful conversion has a distinct id numbered by
   * its position, every role reference an entity carries names one of the events,
   * each event's object is an IDM entity and so is its subject whenever
   * it is set, and the entities are the typed ones with their ids kept.
   */
  lemma BuildIdmSpec(lastname: string, unified: Dict<string, Unified>, nlp2univ: map<string, string>)
    requires unified.Valid()
    requires BuildIdm(lastname, unified, nlp2univ).Ok?
    ensures var (ty, st) := BuildIdm(lastname, unified, nlp2univ).value;
      && EventInv(st, ty)
      && (forall i, j :: 0 <= i < j < |st.events| ==> st.events[i].id != st.events[j].id)
  {
    var ty := TypeAll(lastname, unified, |unified.keys|).value;
    TypeAllInv(lastname, unified, |unified.keys|);
    var lk := Lookups(lastname, ty.univ2idm, ty.idm2univ, nlp2univ);
    var st0 := InitialEvents(ty);
    assert EventIds(st0.events) == {};
    AllEventsInv(st0, ty, lk, unified, |unified.keys|);
    var st := AllEvents(st0, lk, unified, |unified.keys|).value;
    NumberedIdsDistinct(st.events);
  }

  /**
   * A successful conversion makes exactly one event per creation event and
   * per relation whose object is an IDM entity, counted over the typed
   * entities in order.
   */
  lemma BuildIdmEventCount(lastname: string, unified: Dict<string, Unified>, nlp2univ: map<string, string>)
    requires unified.Valid()
    requires BuildIdm(lastname, unified, nlp2univ).Ok?
    ensures var (ty, st) := BuildIdm(lastname, unified, nlp2univ).value;
      |st.events| == AllEventCount(Lookups(lastname, ty.univ2idm, ty.idm2univ, nlp2univ), ty.entities.entries.Keys, unified, |unified.keys|)
  {
    var ty := TypeAll(lastname, unified, |unified.keys|).value;
    var lk := Lookups(lastname, ty.univ2idm, ty.idm2univ, nlp2univ);
    AllEventsCount(InitialEvents(ty), lk, unified, |unified.keys|);
  }

  /** Events numbered by their position have pairwise distinct ids. */
  lemma NumberedIdsDistinct(events: seq<IdmEvent>)
    requires Numbered(events)
    ensures forall i, j :: 0 <= i < j < |events| ==> events[i].id != events[j].id
  {
    forall i, j | 0 <= i < j < |events| ensures events[i].id != events[j].id {
      if events[i].id == events[j].id {
        NumberedDistinct(events[i].id, i + 1, j + 1);
      }
    }
  }

  /** `person_name.split("_")[-1]` of `os.path.basename(nlp_path).split(".")[0]` */
  function Lastname(nlpPath: string): string
  {
    var parts := Split(nlpPath, '/');
    var base := parts[|parts| - 1];
    var name := Split(base, '.')[0];
    var words := Split(name, '_');
    words[|words| - 1]
  }

  /**
   * `convert_nlp_to_idm_json` from the NLP layers to the IDM document:
   * universal index, unification, typing and events. The Wikipedia links
   * of the article are a parameter.
   */
  function ConvertNlpToIdm(nlpPath: string, data: NlpData, wikiLinked: map<string, string>): Result<Idm>
    requires data.coreference.Valid()
  {
    match UniversalIndex(data)
    case Err(e) => Err(e)
    case Ok(index) =>
      match Unify(index, data.coreference, wikiLinked)
      case Err(e) => Err(e)
      case Ok(us) =>
        match BuildIdm(Lastname(nlpPath), us.unified, us.nlp2univ)
        case Err(e) => Err(e)
        case Ok(p) => Ok(ToIdm(p.1))
  }
}
