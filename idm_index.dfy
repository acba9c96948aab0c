/**
 * The universal span index of `convert_nlp_to_idm_json`
 * (english/nlp_to_idm_json.py): the entity, relation, entity-link and
 * coreference layers of one document are folded, in that order, into one
 * record per character span, keyed by the string `"<start>_<end>"`.
 *
 * A record that an entity created carries the entity fields; a span that
 * only a link or a coreference mention touched carries just the fields
 * those layers write. The two kinds are the two constructors of
 * `UnivRecord`, so a missing field is a missing constructor rather than a
 * missing dictionary key.
 */
module IdmIndex {
  import opened Common
  import opened PyDict

  /** An item of the `entities` layer. */
  datatype EntityIn = EntityIn(id: string, sentenceId: int, locationStart: nat, locationEnd: nat,
                               surfaceForm: string, category: string)

  /** An item of the `relations` layer; an endpoint the extractor could not resolve is `None`. */
  datatype Relation = Relation(relationId: string, subjectId: Option<string>, objectId: Option<string>,
                               surfaceFormSubj: string, relationValue: string, surfaceFormObj: string)

  /** An item of the `linked_entities` layer. */
  datatype LinkIn = LinkIn(locationStart: nat, locationEnd: nat, wikiUrl: string)

  /** A mention of a coreference cluster. */
  datatype CorefItem = CorefItem(locationStart: nat, locationEnd: nat, surfaceForm: string)

  /**
   * The layers of `nlp_dict["data"]`. A missing `relations`, `linked_entities`
   * or `coreference` layer reads as an empty one, which is what `.get(…, [])`
   * and the guards on `"coreference"` amount to.
   */
  datatype NlpData = NlpData(entities: seq<EntityIn>, relations: seq<Relation>, links: seq<LinkIn>,
                             coreference: Dict<string, seq<CorefItem>>)

  datatype UnivRecord =
    | /** A span some entity starts: `nlp_id`, `sent_id`, offsets, `surfaceForm`, `ner`, `relations`, `cluster_id` and maybe `wiki_link`. */
      EntityRecord(nlpId: string, sentId: int, locationStart: nat, locationEnd: nat, surfaceForm: string,
                   ner: seq<string>, relations: seq<Relation>, clusterId: int, wikiLink: Option<string>)
    | /** A span only the link or coreference layers touched. */
      SpanRecord(mentionForm: Option<string>, mentionCluster: Option<int>, wikiLink: Option<string>)

  type Index = Dict<string, UnivRecord>

  /** `f"{start}_{end}"` */
  function SpanKey(start: nat, end: nat): string
  {
    NatToStr(start) + "_" + NatToStr(end)
  }

  /** Two spans share a key only when they are the same span. */
  lemma SpanKeyInjective(s1: nat, e1: nat, s2: nat, e2: nat)
    requires SpanKey(s1, e1) == SpanKey(s2, e2)
    ensures s1 == s2 && e1 == e2
  {
    DigitsPrefixUnique(NatToStr(s1), NatToStr(e1), NatToStr(s2), NatToStr(e2), '_');
    NatToStrInjective(s1, s2);
    NatToStrInjective(e1, e2);
  }

  function EntityKey(e: EntityIn): string
  {
    SpanKey(e.locationStart, e.locationEnd)
  }

  // ---- the entity layer ----

  /** The record an entity opens on a span nobody has seen. */
  function NewRecord(e: EntityIn): UnivRecord
  {
    EntityRecord(e.id, e.sentenceId, e.locationStart, e.locationEnd, e.surfaceForm, [e.category], [], -1, None)
  }

  ghost predicate EntityRecords(d: Index)
  {
    forall k :: k in d.entries ==> d.entries[k].EntityRecord?
  }

  /** `universal_dict` and `entity_dict` while the entity layer is folded in. */
  datatype EntityFold = EntityFold(index: Index, byId: map<string, EntityIn>)

  /** One entity: a known span only gains a vote, a new span gets a fresh record; `entity_dict` keeps the last entity per ID. */
  function EntityStep(st: EntityFold, e: EntityIn): (st': EntityFold)
    requires EntityRecords(st.index)
    ensures EntityRecords(st'.index)
  {
    var key := EntityKey(e);
    var index := if key in st.index.entries then
        var r := st.index.entries[key];
        st.index.Put(key, r.(ner := r.ner + [e.category]))
      else st.index.Put(key, NewRecord(e));
    EntityFold(index, st.byId[e.id := e])
  }

  function AddEntities(es: seq<EntityIn>): (st: EntityFold)
    ensures EntityRecords(st.index)
  {
    if es == [] then EntityFold(Empty(), map[]) else EntityStep(AddEntities(es[..|es| - 1]), es[|es| - 1])
  }

  /** The span keys of the entities, in order. */
  function EntityKeys(es: seq<EntityIn>): (ks: seq<string>)
    ensures |ks| == |es| && forall i :: 0 <= i < |es| ==> ks[i] == EntityKey(es[i])
  {
    seq(|es|, i requires 0 <= i < |es| => EntityKey(es[i]))
  }

  /** The categories of the entities on span `key`, in order. */
  function CategoriesAt(es: seq<EntityIn>, key: string): seq<string>
  {
    if es == [] then []
    else CategoriesAt(es[..|es| - 1], key) + (if EntityKey(es[|es| - 1]) == key then [es[|es| - 1].category] else [])
  }

  /** What the entity layer leaves on span `key`: the first entity there and every entity's vote. */
  predicate FoldedAt(es: seq<EntityIn>, key: string, r: UnivRecord)
    requires key in EntityKeys(es)
  {
    var e := es[FirstIndex(EntityKeys(es), key)];
    r == EntityRecord(e.id, e.sentenceId, e.locationStart, e.locationEnd, e.surfaceForm, CategoriesAt(es, key), [], -1, None)
  }

  /** The index part of the entity layer, one record per distinct span. */
  ghost predicate IndexFolded(es: seq<EntityIn>, d: Index)
  {
    && d.Valid()
    && (forall key :: key in d.entries <==> key in EntityKeys(es))
    && (forall key :: key in d.entries ==> FoldedAt(es, key, d.entries[key]))
  }

  /** The `entity_dict` part: every ID is known and maps to an entity carrying it. */
  ghost predicate ByIdFolded(es: seq<EntityIn>, byId: map<string, EntityIn>)
  {
    && (forall i :: 0 <= i < |es| ==> es[i].id in byId)
    && (forall id :: id in byId ==> byId[id] in es && byId[id].id == id)
  }

  /**
   * After the entity layer there is one record per distinct span, keyed in
   * first-occurrence order; it keeps the first entity's ID, sentence,
   * offsets and surface form, holds every entity's category in order, no
   * relations and cluster -1. `entity_dict` knows every ID.
   */
  lemma {:induction false} AddEntitiesSpec(es: seq<EntityIn>)
    ensures IndexFolded(es, AddEntities(es).index)
    ensures ByIdFolded(es, AddEntities(es).byId)
  {
    if es != [] {
      var init, e := es[..|es| - 1], es[|es| - 1];
      ButLast(es);
      AddEntitiesSpec(init);
      EntityStepIndex(init, e, AddEntities(init).index);
      EntityStepById(init, e, AddEntities(init).byId);
    }
  }

  lemma EntityStepById(init: seq<EntityIn>, e: EntityIn, byId: map<string, EntityIn>)
    requires ByIdFolded(init, byId)
    ensures ByIdFolded(init + [e], byId[e.id := e])
  {
    var es := init + [e];
    forall i | 0 <= i < |es| ensures es[i].id in byId[e.id := e] {
      if i < |init| { assert init[i] == es[i]; }
    }
    var m := byId[e.id := e];
    forall id | id in m ensures m[id] in es {
      if id != e.id { assert byId[id] in init; }
    }
  }

  lemma EntityStepIndex(init: seq<EntityIn>, e: EntityIn, d: Index)
    requires IndexFolded(init, d) && EntityRecords(d)
    ensures IndexFolded(init + [e], EntityStep(EntityFold(d, map[]), e).index)
  {
    var es := init + [e];
    assert es[..|es| - 1] == init;
    var d' := EntityStep(EntityFold(d, map[]), e).index;
    var ks0, ks := EntityKeys(init), EntityKeys(es);
    assert ks == ks0 + [EntityKey(e)];
    forall key | key in d'.entries ensures FoldedAt(es, key, d'.entries[key]) {
      FoldedStep(init, e, key, d, d');
    }
  }

  lemma FoldedStep(init: seq<EntityIn>, e: EntityIn, key: string, d: Index, d': Index)
    requires IndexFolded(init, d) && EntityRecords(d)
    requires d' == EntityStep(EntityFold(d, map[]), e).index
    requires key in d'.entries
    ensures key in EntityKeys(init + [e]) && FoldedAt(init + [e], key, d'.entries[key])
  {
    EntitySnoc(init, e, key);
    if key in EntityKeys(init) {
      var r := d.entries[key];
      assert d'.entries[key] == if key == EntityKey(e) then r.(ner := r.ner + [e.category]) else r;
      FoldedKnown(init, e, key, r);
    } else {
      assert key == EntityKey(e);
      assert d'.entries[key] == NewRecord(e);
      FoldedNew(init, e);
    }
  }

  /** A span seen before keeps its first entity and gains the new vote when the entity is on it. */
  lemma FoldedKnown(init: seq<EntityIn>, e: EntityIn, key: string, r: UnivRecord)
    requires key in EntityKeys(init) && FoldedAt(init, key, r)
    ensures key in EntityKeys(init + [e])
    ensures FoldedAt(init + [e], key, if key == EntityKey(e) then r.(ner := r.ner + [e.category]) else r)
  {
    var es := init + [e];
    var ks0 := EntityKeys(init);
    EntitySnoc(init, e, key);
    FirstIndexSnoc(ks0, EntityKey(e), key);
    var f := FirstIndex(ks0, key);
    assert es[f] == init[f];
  }

  /** A span first seen now gets the entity's own record. */
  lemma FoldedNew(init: seq<EntityIn>, e: EntityIn)
    requires EntityKey(e) !in EntityKeys(init)
    ensures EntityKey(e) in EntityKeys(init + [e]) && FoldedAt(init + [e], EntityKey(e), NewRecord(e))
  {
    var key, es := EntityKey(e), init + [e];
    EntitySnoc(init, e, key);
    FirstIndexNew(EntityKeys(init), key);
    assert es[|init|] == e;
    CategoriesAbsent(init, key);
    assert CategoriesAt(es, key) == [e.category];
  }

  /** The span keys and the votes on `key` after one more entity. */
  lemma EntitySnoc(init: seq<EntityIn>, e: EntityIn, key: string)
    ensures EntityKeys(init + [e]) == EntityKeys(init) + [EntityKey(e)]
    ensures CategoriesAt(init + [e], key) == CategoriesAt(init, key) + (if EntityKey(e) == key then [e.category] else [])
  {
    var es := init + [e];
    assert es[..|es| - 1] == init;
  }

  /** A span no entity starts collects no votes. */
  lemma {:induction false} CategoriesAbsent(es: seq<EntityIn>, key: string)
    requires key !in EntityKeys(es)
    ensures CategoriesAt(es, key) == []
  {
    if es != [] {
      assert EntityKeys(es[..|es| - 1]) == EntityKeys(es)[..|es| - 1];
      CategoriesAbsent(es[..|es| - 1], key);
    }
  }

  /** The entity loop, as written: `universal_dict` and `entity_dict` filled in one pass. */
  method FoldEntities(es: seq<EntityIn>) returns (index: Index, byId: map<string, EntityIn>)
    ensures EntityFold(index, byId) == AddEntities(es)
  {
    index, byId := Empty(), map[];
    var n := 0;
    while n < |es|
      invariant n <= |es|
      invariant EntityFold(index, byId) == AddEntities(es[..n])
    {
      assert es[..n + 1][..n] == es[..n];
      var e := es[n];
      var key := EntityKey(e);
      if key in index.entries {
        var r := index.entries[key];
        index := index.Put(key, r.(ner := r.ner + [e.category]));
      } else {
        index := index.Put(key, NewRecord(e));
      }
      byId := byId[e.id := e];
      n := n + 1;
    }
    assert es[..n] == es;
  }

  // ---- the relation layer ----

  /** Every ID `entity_dict` knows points at a span that holds an entity record. */
  ghost predicate Registered(d: Index, byId: map<string, EntityIn>)
  {
    EntityRecords(d) && forall id :: id in byId ==> EntityKey(byId[id]) in d.entries
  }

  /** `universal_dict[key]["relations"].append(relation)` */
  function AddRelationAt(d: Index, key: string, r: Relation): (d': Index)
    requires key in d.entries && d.entries[key].EntityRecord?
    ensures d'.keys == d.keys && (d.Valid() ==> d'.Valid())
  {
    d.Put(key, d.entries[key].(relations := d.entries[key].relations + [r]))
  }

  /** Both endpoints must be IDs `entity_dict` knows (`entity_dict.get(None)` finds nothing). */
  predicate Resolvable(byId: map<string, EntityIn>, r: Relation)
  {
    r.subjectId.Some? && r.objectId.Some? && r.subjectId.value in byId && r.objectId.value in byId
  }

  /** One relation: appended to the subject's record and then to the object's, or ignored. */
  function RelationStep(d: Index, byId: map<string, EntityIn>, r: Relation): (d': Index)
    requires Registered(d, byId)
    ensures Registered(d', byId) && d'.keys == d.keys && (d.Valid() ==> d'.Valid())
  {
    if Resolvable(byId, r) then
      var d1 := AddRelationAt(d, EntityKey(byId[r.subjectId.value]), r);
      AddRelationAt(d1, EntityKey(byId[r.objectId.value]), r)
    else d
  }

  function AddRelations(d: Index, byId: map<string, EntityIn>, rs: seq<Relation>): (d': Index)
    requires Registered(d, byId)
    ensures Registered(d', byId) && d'.keys == d.keys && (d.Valid() ==> d'.Valid())
  {
    if rs == [] then d else RelationStep(AddRelations(d, byId, rs[..|rs| - 1]), byId, rs[|rs| - 1])
  }

  /** How many of the two endpoints of `r` sit on span `key`. */
  function EndpointsAt(byId: map<string, EntityIn>, r: Relation, key: string): nat
    requires Resolvable(byId, r)
  {
    (if EntityKey(byId[r.subjectId.value]) == key then 1 else 0) + (if EntityKey(byId[r.objectId.value]) == key then 1 else 0)
  }

  function Copies<T>(x: T, n: nat): (s: seq<T>)
    ensures |s| == n && forall i :: 0 <= i < n ==> s[i] == x
  {
    if n == 0 then [] else [x] + Copies(x, n - 1)
  }

  /**
   * A relation whose two endpoints are known IDs is appended whole to the
   * record of each endpoint's span (twice to a span holding both) and
   * nothing else changes; any other relation changes nothing at all.
   */
  lemma RelationStepSpec(d: Index, byId: map<string, EntityIn>, r: Relation)
    requires Registered(d, byId)
    ensures var d' := RelationStep(d, byId, r);
      && (!Resolvable(byId, r) ==> d' == d)
      && (Resolvable(byId, r) ==> forall key :: key in d.entries ==>
            d'.entries[key] == d.entries[key].(relations := d.entries[key].relations + Copies(r, EndpointsAt(byId, r, key))))
  {
    if Resolvable(byId, r) {
      var ks, ko := EntityKey(byId[r.subjectId.value]), EntityKey(byId[r.objectId.value]);
      var d1 := AddRelationAt(d, ks, r);
      forall key | key in d.entries
        ensures RelationStep(d, byId, r).entries[key] == d.entries[key].(relations := d.entries[key].relations + Copies(r, EndpointsAt(byId, r, key)))
      {
        var rec := d.entries[key];
        if key == ks && key == ko {
          assert Copies(r, 2) == [r] + [r];
          assert rec.relations + [r] + [r] == rec.relations + Copies(r, 2);
        } else if key != ks && key != ko {
          assert rec.relations + Copies(r, 0) == rec.relations;
        }
      }
    }
  }

  /** The relation loop, as written. */
  method FoldRelations(d0: Index, byId: map<string, EntityIn>, rs: seq<Relation>) returns (d: Index)
    requires Registered(d0, byId)
    ensures d == AddRelations(d0, byId, rs)
  {
    d := d0;
    var n := 0;
    while n < |rs|
      invariant n <= |rs|
      invariant d == AddRelations(d0, byId, rs[..n])
    {
      assert rs[..n + 1][..n] == rs[..n];
      var r := rs[n];
      if r.subjectId.Some? && r.objectId.Some? && r.subjectId.value in byId && r.objectId.value in byId {
        var key := EntityKey(byId[r.subjectId.value]);
        d := d.Put(key, d.entries[key].(relations := d.entries[key].relations + [r]));
        key := EntityKey(byId[r.objectId.value]);
        d := d.Put(key, d.entries[key].(relations := d.entries[key].relations + [r]));
      }
      n := n + 1;
    }
    assert rs[..n] == rs;
  }

  // ---- the link layer ----

  /** A link overwrites the `wiki_link` of a known span or opens a link-only record. */
  function LinkStep(d: Index, l: LinkIn): (d': Index)
    ensures d.Valid() ==> d'.Valid()
  {
    var key := SpanKey(l.locationStart, l.locationEnd);
    if key in d.entries then d.Put(key, d.entries[key].(wikiLink := Some(l.wikiUrl)))
    else d.Put(key, SpanRecord(None, None, Some(l.wikiUrl)))
  }

  function AddLinks(d: Index, ls: seq<LinkIn>): (d': Index)
    ensures d.Valid() ==> d'.Valid()
  {
    if ls == [] then d else LinkStep(AddLinks(d, ls[..|ls| - 1]), ls[|ls| - 1])
  }

  /** Every linked span ends up with a record whose link is the last link given for that span. */
  lemma {:induction false} AddLinksLastWins(d: Index, ls: seq<LinkIn>, i: nat)
    requires i < |ls|
    requires forall j :: i < j < |ls| ==> SpanKey(ls[j].locationStart, ls[j].locationEnd) != SpanKey(ls[i].locationStart, ls[i].locationEnd)
    ensures var key := SpanKey(ls[i].locationStart, ls[i].locationEnd);
      key in AddLinks(d, ls).entries && AddLinks(d, ls).entries[key].wikiLink == Some(ls[i].wikiUrl)
  {
    if i < |ls| - 1 {
      AddLinksLastWins(d, ls[..|ls| - 1], i);
    }
  }

  method FoldLinks(d0: Index, ls: seq<LinkIn>) returns (d: Index)
    ensures d == AddLinks(d0, ls)
  {
    d := d0;
    var n := 0;
    while n < |ls|
      invariant n <= |ls|
      invariant d == AddLinks(d0, ls[..n])
    {
      assert ls[..n + 1][..n] == ls[..n];
      var key := SpanKey(ls[n].locationStart, ls[n].locationEnd);
      if key in d.entries {
        d := d.Put(key, d.entries[key].(wikiLink := Some(ls[n].wikiUrl)));
      } else {
        d := d.Put(key, SpanRecord(None, None, Some(ls[n].wikiUrl)));
      }
      n := n + 1;
    }
    assert ls[..n] == ls;
  }

  // ---- the coreference layer ----

  /** A mention of cluster `cid` overwrites `cluster_id` and `surfaceForm` of its span, or opens a mention-only record. */
  function MentionStep(d: Index, cid: int, item: CorefItem): (d': Index)
    ensures d.Valid() ==> d'.Valid()
  {
    var key := SpanKey(item.locationStart, item.locationEnd);
    if key !in d.entries then d.Put(key, SpanRecord(Some(item.surfaceForm), Some(cid), None))
    else match d.entries[key]
      case EntityRecord(_, _, _, _, _, _, _, _, _) => d.Put(key, d.entries[key].(clusterId := cid, surfaceForm := item.surfaceForm))
      case SpanRecord(_, _, link) => d.Put(key, SpanRecord(Some(item.surfaceForm), Some(cid), link))
  }

  function AddMentions(d: Index, cid: int, items: seq<CorefItem>): (d': Index)
    ensures d.Valid() ==> d'.Valid()
  {
    if items == [] then d else MentionStep(AddMentions(d, cid, items[..|items| - 1]), cid, items[|items| - 1])
  }

  /**
   * The mentions of one cluster. `int(cl_id)` is evaluated once per
   * mention, so a cluster name that is not a number fails only when the
   * cluster has mentions.
   */
  function ClusterStep(d: Index, clId: string, items: seq<CorefItem>): (r: Result<Index>)
    ensures r.Ok? && d.Valid() ==> r.value.Valid()
  {
    if items == [] then Ok(d)
    else match ParseInt(clId)
      case Err(e) => Err(e)
      case Ok(cid) => Ok(AddMentions(d, cid, items))
  }

  /** The clusters in the order of the coreference dictionary. */
  function AddCoref(d: Index, clusters: Dict<string, seq<CorefItem>>, n: nat): (r: Result<Index>)
    requires n <= |clusters.keys| && clusters.Valid()
    ensures r.Ok? && d.Valid() ==> r.value.Valid()
  {
    if n == 0 then Ok(d)
    else match AddCoref(d, clusters, n - 1)
      case Err(e) => Err(e)
      case Ok(d1) => ClusterStep(d1, clusters.keys[n - 1], clusters.entries[clusters.keys[n - 1]])
  }

  method FoldCluster(d0: Index, clId: string, items: seq<CorefItem>) returns (r: Result<Index>)
    ensures r == ClusterStep(d0, clId, items)
  {
    var d := d0;
    var n := 0;
    while n < |items|
      invariant n <= |items|
      invariant n > 0 ==> ParseInt(clId).Ok? && d == AddMentions(d0, ParseInt(clId).value, items[..n])
      invariant n == 0 ==> d == d0
    {
      assert items[..n + 1][..n] == items[..n];
      var cid := ParseInt(clId);
      if cid.Err? {
        return Err(cid.error);
      }
      d := MentionStep(d, cid.value, items[n]);
      n := n + 1;
    }
    assert items[..n] == items;
    r := Ok(d);
  }

  /** Once a cluster fails, the rest of the dictionary is never reached. */
  lemma {:induction false} AddCorefErrStays(d: Index, clusters: Dict<string, seq<CorefItem>>, n: nat, m: nat)
    requires n <= m <= |clusters.keys| && clusters.Valid()
    requires AddCoref(d, clusters, n).Err?
    ensures AddCoref(d, clusters, m) == AddCoref(d, clusters, n)
  {
    if m > n {
      AddCorefErrStays(d, clusters, n, m - 1);
    }
  }

  lemma AddCorefStep(d0: Index, clusters: Dict<string, seq<CorefItem>>, n: nat, d: Index)
    requires n < |clusters.keys| && clusters.Valid() && AddCoref(d0, clusters, n) == Ok(d)
    ensures AddCoref(d0, clusters, n + 1) == ClusterStep(d, clusters.keys[n], clusters.entries[clusters.keys[n]])
  {
  }

  method FoldCoref(d0: Index, clusters: Dict<string, seq<CorefItem>>) returns (r: Result<Index>)
    requires clusters.Valid()
    ensures r == AddCoref(d0, clusters, |clusters.keys|)
  {
    var d := d0;
    var n := 0;
    while n < |clusters.keys|
      invariant n <= |clusters.keys|
      invariant AddCoref(d0, clusters, n) == Ok(d)
    {
      AddCorefStep(d0, clusters, n, d);
      var c := FoldCluster(d, clusters.keys[n], clusters.entries[clusters.keys[n]]);
      if c.Err? {
        AddCorefErrStays(d0, clusters, n + 1, |clusters.keys|);
        return c;
      }
      d := c.value;
      n := n + 1;
    }
    r := Ok(d);
  }

  // ---- the whole index ----

  /** `universal_dict` after all four layers, or the ValueError of a cluster name that is not a number. */
  function UniversalIndex(data: NlpData): (r: Result<Index>)
    requires data.coreference.Valid()
    ensures r.Ok? ==> r.value.Valid()
  {
    var st := AddEntities(data.entities);
    AddEntitiesSpec(data.entities);
    var d := AddRelations(st.index, st.byId, data.relations);
    AddCoref(AddLinks(d, data.links), data.coreference, |data.coreference.keys|)
  }

  /** The layers in order, as `convert_nlp_to_idm_json` folds them. */
  method BuildUniversalIndex(data: NlpData) returns (r: Result<Index>, byId: map<string, EntityIn>)
    requires data.coreference.Valid()
    ensures r == UniversalIndex(data)
    ensures byId == AddEntities(data.entities).byId
  {
    var index;
    index, byId := FoldEntities(data.entities);
    AddEntitiesSpec(data.entities);
    index := FoldRelations(index, byId, data.relations);
    index := FoldLinks(index, data.links);
    r := FoldCoref(index, data.coreference);
  }

  // ---- what later stages rely on ----

  /** The later layers only add spans: keys stay distinct and in place. */
  lemma {:induction false} AddLinksGrows(d: Index, ls: seq<LinkIn>)
    requires d.Valid()
    ensures AddLinks(d, ls).Valid() && d.keys <= AddLinks(d, ls).keys
  {
    if ls != [] {
      AddLinksGrows(d, ls[..|ls| - 1]);
    }
  }

  /** Records the link and coreference layers find keep their entity fields apart from `cluster_id`, `surfaceForm` and `wiki_link`. */
  predicate SameEntity(a: UnivRecord, b: UnivRecord)
  {
    a.EntityRecord? ==> b.EntityRecord? && a.nlpId == b.nlpId && a.ner == b.ner && a.relations == b.relations
  }

  lemma {:induction false} AddMentionsKeeps(d: Index, cid: int, items: seq<CorefItem>)
    ensures var d' := AddMentions(d, cid, items);
      forall k :: k in d.entries ==> k in d'.entries && SameEntity(d.entries[k], d'.entries[k])
  {
    if items != [] {
      AddMentionsKeeps(d, cid, items[..|items| - 1]);
    }
  }

  lemma ClusterStepKeeps(d: Index, clId: string, items: seq<CorefItem>)
    requires ClusterStep(d, clId, items).Ok?
    ensures var d' := ClusterStep(d, clId, items).value;
      forall k :: k in d.entries ==> k in d'.entries && SameEntity(d.entries[k], d'.entries[k])
  {
    if items != [] {
      AddMentionsKeeps(d, ParseInt(clId).value, items);
    }
  }

  lemma {:induction false} AddCorefKeeps(d: Index, clusters: Dict<string, seq<CorefItem>>, n: nat)
    requires n <= |clusters.keys| && clusters.Valid()
    requires AddCoref(d, clusters, n).Ok?
    ensures var d' := AddCoref(d, clusters, n).value;
      forall k :: k in d.entries ==> k in d'.entries && SameEntity(d.entries[k], d'.entries[k])
  {
    if n > 0 {
      AddCorefKeeps(d, clusters, n - 1);
      var d1 := AddCoref(d, clusters, n - 1).value;
      ClusterStepKeeps(d1, clusters.keys[n - 1], clusters.entries[clusters.keys[n - 1]]);
    }
  }

  /**
   * A coreference mention on a known span hands that span's record its
   * cluster, whatever the record is; the rest of an entity record stays.
   */
  lemma MentionStepSpec(d: Index, cid: int, item: CorefItem)
    ensures var key := SpanKey(item.locationStart, item.locationEnd);
      var d' := MentionStep(d, cid, item);
      && key in d'.entries
      && (d'.entries[key].EntityRecord? ==> d'.entries[key].clusterId == cid && d'.entries[key].surfaceForm == item.surfaceForm)
      && (d'.entries[key].SpanRecord? ==> d'.entries[key].mentionCluster == Some(cid) && d'.entries[key].mentionForm == Some(item.surfaceForm))
      && (key in d.entries ==> SameEntity(d.entries[key], d'.entries[key]) && d'.entries[key].wikiLink == d.entries[key].wikiLink)
      && (key !in d.entries ==> d'.entries[key].SpanRecord?)
      && forall k :: k in d.entries && k != key ==> d'.entries[k] == d.entries[k]
  {
  }
}
