/**
 * Entity unification of english/nlp_to_idm_json.py: the spans of the
 * universal index are grouped into unified entities `ent_<n>`, first by
 * coreference cluster (`create_unified_universal_dict`) and then, for the
 * entities no cluster mentions, by exact surface form or as singletons
 * (the fallback loop of `convert_nlp_to_idm_json`).
 */
module IdmUnify {
  import opened Common
  import opened PyDict
  import opened IdmIndex

  /** An entry of `unified_universal_dict`. */
  datatype Unified = Unified(nlpIds: seq<string>, spans: seq<string>, surfaceForms: seq<string>,
                             ner: seq<string>, relations: seq<Relation>, wikiLinks: seq<Option<string>>)

  /** `f"ent_{n}"` */
  function EntKey(n: int): string
  {
    "ent_" + IntToStr(n)
  }

  lemma EntKeyInjective(i: int, j: int)
    requires EntKey(i) == EntKey(j)
    ensures i == j
  {
    assert IntToStr(i) == EntKey(i)[4..];
    IntToStrInjective(i, j);
  }

  // ---- appending without duplicates ----

  /** `if x not in xs: xs.append(x)` */
  function AppendAbsent<T(==)>(xs: seq<T>, x: T): seq<T>
  {
    if x in xs then xs else xs + [x]
  }

  /** `for y in ys: if y not in xs: xs.append(y)`; a value repeated in `ys` is added once. */
  function AppendAllAbsent<T(==)>(xs: seq<T>, ys: seq<T>): seq<T>
  {
    if ys == [] then xs else AppendAbsent(AppendAllAbsent(xs, ys[..|ys| - 1]), ys[|ys| - 1])
  }

  /**
   * Adding the absent values of `ys` keeps `xs` in front, adds every value
   * of `ys` and nothing else, and adds no duplicate.
   */
  lemma {:induction false} AppendAllAbsentSpec<T>(xs: seq<T>, ys: seq<T>)
    ensures var r := AppendAllAbsent(xs, ys);
      && xs <= r
      && (forall y :: y in ys ==> y in r)
      && (forall z :: z in r ==> z in xs || z in ys)
      && (NoDuplicates(xs) ==> NoDuplicates(r))
  {
    if ys != [] {
      var init := ys[..|ys| - 1];
      AppendAllAbsentSpec(xs, init);
      var r0 := AppendAllAbsent(xs, init);
      forall y | y in ys ensures y in AppendAllAbsent(xs, ys) {
        if y != ys[|ys| - 1] {
          assert y in init;
        }
      }
    }
  }

  /** Values that are all present already change nothing. */
  lemma {:induction false} AppendAllPresent<T>(xs: seq<T>, ys: seq<T>)
    requires forall y :: y in ys ==> y in xs
    ensures AppendAllAbsent(xs, ys) == xs
  {
    if ys != [] {
      AppendAllPresent(xs, ys[..|ys| - 1]);
    }
  }

  // ---- the coreference pass ----

  /** A fresh unified entity made of one entity record. */
  function Seed(span: string, r: UnivRecord): Unified
    requires r.EntityRecord?
  {
    Unified([r.nlpId], [span], [r.surfaceForm], r.ner, r.relations, [r.wikiLink])
  }

  /** A further record of a cluster: every list gains only what it does not hold, the link only when it is set. */
  function Merge(u: Unified, span: string, r: UnivRecord): Unified
    requires r.EntityRecord?
  {
    Unified(AppendAbsent(u.nlpIds, r.nlpId), AppendAbsent(u.spans, span), AppendAbsent(u.surfaceForms, r.surfaceForm),
            AppendAllAbsent(u.ner, r.ner), AppendAllAbsent(u.relations, r.relations),
            if Truthy(r.wikiLink) && r.wikiLink !in u.wikiLinks then u.wikiLinks + [r.wikiLink] else u.wikiLinks)
  }

  /** Merging the same record twice is merging it once. */
  lemma MergeIdempotent(u: Unified, span: string, r: UnivRecord)
    requires r.EntityRecord?
    ensures Merge(Merge(u, span, r), span, r) == Merge(u, span, r)
  {
    AppendAllAbsentSpec(u.ner, r.ner);
    AppendAllPresent(AppendAllAbsent(u.ner, r.ner), r.ner);
    AppendAllAbsentSpec(u.relations, r.relations);
    AppendAllPresent(AppendAllAbsent(u.relations, r.relations), r.relations);
  }

  /** The values `create_unified_universal_dict` returns, threaded through both loops. */
  datatype UnifyState = UnifyState(unified: Dict<string, Unified>, clustered: set<string>, nlp2univ: map<string, string>,
                                   singletonIds: int, sf2univ: map<string, string>)

  /** The state before the first mention: singleton numbers start after the cluster count. */
  function Initial(coref: Dict<string, seq<CorefItem>>): UnifyState
  {
    UnifyState(Empty(), {}, map[], |coref.keys| + 1, map[])
  }

  /**
   * One coreference mention. Only a mention whose span holds an entity
   * record counts. A record with a cluster id joins `ent_<cluster+1>`; a
   * record without one (a negative id) becomes a singleton. Either way its
   * entity counts as clustered and its surface form is registered under
   * `ent_<cluster+1>`, which for a negative id is a key no entry has.
   */
  function MentionStep(st: UnifyState, index: Index, item: CorefItem): UnifyState
  {
    var span := SpanKey(item.locationStart, item.locationEnd);
    if span in index.entries && index.entries[span].EntityRecord? then
      var r := index.entries[span];
      var k := Target(st, r);
      UnifyState(st.unified.Put(k, Joined(st, span, r)), st.clustered + {r.nlpId}, st.nlp2univ[r.nlpId := k],
                 if r.clusterId >= 0 then st.singletonIds else st.singletonIds + 1,
                 st.sf2univ[r.surfaceForm := EntKey(r.clusterId + 1)])
    else st
  }

  /** The entry a mentioned entity record goes to: its cluster's `ent_<cluster+1>`, or the next singleton number. */
  function Target(st: UnifyState, r: UnivRecord): string
    requires r.EntityRecord?
  {
    if r.clusterId >= 0 then EntKey(r.clusterId + 1) else EntKey(st.singletonIds)
  }

  /** What that entry becomes: the cluster's entry merged with the record, or a fresh one. */
  function Joined(st: UnifyState, span: string, r: UnivRecord): Unified
    requires r.EntityRecord?
  {
    var k := Target(st, r);
    if r.clusterId >= 0 && k in st.unified.entries then Merge(st.unified.entries[k], span, r) else Seed(span, r)
  }

  function Mentions(st: UnifyState, index: Index, items: seq<CorefItem>): UnifyState
  {
    if items == [] then st else MentionStep(Mentions(st, index, items[..|items| - 1]), index, items[|items| - 1])
  }

  /** `create_unified_universal_dict`: the mentions of every cluster, cluster by cluster. */
  function ClusterPass(index: Index, coref: Dict<string, seq<CorefItem>>): (st: UnifyState)
    requires coref.Valid()
    ensures st.unified.Valid()
  {
    MentionsCoherent(Initial(coref), index, Flatten(coref.Values()));
    Mentions(Initial(coref), index, Flatten(coref.Values()))
  }

  method CreateUnifiedUniversalDict(index: Index, coref: Dict<string, seq<CorefItem>>) returns (st: UnifyState)
    requires coref.Valid()
    ensures st == ClusterPass(index, coref)
  {
    var clusters := coref.Values();
    st := Initial(coref);
    var c := 0;
    while c < |coref.keys|
      invariant c <= |coref.keys|
      invariant st == Mentions(Initial(coref), index, Flatten(clusters[..c]))
    {
      var items := coref.entries[coref.keys[c]];
      st := ClusterMentions(st, index, Initial(coref), Flatten(clusters[..c]), items);
      assert clusters[..c + 1] == clusters[..c] + [items];
      FlattenSnoc(clusters[..c], items);
      c := c + 1;
    }
    assert clusters[..c] == clusters;
  }

  /** The inner loop of `create_unified_universal_dict` over one cluster's mentions. */
  method ClusterMentions(st0: UnifyState, index: Index, ghost init: UnifyState, ghost done: seq<CorefItem>, items: seq<CorefItem>)
    returns (st: UnifyState)
    requires st0 == Mentions(init, index, done)
    ensures st == Mentions(init, index, done + items)
  {
    st := st0;
    ghost var seen := done;
    var n := 0;
    while n < |items|
      invariant n <= |items|
      invariant seen == done + items[..n]
      invariant st == Mentions(init, index, seen)
    {
      MentionsSnoc(init, index, seen, items[n]);
      PrefixSnoc(done, items, n);
      st := MentionStep(st, index, items[n]);
      seen := seen + [items[n]];
      n := n + 1;
    }
    assert items[..n] == items;
  }

  lemma MentionsSnoc(init: UnifyState, index: Index, seen: seq<CorefItem>, item: CorefItem)
    ensures Mentions(init, index, seen + [item]) == MentionStep(Mentions(init, index, seen), index, item)
  {
    assert (seen + [item])[..|seen|] == seen;
  }

  // ---- where the coreference pass puts a mention ----

  /** The universal-index key of a coreference mention. */
  function MentionSpan(item: CorefItem): string
  {
    SpanKey(item.locationStart, item.locationEnd)
  }

  /** The mention's span holds an entity record (`univ_item and "nlp_id" in univ_item`). */
  predicate HoldsEntity(index: Index, item: CorefItem)
  {
    MentionSpan(item) in index.entries && index.entries[MentionSpan(item)].EntityRecord?
  }

  /** A mention the pass turns into a singleton: its entity record has a negative cluster id. */
  predicate IsSingletonMention(index: Index, item: CorefItem)
  {
    HoldsEntity(index, item) && index.entries[MentionSpan(item)].clusterId < 0
  }

  /** A mention without an entity record is skipped. */
  lemma MentionSkipped(st: UnifyState, index: Index, item: CorefItem)
    requires !HoldsEntity(index, item)
    ensures MentionStep(st, index, item) == st
  {
  }

  /**
   * A mention whose entity record has a cluster id `c >= 0` sends the
   * entity to `ent_<c+1>`: that entry is the old one merged with the record
   * (lists grow only by absent values) or, if there was none, a fresh entry
   * of the record. The entity becomes clustered, its surface form is
   * registered under `ent_<c+1>`, the singleton counter stays, and no other
   * entry changes.
   */
  lemma MentionToCluster(st: UnifyState, index: Index, item: CorefItem)
    requires HoldsEntity(index, item) && index.entries[MentionSpan(item)].clusterId >= 0
    ensures var r := index.entries[MentionSpan(item)];
      var k := EntKey(r.clusterId + 1);
      var st' := MentionStep(st, index, item);
      && st'.nlp2univ == st.nlp2univ[r.nlpId := k]
      && st'.unified.entries == st.unified.entries[k := if k in st.unified.entries
                                                        then Merge(st.unified.entries[k], MentionSpan(item), r)
                                                        else Seed(MentionSpan(item), r)]
      && st'.clustered == st.clustered + {r.nlpId}
      && st'.sf2univ == st.sf2univ[r.surfaceForm := k]
      && st'.singletonIds == st.singletonIds
  {
  }

  /**
   * A mention whose entity record has a negative cluster id sends the
   * entity to the next singleton entry `ent_<singletonIds>`, made from the
   * record alone, and moves the counter on by one. The entity becomes
   * clustered, but its surface form is registered under `ent_<c+1>` for
   * the negative `c`, not under the singleton's key.
   */
  lemma MentionToSingleton(st: UnifyState, index: Index, item: CorefItem)
    requires IsSingletonMention(index, item)
    ensures var r := index.entries[MentionSpan(item)];
      var k := EntKey(st.singletonIds);
      var st' := MentionStep(st, index, item);
      && st'.nlp2univ == st.nlp2univ[r.nlpId := k]
      && st'.unified.entries == st.unified.entries[k := Seed(MentionSpan(item), r)]
      && st'.clustered == st.clustered + {r.nlpId}
      && st'.sf2univ == st.sf2univ[r.surfaceForm := EntKey(r.clusterId + 1)]
      && st'.singletonIds == st.singletonIds + 1
  {
  }

  /** The number of mentions among `items` that become singletons. */
  function SingletonMentions(index: Index, items: seq<CorefItem>): nat
  {
    if items == [] then 0
    else SingletonMentions(index, items[..|items| - 1]) + (if IsSingletonMention(index, items[|items| - 1]) then 1 else 0)
  }

  /** The singleton counter moves on once per singleton mention and at no other mention. */
  lemma {:induction false} MentionsSingletonCount(st: UnifyState, index: Index, items: seq<CorefItem>)
    ensures Mentions(st, index, items).singletonIds == st.singletonIds + SingletonMentions(index, items)
  {
    if items != [] {
      var last := items[|items| - 1];
      MentionsSingletonCount(st, index, items[..|items| - 1]);
      if IsSingletonMention(index, last) {
        MentionToSingleton(Mentions(st, index, items[..|items| - 1]), index, last);
      } else if HoldsEntity(index, last) {
        MentionToCluster(Mentions(st, index, items[..|items| - 1]), index, last);
      }
    }
  }

  /**
   * Singleton keys count up from the number of clusters plus one: the
   * mention at position `j` of the clusters' mentions, when it becomes a
   * singleton, is mapped to `ent_<|clusters| + 1 + s>`, where `s` is the
   * number of singleton mentions before it.
   */
  lemma SingletonNumbering(coref: Dict<string, seq<CorefItem>>, index: Index, j: nat)
    requires coref.Valid()
    requires j < |Flatten(coref.Values())| && IsSingletonMention(index, Flatten(coref.Values())[j])
    ensures var items := Flatten(coref.Values());
      var r := index.entries[MentionSpan(items[j])];
      Mentions(Initial(coref), index, items[..j + 1]).nlp2univ[r.nlpId]
        == EntKey(|coref.keys| + 1 + SingletonMentions(index, items[..j]))
  {
    var items := Flatten(coref.Values());
    assert items[..j + 1] == items[..j] + [items[j]];
    MentionsSnoc(Initial(coref), index, items[..j], items[j]);
    MentionsSingletonCount(Initial(coref), index, items[..j]);
    MentionToSingleton(Mentions(Initial(coref), index, items[..j]), index, items[j]);
  }

  /** The surface forms of the entity records some mention among `items` points at. */
  function MentionedForms(index: Index, items: seq<CorefItem>): set<string>
  {
    set j | 0 <= j < |items| && HoldsEntity(index, items[j]) :: index.entries[MentionSpan(items[j])].surfaceForm
  }

  lemma MentionedFormsSnoc(index: Index, items: seq<CorefItem>, item: CorefItem)
    ensures MentionedForms(index, items + [item])
      == MentionedForms(index, items) + (if HoldsEntity(index, item) then {index.entries[MentionSpan(item)].surfaceForm} else {})
  {
    var all := items + [item];
    forall j | 0 <= j < |items| ensures all[j] == items[j] {
    }
    assert all[|items|] == item;
  }

  /**
   * The surface-form registry the pass builds holds exactly the surface
   * forms of the mentioned entity records (line 422 is its only writer).
   */
  lemma {:induction false} MentionsRegistry(st: UnifyState, index: Index, items: seq<CorefItem>)
    ensures Mentions(st, index, items).sf2univ.Keys == st.sf2univ.Keys + MentionedForms(index, items)
  {
    if items != [] {
      var init, last := items[..|items| - 1], items[|items| - 1];
      MentionsRegistry(st, index, init);
      assert items == init + [last];
      MentionedFormsSnoc(index, init, last);
      if IsSingletonMention(index, last) {
        MentionToSingleton(Mentions(st, index, init), index, last);
      } else if HoldsEntity(index, last) {
        MentionToCluster(Mentions(st, index, init), index, last);
      }
    }
  }

  /** After the coreference pass the registry holds exactly the surface forms of mentioned entity records. */
  lemma ClusterPassRegistry(index: Index, coref: Dict<string, seq<CorefItem>>)
    requires coref.Valid()
    ensures ClusterPass(index, coref).sf2univ.Keys == MentionedForms(index, Flatten(coref.Values()))
  {
    MentionsRegistry(Initial(coref), index, Flatten(coref.Values()));
  }

  // ---- invariants of the unification ----

  /** Every entity mapped so far points at an existing unified entry, and every clustered entity is mapped. */
  ghost predicate Coherent(st: UnifyState)
  {
    && st.unified.Valid()
    && (forall id :: id in st.nlp2univ ==> st.nlp2univ[id] in st.unified.entries)
    && (forall id :: id in st.clustered ==> id in st.nlp2univ)
  }

  /** Within one cluster entry no entity, span or surface form is listed twice. */
  ghost predicate DistinctMembers(st: UnifyState)
  {
    forall k :: k in st.unified.entries ==> DistinctOne(st.unified.entries[k])
  }

  /** No singleton number still to be handed out names an existing entry. */
  ghost predicate Fresh(st: UnifyState)
  {
    FreshIn(st.unified, st.singletonIds)
  }

  ghost predicate FreshIn(unified: Dict<string, Unified>, next: int)
  {
    forall n: int :: n >= next ==> EntKey(n) !in unified.entries
  }

  /** Every cluster id the index carries is below `n`. */
  ghost predicate ClusterIdsBelow(index: Index, n: int)
  {
    forall k :: k in index.entries && index.entries[k].EntityRecord? ==> index.entries[k].clusterId < n
  }

  lemma SingletonFresh(st: UnifyState, u: Unified)
    requires Fresh(st)
    ensures FreshIn(st.unified.Put(EntKey(st.singletonIds), u), st.singletonIds + 1)
  {
    forall n: int | n >= st.singletonIds + 1 ensures EntKey(n) != EntKey(st.singletonIds) {
      if EntKey(n) == EntKey(st.singletonIds) {
        EntKeyInjective(n, st.singletonIds);
      }
    }
  }

  lemma MentionStepInvariants(st: UnifyState, index: Index, item: CorefItem, bound: int)
    requires Coherent(st) && DistinctMembers(st)
    requires Fresh(st) && st.singletonIds > bound && ClusterIdsBelow(index, bound)
    ensures var st' := MentionStep(st, index, item);
      Coherent(st') && DistinctMembers(st') && Fresh(st') && st'.singletonIds > bound
  {
    MentionStepCoherent(st, index, item);
    MentionStepFresh(st, index, item, bound);
  }

  lemma MentionStepFresh(st: UnifyState, index: Index, item: CorefItem, bound: int)
    requires Fresh(st) && st.singletonIds > bound && ClusterIdsBelow(index, bound)
    ensures Fresh(MentionStep(st, index, item)) && MentionStep(st, index, item).singletonIds > bound
  {
    var span := SpanKey(item.locationStart, item.locationEnd);
    if span in index.entries && index.entries[span].EntityRecord? {
      var r := index.entries[span];
      if r.clusterId >= 0 {
        PutClusterFresh(st, r.clusterId, Joined(st, span, r));
      } else {
        SingletonFresh(st, Joined(st, span, r));
      }
    }
  }

  /** A cluster entry `ent_<cid+1>` below the singleton numbers leaves them fresh. */
  lemma PutClusterFresh(st: UnifyState, cid: int, u: Unified)
    requires Fresh(st) && 0 <= cid && cid + 1 < st.singletonIds
    ensures FreshIn(st.unified.Put(EntKey(cid + 1), u), st.singletonIds)
  {
    forall n: int | n >= st.singletonIds ensures EntKey(n) != EntKey(cid + 1) {
      if EntKey(n) == EntKey(cid + 1) {
        EntKeyInjective(n, cid + 1);
      }
    }
  }

  /**
   * The coreference pass keeps the mapping coherent and each entry free of
   * repeated entities, spans and surface forms; when the cluster ids are
   * below the number of clusters (the usual `0 … n-1`), no singleton number
   * still to come names an entry.
   */
  lemma {:induction false} MentionsInvariants(st: UnifyState, index: Index, items: seq<CorefItem>, bound: int)
    requires Coherent(st) && DistinctMembers(st)
    requires Fresh(st) && st.singletonIds > bound && ClusterIdsBelow(index, bound)
    ensures var st' := Mentions(st, index, items);
      Coherent(st') && DistinctMembers(st') && Fresh(st') && st'.singletonIds > bound
  {
    if items != [] {
      MentionsInvariants(st, index, items[..|items| - 1], bound);
      MentionStepInvariants(Mentions(st, index, items[..|items| - 1]), index, items[|items| - 1], bound);
    }
  }

  /** Without the freshness condition the pass still keeps the mapping coherent and the entries duplicate-free. */
  lemma {:induction false} MentionsCoherent(st: UnifyState, index: Index, items: seq<CorefItem>)
    requires Coherent(st) && DistinctMembers(st)
    ensures Coherent(Mentions(st, index, items)) && DistinctMembers(Mentions(st, index, items))
  {
    if items != [] {
      MentionsCoherent(st, index, items[..|items| - 1]);
      MentionStepCoherent(Mentions(st, index, items[..|items| - 1]), index, items[|items| - 1]);
    }
  }

  lemma MentionStepCoherent(st: UnifyState, index: Index, item: CorefItem)
    requires Coherent(st) && DistinctMembers(st)
    ensures Coherent(MentionStep(st, index, item)) && DistinctMembers(MentionStep(st, index, item))
  {
    MentionStepMapped(st, index, item);
    MentionStepDistinct(st, index, item);
  }

  lemma MentionStepMapped(st: UnifyState, index: Index, item: CorefItem)
    requires Coherent(st)
    ensures Coherent(MentionStep(st, index, item))
  {
  }

  lemma MentionStepDistinct(st: UnifyState, index: Index, item: CorefItem)
    requires DistinctMembers(st)
    ensures DistinctMembers(MentionStep(st, index, item))
  {
    var span := SpanKey(item.locationStart, item.locationEnd);
    if span in index.entries && index.entries[span].EntityRecord? {
      var r := index.entries[span];
      var k := Target(st, r);
      if r.clusterId >= 0 && k in st.unified.entries {
        var old_u := st.unified.entries[k];
        assert DistinctOne(old_u);
        MergeDistinct(old_u, span, r);
      }
      PutDistinct(st, k, Joined(st, span, r));
    }
  }

  predicate DistinctOne(u: Unified)
  {
    NoDuplicates(u.nlpIds) && NoDuplicates(u.spans) && NoDuplicates(u.surfaceForms)
  }

  lemma MergeDistinct(u: Unified, span: string, r: UnivRecord)
    requires r.EntityRecord? && DistinctOne(u)
    ensures DistinctOne(Merge(u, span, r))
  {
  }

  lemma PutDistinct(st: UnifyState, k: string, u: Unified)
    requires DistinctMembers(st) && DistinctOne(u)
    ensures DistinctMembers(st.(unified := st.unified.Put(k, u)))
  {
  }

  lemma ClusterPassInvariants(index: Index, coref: Dict<string, seq<CorefItem>>)
    requires coref.Valid()
    ensures Coherent(ClusterPass(index, coref)) && DistinctMembers(ClusterPass(index, coref))
    ensures ClusterIdsBelow(index, |coref.keys|) ==> Fresh(ClusterPass(index, coref))
  {
    MentionsCoherent(Initial(coref), index, Flatten(coref.Values()));
    if ClusterIdsBelow(index, |coref.keys|) {
      MentionsInvariants(Initial(coref), index, Flatten(coref.Values()), |coref.keys|);
    }
  }

  // ---- the fallback pass ----

  /** `wiki_linked_dict.get(surface_form)` when it is a non-empty link. */
  function ExtraLink(wikiLinked: map<string, string>, sf: string): seq<Option<string>>
  {
    if sf in wikiLinked && wikiLinked[sf] != "" then [Some(wikiLinked[sf])] else []
  }

  /**
   * One entry of the universal index, for entities no cluster mentioned.
   * A surface form some cluster mention registered sends the entity to that
   * entry, where every list simply grows (no duplicate check) and a
   * registered key without an entry is a KeyError. Any other entity becomes
   * a singleton; its surface form is not registered, so a later entity with
   * the same form becomes a singleton of its own.
   */
  function FallbackStep(st: UnifyState, wikiLinked: map<string, string>, span: string, r: UnivRecord): Result<UnifyState>
  {
    if !r.EntityRecord? || r.nlpId in st.clustered then Ok(st)
    else if r.surfaceForm in st.sf2univ then
      var ek := st.sf2univ[r.surfaceForm];
      if ek !in st.unified.entries then Err(KeyError)
      else
        var u := st.unified.entries[ek];
        var links := u.wikiLinks + (if Truthy(r.wikiLink) then [r.wikiLink] else []) + ExtraLink(wikiLinked, r.surfaceForm);
        var u' := Unified(u.nlpIds + [r.nlpId], u.spans + [span], u.surfaceForms + [r.surfaceForm],
                          u.ner + r.ner, u.relations + r.relations, links);
        Ok(st.(unified := st.unified.Put(ek, u'), nlp2univ := st.nlp2univ[r.nlpId := ek]))
    else
      var sk := EntKey(st.singletonIds);
      var u := Seed(span, r).(wikiLinks := [r.wikiLink] + ExtraLink(wikiLinked, r.surfaceForm));
      Ok(st.(unified := st.unified.Put(sk, u), nlp2univ := st.nlp2univ[r.nlpId := sk], singletonIds := st.singletonIds + 1))
  }

  /** The fallback over the first `n` entries of the universal index, in its key order. */
  function Fallback(st: UnifyState, wikiLinked: map<string, string>, index: Index, n: nat): Result<UnifyState>
    requires index.Valid() && n <= |index.keys|
  {
    if n == 0 then Ok(st)
    else match Fallback(st, wikiLinked, index, n - 1)
      case Err(e) => Err(e)
      case Ok(st1) => FallbackStep(st1, wikiLinked, index.keys[n - 1], index.entries[index.keys[n - 1]])
  }

  /** The whole unification: the coreference pass, then the fallback. */
  function Unify(index: Index, coref: Dict<string, seq<CorefItem>>, wikiLinked: map<string, string>): (res: Result<UnifyState>)
    requires index.Valid() && coref.Valid()
    ensures res.Ok? ==> res.value.unified.Valid()
  {
    FallbackValid(ClusterPass(index, coref), wikiLinked, index, |index.keys|);
    Fallback(ClusterPass(index, coref), wikiLinked, index, |index.keys|)
  }

  lemma {:induction false} FallbackValid(st: UnifyState, w: map<string, string>, index: Index, n: nat)
    requires index.Valid() && n <= |index.keys| && st.unified.Valid()
    ensures Fallback(st, w, index, n).Ok? ==> Fallback(st, w, index, n).value.unified.Valid()
  {
    if n > 0 {
      FallbackValid(st, w, index, n - 1);
    }
  }

  lemma {:induction false} FallbackErrStays(st: UnifyState, w: map<string, string>, index: Index, n: nat, m: nat)
    requires index.Valid() && n <= m <= |index.keys|
    requires Fallback(st, w, index, n).Err?
    ensures Fallback(st, w, index, m) == Fallback(st, w, index, n)
  {
    if m > n {
      FallbackErrStays(st, w, index, n, m - 1);
    }
  }

  method UnifyEntities(index: Index, coref: Dict<string, seq<CorefItem>>, wikiLinked: map<string, string>) returns (r: Result<UnifyState>)
    requires index.Valid() && coref.Valid()
    ensures r == Unify(index, coref, wikiLinked)
  {
    var st0 := CreateUnifiedUniversalDict(index, coref);
    var st := st0;
    var n := 0;
    while n < |index.keys|
      invariant n <= |index.keys|
      invariant Fallback(st0, wikiLinked, index, n) == Ok(st)
    {
      var span := index.keys[n];
      var rec := index.entries[span];
      assert Fallback(st0, wikiLinked, index, n + 1) == FallbackStep(st, wikiLinked, span, rec);
      if rec.EntityRecord? && rec.nlpId !in st.clustered {
        if rec.surfaceForm in st.sf2univ {
          var ek := st.sf2univ[rec.surfaceForm];
          if ek !in st.unified.entries {
            FallbackErrStays(st0, wikiLinked, index, n + 1, |index.keys|);
            return Err(KeyError);
          }
          var cur := st.unified.entries[ek];
          var links := cur.wikiLinks;
          if Truthy(rec.wikiLink) {
            links := links + [rec.wikiLink];
          } else {
            assert links == cur.wikiLinks + [];
          }
          links := links + ExtraLink(wikiLinked, rec.surfaceForm);
          var u := Unified(cur.nlpIds + [rec.nlpId], cur.spans + [span], cur.surfaceForms + [rec.surfaceForm],
                           cur.ner + rec.ner, cur.relations + rec.relations, links);
          st := st.(unified := st.unified.Put(ek, u), nlp2univ := st.nlp2univ[rec.nlpId := ek]);
        } else {
          var sk := EntKey(st.singletonIds);
          var u := Unified([rec.nlpId], [span], [rec.surfaceForm], rec.ner, rec.relations,
                           [rec.wikiLink] + ExtraLink(wikiLinked, rec.surfaceForm));
          st := st.(unified := st.unified.Put(sk, u), nlp2univ := st.nlp2univ[rec.nlpId := sk], singletonIds := st.singletonIds + 1);
        }
      }
      n := n + 1;
    }
    r := Ok(st);
  }

  /** Entity records of the first `n` entries of the index are all mapped. */
  ghost predicate CoveredUpTo(st: UnifyState, index: Index, n: nat)
    requires index.Valid() && n <= |index.keys|
  {
    forall i :: 0 <= i < n && index.entries[index.keys[i]].EntityRecord? ==> index.entries[index.keys[i]].nlpId in st.nlp2univ
  }

  /** Every list of `u` is a prefix of the same list of `u'`. */
  predicate Extends(u: Unified, u': Unified)
  {
    u.nlpIds <= u'.nlpIds && u.spans <= u'.spans && u.surfaceForms <= u'.surfaceForms
    && u.ner <= u'.ner && u.relations <= u'.relations && u.wikiLinks <= u'.wikiLinks
  }

  /**
   * From `st` to `st'`: no mapped entity is dropped, the clustered set is
   * unchanged, and with fresh singleton numbers they stay fresh while every
   * existing entry is kept and only grows, list by list.
   */
  ghost predicate Progress(st: UnifyState, st': UnifyState)
  {
    && st.nlp2univ.Keys <= st'.nlp2univ.Keys
    && st'.clustered == st.clustered
    && (Fresh(st) ==> Fresh(st') && forall k :: k in st.unified.entries ==>
          k in st'.unified.entries && Extends(st.unified.entries[k], st'.unified.entries[k]))
  }

  lemma ProgressTrans(a: UnifyState, b: UnifyState, c: UnifyState)
    requires Progress(a, b) && Progress(b, c)
    ensures Progress(a, c)
  {
  }

  lemma FallbackStepFacts(st: UnifyState, w: map<string, string>, span: string, r: UnivRecord)
    requires Coherent(st)
    requires FallbackStep(st, w, span, r).Ok?
    ensures var st' := FallbackStep(st, w, span, r).value;
      && Coherent(st')
      && Progress(st, st')
      && (r.EntityRecord? ==> r.nlpId in st'.nlp2univ)
  {
    if r.EntityRecord? && r.nlpId !in st.clustered {
      if r.surfaceForm in st.sf2univ {
        FallbackJoinFacts(st, w, span, r);
      } else {
        FallbackSingletonFacts(st, w, span, r);
      }
    }
  }

  /**
   * A record whose surface form is registered joins that form's entry: the
   * entity is mapped there, and the entry's lists grow by the record's ID,
   * span, surface form, votes, relations and links, with no duplicate
   * check. No other entry, the registry, the clustered set and the
   * singleton counter are unchanged.
   */
  lemma FallbackJoinFacts(st: UnifyState, w: map<string, string>, span: string, r: UnivRecord)
    requires Coherent(st) && r.EntityRecord? && r.nlpId !in st.clustered && r.surfaceForm in st.sf2univ
    requires st.sf2univ[r.surfaceForm] in st.unified.entries
    ensures var st' := FallbackStep(st, w, span, r).value;
      Coherent(st') && Progress(st, st') && r.nlpId in st'.nlp2univ
    ensures var st' := FallbackStep(st, w, span, r).value;
      var ek := st.sf2univ[r.surfaceForm];
      var u, u' := st.unified.entries[ek], st'.unified.entries[ek];
      && st'.nlp2univ == st.nlp2univ[r.nlpId := ek]
      && u'.nlpIds == u.nlpIds + [r.nlpId] && u'.spans == u.spans + [span]
      && u'.surfaceForms == u.surfaceForms + [r.surfaceForm]
      && u'.ner == u.ner + r.ner && u'.relations == u.relations + r.relations
      && u'.wikiLinks == u.wikiLinks + (if Truthy(r.wikiLink) then [r.wikiLink] else []) + ExtraLink(w, r.surfaceForm)
      && st'.unified.keys == st.unified.keys
      && (forall k :: k in st.unified.entries && k != ek ==> st'.unified.entries[k] == st.unified.entries[k])
      && st'.sf2univ == st.sf2univ && st'.clustered == st.clustered && st'.singletonIds == st.singletonIds
  {
  }

  /**
   * A record with an unregistered surface form opens the singleton entry
   * `ent_<singletonIds>`, made of the record with its link and the
   * metadata link, maps the entity there and moves the counter on by one.
   * Its surface form stays unregistered, so a later record with the same
   * form opens a singleton of its own.
   */
  lemma FallbackSingletonFacts(st: UnifyState, w: map<string, string>, span: string, r: UnivRecord)
    requires Coherent(st) && r.EntityRecord? && r.nlpId !in st.clustered && r.surfaceForm !in st.sf2univ
    ensures var st' := FallbackStep(st, w, span, r).value;
      Coherent(st') && Progress(st, st') && r.nlpId in st'.nlp2univ
    ensures var st' := FallbackStep(st, w, span, r).value;
      var sk := EntKey(st.singletonIds);
      && st'.nlp2univ == st.nlp2univ[r.nlpId := sk]
      && st'.unified.entries == st.unified.entries[sk := Unified([r.nlpId], [span], [r.surfaceForm], r.ner, r.relations,
                                                                 [r.wikiLink] + ExtraLink(w, r.surfaceForm))]
      && st'.singletonIds == st.singletonIds + 1
      && st'.sf2univ == st.sf2univ && r.surfaceForm !in st'.sf2univ && st'.clustered == st.clustered
  {
    if Fresh(st) {
      SingletonFresh(st, Seed(span, r).(wikiLinks := [r.wikiLink] + ExtraLink(w, r.surfaceForm)));
    }
  }

  /**
   * The step fails, with KeyError, exactly when an unclustered entity's
   * surface form is registered under a key that has no entry (as
   * `ent_<c+1>` is for a negative cluster id `c`).
   */
  lemma FallbackStepErr(st: UnifyState, w: map<string, string>, span: string, r: UnivRecord)
    ensures FallbackStep(st, w, span, r).Err? <==>
      r.EntityRecord? && r.nlpId !in st.clustered && r.surfaceForm in st.sf2univ && st.sf2univ[r.surfaceForm] !in st.unified.entries
    ensures FallbackStep(st, w, span, r).Err? ==> FallbackStep(st, w, span, r).error == KeyError
  {
  }

  /**
   * The fallback never writes the registry or the clustered set, so it
   * matches surface forms only against those the coreference pass
   * registered, and the singletons it opens never register theirs.
   */
  lemma {:induction false} FallbackKeepsRegistry(st: UnifyState, w: map<string, string>, index: Index, n: nat)
    requires index.Valid() && n <= |index.keys| && Fallback(st, w, index, n).Ok?
    ensures Fallback(st, w, index, n).value.sf2univ == st.sf2univ
    ensures Fallback(st, w, index, n).value.clustered == st.clustered
  {
    if n > 0 {
      FallbackUnfold(st, w, index, n);
      FallbackKeepsRegistry(st, w, index, n - 1);
    }
  }

  /** After unification the registry is the one the coreference pass built: the surface forms of mentioned entity records. */
  lemma UnifyRegistry(index: Index, coref: Dict<string, seq<CorefItem>>, w: map<string, string>)
    requires index.Valid() && coref.Valid() && Unify(index, coref, w).Ok?
    ensures Unify(index, coref, w).value.sf2univ == ClusterPass(index, coref).sf2univ
    ensures Unify(index, coref, w).value.sf2univ.Keys == MentionedForms(index, Flatten(coref.Values()))
  {
    FallbackKeepsRegistry(ClusterPass(index, coref), w, index, |index.keys|);
    ClusterPassRegistry(index, coref);
  }

  lemma FallbackUnfold(st: UnifyState, w: map<string, string>, index: Index, n: nat)
    requires index.Valid() && 0 < n <= |index.keys| && Fallback(st, w, index, n).Ok?
    ensures Fallback(st, w, index, n - 1).Ok?
    ensures Fallback(st, w, index, n)
      == FallbackStep(Fallback(st, w, index, n - 1).value, w, index.keys[n - 1], index.entries[index.keys[n - 1]])
  {
  }

  /**
   * The fallback over the first `n` entries keeps the mapping coherent and
   * makes progress in the sense above, and it maps every entity record
   * among those entries.
   */
  lemma {:induction false} FallbackFacts(st: UnifyState, w: map<string, string>, index: Index, n: nat)
    requires index.Valid() && n <= |index.keys|
    requires Coherent(st)
    requires Fallback(st, w, index, n).Ok?
    ensures var st' := Fallback(st, w, index, n).value;
      Coherent(st') && Progress(st, st') && CoveredUpTo(st', index, n)
  {
    if n > 0 {
      FallbackUnfold(st, w, index, n);
      FallbackFacts(st, w, index, n - 1);
      var st1, st' := Fallback(st, w, index, n - 1).value, Fallback(st, w, index, n).value;
      var key := index.keys[n - 1];
      FallbackStepFacts(st1, w, key, index.entries[key]);
      ProgressTrans(st, st1, st');
      CoveredStep(st1, st', index, n);
    }
  }

  lemma CoveredStep(st1: UnifyState, st': UnifyState, index: Index, n: nat)
    requires index.Valid() && 0 < n <= |index.keys|
    requires CoveredUpTo(st1, index, n - 1) && st1.nlp2univ.Keys <= st'.nlp2univ.Keys
    requires index.entries[index.keys[n - 1]].EntityRecord? ==> index.entries[index.keys[n - 1]].nlpId in st'.nlp2univ
    ensures CoveredUpTo(st', index, n)
  {
    forall i | 0 <= i < n && index.entries[index.keys[i]].EntityRecord?
      ensures index.entries[index.keys[i]].nlpId in st'.nlp2univ
    {
      if i < n - 1 {
        assert index.entries[index.keys[i]].nlpId in st1.nlp2univ;
      }
    }
  }

  /**
   * When unification succeeds, every entity of the universal index is
   * mapped to an unified entity that exists, which the relation lookups of
   * the IDM stage rely on.
   */
  lemma UnifyCovers(index: Index, coref: Dict<string, seq<CorefItem>>, w: map<string, string>)
    requires index.Valid() && coref.Valid()
    requires Unify(index, coref, w).Ok?
    ensures var st := Unify(index, coref, w).value;
      forall k :: k in index.entries && index.entries[k].EntityRecord? ==>
        index.entries[k].nlpId in st.nlp2univ && st.nlp2univ[index.entries[k].nlpId] in st.unified.entries
  {
    ClusterPassInvariants(index, coref);
    FallbackFacts(ClusterPass(index, coref), w, index, |index.keys|);
    var st := Unify(index, coref, w).value;
    forall k | k in index.entries && index.entries[k].EntityRecord?
      ensures index.entries[k].nlpId in st.nlp2univ
    {
      var i := FirstIndex(index.keys, k);
      assert index.keys[i] == k;
    }
  }

  /**
   * With cluster ids below the number of clusters, the fallback only ever
   * extends the entries the coreference pass built, list by list.
   */
  lemma UnifyExtendsClusters(index: Index, coref: Dict<string, seq<CorefItem>>, w: map<string, string>)
    requires index.Valid() && coref.Valid()
    requires ClusterIdsBelow(index, |coref.keys|)
    requires Unify(index, coref, w).Ok?
    ensures var st0 := ClusterPass(index, coref);
      var st := Unify(index, coref, w).value;
      forall k :: k in st0.unified.entries ==> k in st.unified.entries && Extends(st0.unified.entries[k], st.unified.entries[k])
  {
    ClusterPassInvariants(index, coref);
    FallbackFacts(ClusterPass(index, coref), w, index, |index.keys|);
  }
}
