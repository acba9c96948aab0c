/**
 * The entity id renumbering of `unify_idm_jsons`: the IDM documents of one
 * movement are read in turn, and every entity id `<bio>-<type>-<rest>` gets
 * a movement-wide id, minted from a per-type counter when the rest looks
 * like a counter and kept as a slug otherwise.
 */

module IdmGroup {
  import opened Common
  import opened PyDict
  import opened IdmGraph

  /** The counters `all_pr_id`, `all_pl_id`, `all_gr_id`, `all_ob_id` and the last `mov_ent_id`. */
  datatype Cursor = Cursor(counts: Counts, movEntId: Option<string>)

  /** The loop's state: `all_entities`, `entity_mapper` and the cursor. */
  datatype Grouping = Grouping(allEntities: Dict<string, IdmEntity>, entityMapper: Dict<string, string>, cursor: Cursor)

  function InitialGrouping(): Grouping
  {
    Grouping(Empty(), Empty(), Cursor(Counts(0, 0, 0, 0), None))
  }

  /** The type codes the counters are kept for. */
  function KindOfCode(t: string): Option<Kind>
  {
    if t == "pr" then Some(Person)
    else if t == "pl" then Some(Place)
    else if t == "gr" then Some(Group)
    else if t == "ob" then Some(CulturalObject)
    else None
  }

  /** The counters are kept for exactly the four type codes of IDM ids, each for its own kind. */
  lemma KindOfCodeSpec(t: string)
    ensures KindOfCode(t).Some? ==> Code(KindOfCode(t).value) == t
    ensures KindOfCode(t).None? <==> forall c: Kind :: Code(c) != t
  {
    if KindOfCode(t).None? {
      forall c: Kind ensures Code(c) != t {
      }
    }
  }

  /** A rest that contains a 0, 1 or 2 is taken for a counter. */
  predicate LooksNumbered(unique: string)
  {
    '0' in unique || '1' in unique || '2' in unique
  }

  /** The second `-`-separated piece of an id, and the pieces after it joined back with `-`. */
  datatype IdParts = IdParts(typeId: string, uniqueId: string)

  function PartsOf(id: string): (r: Result<IdParts>)
    ensures r.Err? <==> '-' !in id
  {
    var parts := Split(id, '-');
    SplitOne(id);
    if |parts| < 2 then Err(IndexError) else Ok(IdParts(parts[1], Join(parts[2..], "-")))
  }

  /** Splitting a string without a separator gives one piece, and a string with one gives two or more. */
  lemma SplitOne(s: string)
    ensures |Split(s, '-')| == 1 <==> '-' !in s
  {
    JoinSplit(s, '-');
    var parts := Split(s, '-');
    if |parts| == 1 {
      assert s == parts[0];
    } else {
      assert s == parts[0] + "-" + Join(parts[1..], "-");
      assert s[|parts[0]|] == '-';
    }
  }

  /** The counter value an entity takes, when its id is renumbered under a known type. */
  function Minted(c: Cursor, id: string): Option<(Kind, nat)>
  {
    match PartsOf(id)
    case Err(_) => None
    case Ok(p) =>
      if LooksNumbered(p.uniqueId) && KindOfCode(p.typeId).Some? then
        Some((KindOfCode(p.typeId).value, c.counts.Get(KindOfCode(p.typeId).value) + 1))
      else None
  }

  /**
   * The movement-wide id of an entity. A counter-like rest under an
   * unknown type code leaves `mov_ent_id` as the previous entity set it,
   * which is a NameError for the very first entity.
   */
  function NewId(c: Cursor, movement: string, id: string): Result<string>
  {
    match PartsOf(id)
    case Err(e) => Err(e)
    case Ok(p) =>
      if !LooksNumbered(p.uniqueId) then Ok(movement + "-" + p.typeId + "-" + p.uniqueId)
      else
        match KindOfCode(p.typeId)
        case Some(k) => Ok(MakeId(movement, k, c.counts.Get(k) + 1))
        case None => if c.movEntId.Some? then Ok(c.movEntId.value) else Err(NameError)
  }

  /** The counters and `mov_ent_id` after one entity. */
  function Advance(c: Cursor, movement: string, id: string): (r: Result<Cursor>)
    ensures r.Ok? ==> r.value.movEntId.Some?
  {
    match NewId(c, movement, id)
    case Err(e) => Err(e)
    case Ok(mov) => Ok(Cursor(if Minted(c, id).Some? then c.counts.Inc(Minted(c, id).value.0) else c.counts, Some(mov)))
  }

  /** One entity of one document. */
  function GroupStep(g: Grouping, movement: string, ent: IdmEntity): Result<Grouping>
  {
    match Advance(g.cursor, movement, ent.id)
    case Err(e) => Err(e)
    case Ok(c) => Ok(Record(g, ent, c))
  }

  /** `entity_mapper[ent["id"]] = mov_ent_id`, `ent["id"] = mov_ent_id`, `all_entities[mov_ent_id] = ent`. */
  function Record(g: Grouping, ent: IdmEntity, c: Cursor): Grouping
    requires c.movEntId.Some?
  {
    var mov := c.movEntId.value;
    Grouping(g.allEntities.Put(mov, ent.(id := mov)), g.entityMapper.Put(ent.id, mov), c)
  }

  /** The entities of all documents, in reading order. */
  function GroupAll(movement: string, ents: seq<IdmEntity>): Result<Grouping>
  {
    if ents == [] then Ok(InitialGrouping())
    else
      match GroupAll(movement, ents[..|ents| - 1])
      case Err(e) => Err(e)
      case Ok(g) => GroupStep(g, movement, ents[|ents| - 1])
  }

  /** The cursor alone, along the same entities. */
  function Cursors(movement: string, ents: seq<IdmEntity>): Result<Cursor>
  {
    if ents == [] then Ok(InitialGrouping().cursor)
    else
      match Cursors(movement, ents[..|ents| - 1])
      case Err(e) => Err(e)
      case Ok(c) => Advance(c, movement, ents[|ents| - 1].id)
  }

  /** The run succeeds exactly when the cursor run does, and ends with its cursor. */
  lemma {:induction false} GroupCursors(movement: string, ents: seq<IdmEntity>)
    ensures GroupAll(movement, ents).Ok? <==> Cursors(movement, ents).Ok?
    ensures GroupAll(movement, ents).Ok? ==> GroupAll(movement, ents).value.cursor == Cursors(movement, ents).value
  {
    if ents != [] {
      GroupCursors(movement, ents[..|ents| - 1]);
    }
  }

  /** One more entity on the stream. */
  lemma GroupAllSnoc(movement: string, a: seq<IdmEntity>, e: IdmEntity, g: Grouping)
    requires GroupAll(movement, a) == Ok(g)
    ensures GroupAll(movement, a + [e]) == GroupStep(g, movement, e)
  {
    assert (a + [e])[..|a|] == a;
  }

  lemma {:induction false} GroupErrStays(movement: string, a: seq<IdmEntity>, b: seq<IdmEntity>)
    requires GroupAll(movement, a).Err?
    ensures GroupAll(movement, a + b) == GroupAll(movement, a)
    decreases |b|
  {
    if b == [] {
      assert a + b == a;
    } else {
      var b' := b[..|b| - 1];
      assert (a + b)[..|a + b| - 1] == a + b';
      GroupErrStays(movement, a, b');
    }
  }

  /** `unify_idm_jsons` over the entity lists of the documents. */
  method UnifyIdmJsons(movement: string, files: seq<seq<IdmEntity>>) returns (r: Result<Grouping>)
    ensures r == GroupAll(movement, Flatten(files))
  {
    var g := InitialGrouping();
    ghost var done: seq<IdmEntity> := [];
    var f := 0;
    while f < |files|
      invariant f <= |files| && done == Flatten(files[..f])
      invariant GroupAll(movement, done) == Ok(g)
    {
      FlattenNext(files, f);
      var step := GroupFile(g, movement, done, files[f]);
      if step.Err? {
        FlattenAround(files, f);
        GroupErrStays(movement, done + files[f], Flatten(files[f + 1..]));
        return step;
      }
      g := step.value;
      done := done + files[f];
      f := f + 1;
    }
    AppendTakes([], files);
    r := Ok(g);
  }

  /** The entity loop over one document, after the entities `done` of the documents before it. */
  method GroupFile(g0: Grouping, movement: string, ghost done: seq<IdmEntity>, ents: seq<IdmEntity>) returns (r: Result<Grouping>)
    requires GroupAll(movement, done) == Ok(g0)
    ensures r == GroupAll(movement, done + ents)
  {
    var g := g0;
    var n := 0;
    AppendTakes(done, ents);
    while n < |ents|
      invariant n <= |ents|
      invariant GroupAll(movement, done + ents[..n]) == Ok(g)
    {
      var now := done + ents[..n + 1];
      CutAt(done, ents, n);
      GroupAllSnoc(movement, done + ents[..n], ents[n], g);
      var step := RenumberEntity(g, movement, ents[n]);
      if step.Err? {
        GroupErrStays(movement, now, ents[n + 1..]);
        return step;
      }
      g := step.value;
      n := n + 1;
    }
    r := Ok(g);
  }

  lemma AppendTakes<T>(done: seq<T>, xs: seq<T>)
    ensures done + xs[..0] == done && xs[..|xs|] == xs
  {
  }

  lemma CutAt<T>(done: seq<T>, xs: seq<T>, n: nat)
    requires n < |xs|
    ensures done + xs[..n + 1] == (done + xs[..n]) + [xs[n]]
    ensures done + xs == (done + xs[..n + 1]) + xs[n + 1..]
  {
    assert xs == xs[..n + 1] + xs[n + 1..];
  }

  /** The loop body for one entity: split its id, pick the new id, record it. */
  method RenumberEntity(g: Grouping, movement: string, ent: IdmEntity) returns (r: Result<Grouping>)
    ensures r == GroupStep(g, movement, ent)
  {
    var allEntities, entityMapper, counts, movEntId := g.allEntities, g.entityMapper, g.cursor.counts, g.cursor.movEntId;
    var parts := Split(ent.id, '-');
    if |parts| < 2 {
      return Err(IndexError);
    }
    var typeId := parts[1];
    var uniqueId := Join(parts[2..], "-");
    if '0' in uniqueId || '1' in uniqueId || '2' in uniqueId {
      var k := KindOfCode(typeId);
      if k.Some? {
        counts := counts.Inc(k.value);
        movEntId := Some(MakeId(movement, k.value, counts.Get(k.value)));
      } else if movEntId.None? {
        return Err(NameError);
      }
    } else {
      movEntId := Some(movement + "-" + typeId + "-" + uniqueId);
    }
    entityMapper := entityMapper.Put(ent.id, movEntId.value);
    allEntities := allEntities.Put(movEntId.value, ent.(id := movEntId.value));
    r := Ok(Grouping(allEntities, entityMapper, Cursor(counts, movEntId)));
  }

  // ---- what the renumbering promises ----

  /** The id entity `i` of the stream is given, if the stream gets that far. */
  function IdAt(movement: string, ents: seq<IdmEntity>, i: nat): Option<string>
    requires i < |ents|
  {
    match Cursors(movement, ents[..i + 1])
    case Err(_) => None
    case Ok(c) => c.movEntId
  }

  /** The counter entity `i` takes, if it takes one. */
  function MintedAt(movement: string, ents: seq<IdmEntity>, i: nat): Option<(Kind, nat)>
    requires i < |ents|
  {
    match Cursors(movement, ents[..i])
    case Err(_) => None
    case Ok(c) => Minted(c, ents[i].id)
  }

  /** Every prefix of a successful cursor run succeeds, with counters no larger. */
  lemma {:induction false} CursorPrefix(movement: string, ents: seq<IdmEntity>, i: nat, j: nat)
    requires i <= j <= |ents| && Cursors(movement, ents[..j]).Ok?
    ensures Cursors(movement, ents[..i]).Ok?
    ensures forall k: Kind :: Cursors(movement, ents[..i]).value.counts.Get(k) <= Cursors(movement, ents[..j]).value.counts.Get(k)
    decreases j
  {
    if i < j {
      CursorLast(movement, ents, j - 1);
      CursorPrefix(movement, ents, i, j - 1);
    }
  }

  /** The step of entity `i`, spelled out. */
  lemma CursorLast(movement: string, ents: seq<IdmEntity>, i: nat)
    requires i < |ents| && Cursors(movement, ents[..i + 1]).Ok?
    ensures Cursors(movement, ents[..i]).Ok?
    ensures Cursors(movement, ents[..i + 1]) == Advance(Cursors(movement, ents[..i]).value, movement, ents[i].id)
  {
    assert ents[..i + 1][..i] == ents[..i];
    assert ents[..i + 1][i] == ents[i];
  }

  /** A renumbered entity gets the movement id of its type's next counter value, and the counter moves to it. */
  lemma MintedId(movement: string, ents: seq<IdmEntity>, i: nat, k: Kind, a: nat)
    requires i < |ents| && Cursors(movement, ents[..i + 1]).Ok?
    requires MintedAt(movement, ents, i) == Some((k, a))
    ensures IdAt(movement, ents, i) == Some(MakeId(movement, k, a))
    ensures Cursors(movement, ents[..i + 1]).value.counts.Get(k) == a
  {
    CursorLast(movement, ents, i);
  }

  /**
   * Two renumbered entities of one type take increasing counter values and
   * so get different ids, wherever in the documents they stand, as soon as
   * the run gets past the later one.
   */
  lemma MintedDistinct(movement: string, ents: seq<IdmEntity>, i: nat, j: nat, k: Kind, a: nat, b: nat)
    requires i < j < |ents| && Cursors(movement, ents[..j + 1]).Ok?
    requires MintedAt(movement, ents, i) == Some((k, a)) && MintedAt(movement, ents, j) == Some((k, b))
    ensures a < b
    ensures IdAt(movement, ents, i) != IdAt(movement, ents, j)
  {
    MintedOrder(movement, ents, i, j, k, a, b);
    MintedId(movement, ents, j, k, b);
    if IdAt(movement, ents, i) == IdAt(movement, ents, j) {
      MakeIdInjective(movement, k, a, k, b);
    }
  }

  /** The cursor run of every prefix of a successful run succeeds. */
  lemma CursorsOk(movement: string, ents: seq<IdmEntity>, m: nat)
    requires GroupAll(movement, ents).Ok? && m <= |ents|
    ensures Cursors(movement, ents[..m]).Ok?
  {
    GroupCursors(movement, ents);
    var c := Cursors(movement, ents);
    AppendTakes([], ents);
    assert Cursors(movement, ents[..|ents|]) == c;
    CursorPrefix(movement, ents, m, |ents|);
  }

  lemma MintedOrder(movement: string, ents: seq<IdmEntity>, i: nat, j: nat, k: Kind, a: nat, b: nat)
    requires i < j < |ents| && Cursors(movement, ents[..j + 1]).Ok?
    requires MintedAt(movement, ents, i) == Some((k, a)) && MintedAt(movement, ents, j) == Some((k, b))
    ensures a < b
    ensures IdAt(movement, ents, i) == Some(MakeId(movement, k, a))
  {
    CursorLast(movement, ents, j);
    CursorPrefix(movement, ents, i + 1, j);
    MintedId(movement, ents, i, k, a);
  }

  /**
   * An id whose rest has no 0, 1 or 2 keeps its rest as a slug under the
   * movement name, whatever came before; so a slug gives the same new id
   * in every document, and a counter such as `345` counts as a slug.
   */
  lemma SlugKept(c: Cursor, movement: string, id: string, typeId: string, slug: string)
    requires PartsOf(id) == Ok(IdParts(typeId, slug)) && !LooksNumbered(slug)
    ensures NewId(c, movement, id) == Ok(movement + "-" + typeId + "-" + slug)
    ensures Minted(c, id).None?
  {
  }

  /** `mov_ent_id` left over from the previous entity is reused when the type code has no counter. */
  lemma UnknownTypeReuses(c: Cursor, movement: string, id: string, p: IdParts)
    requires PartsOf(id) == Ok(p) && LooksNumbered(p.uniqueId) && KindOfCode(p.typeId).None?
    ensures c.movEntId.Some? ==> NewId(c, movement, id) == Ok(c.movEntId.value)
    ensures c.movEntId.None? ==> NewId(c, movement, id) == Err(NameError)
    ensures Minted(c, id).None?
  {
  }

  /**
   * `all_entities` holds, under each new id, the last entity given that id,
   * with only its id rewritten.
   */
  lemma {:induction false} GroupLastWins(movement: string, ents: seq<IdmEntity>, i: nat)
    requires i < |ents| && GroupAll(movement, ents).Ok?
    requires forall j :: i < j < |ents| ==> IdAt(movement, ents, j) != IdAt(movement, ents, i)
    ensures IdAt(movement, ents, i).Some?
    ensures GroupAll(movement, ents).value.allEntities.Get(IdAt(movement, ents, i).value)
         == Some(ents[i].(id := IdAt(movement, ents, i).value))
  {
    var n := |ents| - 1;
    var pre := ents[..n];
    LastStep(movement, ents);
    var g, g' := GroupAll(movement, pre).value, GroupAll(movement, ents).value;
    StepFacts(g, movement, ents[n]);
    var mov := g'.cursor.movEntId.value;
    if i < n {
      IdAtPrefix(movement, ents, n, i);
      forall j | i < j < |pre| ensures IdAt(movement, pre, j) != IdAt(movement, pre, i) {
        IdAtPrefix(movement, ents, n, j);
      }
      GroupLastWins(movement, pre, i);
      assert pre[i] == ents[i];
      assert IdAt(movement, ents, n) != IdAt(movement, ents, i);
      var id := IdAt(movement, ents, i).value;
      GetAfterPut(g.allEntities, g'.allEntities, mov, ents[n].(id := mov), id);
      assert g'.allEntities.Get(id) == g.allEntities.Get(id);
      assert g.allEntities.Get(id) == Some(ents[i].(id := id));
    } else {
      assert i == n;
      GetAfterPut(g.allEntities, g'.allEntities, mov, ents[n].(id := mov), mov);
    }
  }

  /** A lookup after an assignment. */
  lemma GetAfterPut<V>(d: Dict<string, V>, d': Dict<string, V>, k: string, v: V, key: string)
    requires d'.entries == d.entries[k := v]
    ensures d'.Get(key) == if key == k then Some(v) else d.Get(key)
  {
  }

  /** `entity_mapper` sends each old id to the new id of the last entity that had it. */
  lemma {:induction false} GroupMapperLastWins(movement: string, ents: seq<IdmEntity>, i: nat)
    requires i < |ents| && GroupAll(movement, ents).Ok?
    requires forall j :: i < j < |ents| ==> ents[j].id != ents[i].id
    ensures IdAt(movement, ents, i).Some?
    ensures GroupAll(movement, ents).value.entityMapper.Get(ents[i].id) == IdAt(movement, ents, i)
  {
    var n := |ents| - 1;
    var pre := ents[..n];
    LastStep(movement, ents);
    StepFacts(GroupAll(movement, pre).value, movement, ents[n]);
    if i < n {
      IdAtPrefix(movement, ents, n, i);
      forall j | i < j < |pre| ensures pre[j].id != pre[i].id {
        assert pre[j] == ents[j] && pre[i] == ents[i];
      }
      GroupMapperLastWins(movement, pre, i);
      assert IdAt(movement, pre, i) == IdAt(movement, ents, i);
    } else {
      assert i == n;
    }
  }

  /** The keys of `all_entities` are exactly the new ids given out. */
  lemma GroupKeys(movement: string, ents: seq<IdmEntity>, key: string)
    requires GroupAll(movement, ents).Ok?
    ensures key in GroupAll(movement, ents).value.allEntities.entries <==>
            exists j :: 0 <= j < |ents| && IdAt(movement, ents, j) == Some(key)
  {
    if key in GroupAll(movement, ents).value.allEntities.entries {
      var j := GroupKeySource(movement, ents, key);
    }
    forall j | 0 <= j < |ents| && IdAt(movement, ents, j) == Some(key)
      ensures key in GroupAll(movement, ents).value.allEntities.entries
    {
      GroupKeyGiven(movement, ents, j);
    }
  }

  /** Every key of `all_entities` is an id given to some entity. */
  lemma {:induction false} GroupKeySource(movement: string, ents: seq<IdmEntity>, key: string) returns (j: nat)
    requires GroupAll(movement, ents).Ok?
    requires key in GroupAll(movement, ents).value.allEntities.entries
    ensures j < |ents| && IdAt(movement, ents, j) == Some(key)
  {
    var n := |ents| - 1;
    var pre := ents[..n];
    LastStep(movement, ents);
    var g := GroupAll(movement, pre).value;
    StepFacts(g, movement, ents[n]);
    if key in g.allEntities.entries {
      j := GroupKeySource(movement, pre, key);
      IdAtPrefix(movement, ents, n, j);
    } else {
      j := n;
    }
  }

  /** Every id given to an entity is a key of `all_entities`. */
  lemma {:induction false} GroupKeyGiven(movement: string, ents: seq<IdmEntity>, j: nat)
    requires GroupAll(movement, ents).Ok? && j < |ents|
    ensures IdAt(movement, ents, j).Some?
    ensures IdAt(movement, ents, j).value in GroupAll(movement, ents).value.allEntities.entries
  {
    var n := |ents| - 1;
    var pre := ents[..n];
    LastStep(movement, ents);
    var g := GroupAll(movement, pre).value;
    StepFacts(g, movement, ents[n]);
    if j < n {
      GroupKeyGiven(movement, pre, j);
      IdAtPrefix(movement, ents, n, j);
    } else {
      assert j == n;
    }
  }

  /** The last entity of a successful run, and the id it was given. */
  lemma LastStep(movement: string, ents: seq<IdmEntity>)
    requires ents != [] && GroupAll(movement, ents).Ok?
    ensures GroupAll(movement, ents[..|ents| - 1]).Ok?
    ensures GroupAll(movement, ents) == GroupStep(GroupAll(movement, ents[..|ents| - 1]).value, movement, ents[|ents| - 1])
    ensures IdAt(movement, ents, |ents| - 1) == GroupAll(movement, ents).value.cursor.movEntId
  {
    assert ents[..|ents|] == ents;
    GroupCursors(movement, ents);
  }

  /** What one successful step writes. */
  lemma StepFacts(g: Grouping, movement: string, ent: IdmEntity)
    requires GroupStep(g, movement, ent).Ok?
    ensures var g' := GroupStep(g, movement, ent).value;
      && g'.cursor.movEntId.Some?
      && g'.allEntities.entries == g.allEntities.entries[g'.cursor.movEntId.value := ent.(id := g'.cursor.movEntId.value)]
      && g'.entityMapper.entries == g.entityMapper.entries[ent.id := g'.cursor.movEntId.value]
  {
  }

  lemma TakeTake<T>(xs: seq<T>, m: nat, j: nat)
    requires j <= m <= |xs|
    ensures xs[..m][..j] == xs[..j]
  {
  }

  /** The id an entity is given does not depend on what follows it. */
  lemma IdAtPrefix(movement: string, ents: seq<IdmEntity>, m: nat, j: nat)
    requires j < m <= |ents|
    ensures IdAt(movement, ents[..m], j) == IdAt(movement, ents, j)
  {
    TakeTake(ents, m, j + 1);
  }
}
