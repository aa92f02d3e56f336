/**
 * Layout schemata (layout/schemata/__init__.py): a schema names the entity types of a
 * farm layout and the parent of each. Loading validates the parsed document, builds the
 * map from entity slug to entity (with the implied `tray` and `enclosure`), refuses
 * entity names that clash with attributes of the schema object, and checks that every
 * entity has at most one child and an existing parent.
 *
 * A Python `dict` iterates in insertion order, so an entity map is modelled as a `map`
 * together with the sequence of its keys in insertion order.
 */
module Schemata {
  import opened Wrappers
  import opened Slugs

  /** An entity type of a schema: its slug and the slug of its parent. */
  datatype Entity = Entity(name: string, parent: string)

  /** An entity as it appears in a parsed schema document; a missing key is `None`. */
  datatype EntityDoc = EntityDoc(name: Option<string>, parent: Option<string>)

  /** A parsed schema document: `name`, `entities` and `tray-parent`; a missing key is `None`. */
  datatype SchemaDoc = SchemaDoc(name: Option<string>, entities: Option<seq<EntityDoc>>, trayParent: Option<string>)

  /** A document after validation: names and parents canonicalised, defaults filled in. */
  datatype Validated = Validated(name: string, entities: seq<Entity>, trayParent: string)

  /**
   * A loaded schema. `order` and `dynamicOrder` are the insertion orders of the keys of
   * `entities` and `dynamicEntities`.
   */
  datatype Schema = Schema(
    name: string,
    entities: map<string, Entity>,
    order: seq<string>,
    dynamicEntities: map<string, Entity>,
    dynamicOrder: seq<string>)

  const Tray := "tray"
  const Enclosure := "enclosure"

  /** The attributes a schema object already has when its entities are attached to it. */
  const SchemaAttributes: set<string> := {"name", "entities", "dynamic_entities", "schema", "check"}

  // ---------------------------------------------------------------------------
  // Validation of the parsed document (the voluptuous schemas of Entity and Schema)
  // ---------------------------------------------------------------------------

  function ValidateEntity(d: EntityDoc): Option<Entity> {
    if d.name.Some? && d.parent.Some? then Some(Entity(ToSlug(d.name.value), ToSlug(d.parent.value)))
    else None
  }

  /** A list of entities validates only if every element does. */
  function ValidateEntities(ds: seq<EntityDoc>): (r: Option<seq<Entity>>)
    ensures r.Some? <==> forall i :: 0 <= i < |ds| ==> ValidateEntity(ds[i]).Some?
    ensures r.Some? ==> |r.value| == |ds| && forall i :: 0 <= i < |ds| ==> ValidateEntity(ds[i]) == Some(r.value[i])
    decreases |ds|
  {
    if ds == [] then Some([])
    else
      var rest := ValidateEntities(ds[1..]);
      assert forall i :: 1 <= i < |ds| ==> ds[1..][i - 1] == ds[i];
      match ValidateEntity(ds[0])
      case None => None
      case Some(e) => if rest.None? then None else Some([e] + rest.value)
  }

  function Validate(doc: SchemaDoc): Option<Validated> {
    if doc.name.None? then None
    else
      match ValidateEntities(doc.entities.GetOr([]))
      case None => None
      case Some(es) =>
        Some(Validated(doc.name.value, es,
          if doc.trayParent.Some? then ToSlug(doc.trayParent.value) else Enclosure))
  }

  /**
   * `name` is required, every entity needs a `name` and a `parent`, both canonicalised,
   * `entities` defaults to the empty list and `tray-parent` to "enclosure".
   */
  lemma ValidateDefaults(doc: SchemaDoc)
    ensures Validate(doc).Some? <==>
      doc.name.Some? &&
      forall i :: 0 <= i < |doc.entities.GetOr([])| ==>
        doc.entities.GetOr([])[i].name.Some? && doc.entities.GetOr([])[i].parent.Some?
    ensures doc.name.Some? && doc.entities.None? ==> Validate(doc).Some? && Validate(doc).value.entities == []
    ensures Validate(doc).Some? ==>
      var v := Validate(doc).value;
      && v.name == doc.name.value
      && v.trayParent == (if doc.trayParent.Some? then ToSlug(doc.trayParent.value) else "enclosure")
      && |v.entities| == |doc.entities.GetOr([])|
      && forall i :: 0 <= i < |v.entities| ==>
           v.entities[i] == Entity(ToSlug(doc.entities.GetOr([])[i].name.value),
                                   ToSlug(doc.entities.GetOr([])[i].parent.value))
  {
    var ds := doc.entities.GetOr([]);
    assert forall i :: 0 <= i < |ds| ==> (ValidateEntity(ds[i]).Some? <==> ds[i].name.Some? && ds[i].parent.Some?);
  }

  /** `Entity(attrs)` runs the entity validator again on validated attributes. */
  function Reslug(e: Entity): Entity {
    Entity(ToSlug(e.name), ToSlug(e.parent))
  }

  /** Validated names and parents are canonical, so validating them again changes nothing. */
  lemma ValidatedAreCanonical(doc: SchemaDoc, v: Validated)
    requires Validate(doc) == Some(v)
    ensures forall i :: 0 <= i < |v.entities| ==> Reslug(v.entities[i]) == v.entities[i] && IsSlug(v.entities[i].name)
    ensures ToSlug(v.trayParent) == v.trayParent
  {
    var ds := doc.entities.GetOr([]);
    forall i | 0 <= i < |v.entities|
      ensures Reslug(v.entities[i]) == v.entities[i] && IsSlug(v.entities[i].name)
    {
      assert ValidateEntity(ds[i]) == Some(v.entities[i]);
      ToSlugIdempotent(ds[i].name.value);
      ToSlugIdempotent(ds[i].parent.value);
      ToSlugIsSlug(ds[i].name.value);
    }
    if doc.trayParent.Some? {
      ToSlugIdempotent(doc.trayParent.value);
    } else {
      EnclosureSlug();
    }
  }

  // ---------------------------------------------------------------------------
  // Building the entity map (Schema.__init__)
  // ---------------------------------------------------------------------------

  /** The key order of a dict after `d[k] = ...`: a new key goes last, an old one stays put. */
  function AppendKey(order: seq<string>, k: string): seq<string> {
    if k in order then order else order + [k]
  }

  /** The entity dict after inserting `es` in turn; a later entity replaces an earlier one. */
  function DeclaredMap(es: seq<Entity>): map<string, Entity>
    decreases |es|
  {
    if es == [] then map[]
    else DeclaredMap(es[..|es| - 1])[es[|es| - 1].name := es[|es| - 1]]
  }

  function DeclaredOrder(es: seq<Entity>): seq<string>
    decreases |es|
  {
    if es == [] then []
    else AppendKey(DeclaredOrder(es[..|es| - 1]), es[|es| - 1].name)
  }

  function TrayEntity(trayParent: string): Entity {
    Entity(ToSlug(Tray), ToSlug(trayParent))
  }

  /** `Entity(name='enclosure', parent=None)`: the validator turns `None` into `to_slug(None)`. */
  function EnclosureEntity(): Entity {
    Entity(ToSlug(Enclosure), ToSlug("None"))
  }

  /** The schema `Schema.__init__` builds from a validated document, before its checks. */
  function Assemble(v: Validated): Schema {
    var declared := DeclaredMap(v.entities);
    var declaredOrder := DeclaredOrder(v.entities);
    Schema(v.name,
      declared[Tray := TrayEntity(v.trayParent)][Enclosure := EnclosureEntity()],
      AppendKey(AppendKey(declaredOrder, Tray), Enclosure),
      declared, declaredOrder)
  }

  /** Some entity's name is already an attribute of the schema object. */
  predicate HasReservedName(s: Schema) {
    exists k :: k in s.entities && s.entities[k].name in SchemaAttributes
  }

  predicate ParentOk(s: Schema, k: string)
    requires k in s.entities
  {
    s.entities[k].parent in s.entities && s.entities[k].parent != Tray
  }

  /**
   * What `Schema.check` accepts: every entity other than the enclosure has a parent that
   * exists and is not the tray, and no two such entities share a parent.
   */
  predicate ChainShaped(s: Schema) {
    && (forall k {:trigger ParentOk(s, k)} :: k in s.entities && s.entities[k].name != Enclosure ==> ParentOk(s, k))
    && (forall k1, k2 ::
          k1 in s.entities && k2 in s.entities && k1 != k2 &&
          s.entities[k1].name != Enclosure && s.entities[k2].name != Enclosure
          ==> s.entities[k1].parent != s.entities[k2].parent)
  }

  /** The schema a document loads to, or `None` when loading raises. */
  function Construct(doc: SchemaDoc): (r: Option<Schema>)
    ensures r.Some? ==> Tray in r.value.entities && Enclosure in r.value.entities
  {
    match Validate(doc)
    case None => None
    case Some(v) =>
      AssembleWellformed(doc, v);
      var s := Assemble(v);
      if HasReservedName(s) || !ChainShaped(s) then None else Some(s)
  }

  // ---------------------------------------------------------------------------
  // Shape of an assembled schema
  // ---------------------------------------------------------------------------

  /** `order` lists the keys of `m`, each once. */
  ghost predicate Enumerates(order: seq<string>, m: map<string, Entity>) {
    && (forall i, j :: 0 <= i < j < |order| ==> order[i] != order[j])
    && (forall k :: k in m <==> k in order)
  }

  ghost predicate KeyedByName(m: map<string, Entity>) {
    forall k :: k in m ==> m[k].name == k
  }

  ghost predicate Wellformed(s: Schema) {
    && Tray in s.entities && Enclosure in s.entities
    && KeyedByName(s.entities) && Enumerates(s.order, s.entities)
    && KeyedByName(s.dynamicEntities) && Enumerates(s.dynamicOrder, s.dynamicEntities)
    && s.dynamicEntities.Keys <= s.entities.Keys
    && (forall k :: k in s.entities ==> IsSlug(k))
  }

  lemma AppendKeyEnumerates(order: seq<string>, m: map<string, Entity>, e: Entity)
    requires Enumerates(order, m)
    ensures Enumerates(AppendKey(order, e.name), m[e.name := e])
  {
  }

  /** Every key of the declared map is the name of some declared entity, and vice versa. */
  lemma {:induction false} DeclaredShape(es: seq<Entity>)
    ensures KeyedByName(DeclaredMap(es))
    ensures Enumerates(DeclaredOrder(es), DeclaredMap(es))
    ensures forall k :: k in DeclaredMap(es) <==> exists i :: 0 <= i < |es| && es[i].name == k
    decreases |es|
  {
    if es != [] {
      var init := es[..|es| - 1];
      DeclaredShape(init);
      AppendKeyEnumerates(DeclaredOrder(init), DeclaredMap(init), es[|es| - 1]);
      forall k | k in DeclaredMap(es)
        ensures exists i :: 0 <= i < |es| && es[i].name == k
      {
        if k != es[|es| - 1].name {
          var i :| 0 <= i < |init| && init[i].name == k;
          assert es[i] == init[i];
        }
      }
      forall k | exists i :: 0 <= i < |es| && es[i].name == k
        ensures k in DeclaredMap(es)
      {
        var i :| 0 <= i < |es| && es[i].name == k;
        if i < |init| {
          assert init[i] == es[i];
        }
      }
    }
  }

  /** A later declaration with the same slug overwrites an earlier one. */
  lemma {:induction false} DeclaredLastWins(es: seq<Entity>, j: nat)
    requires j < |es|
    requires forall i :: j < i < |es| ==> es[i].name != es[j].name
    ensures es[j].name in DeclaredMap(es) && DeclaredMap(es)[es[j].name] == es[j]
    decreases |es|
  {
    if j < |es| - 1 {
      var init := es[..|es| - 1];
      assert init[j] == es[j];
      DeclaredLastWins(init, j);
    }
  }

  /** Adding the tray and the enclosure keeps the map keyed by name and enumerated. */
  lemma AddReserved(order: seq<string>, m: map<string, Entity>, trayParent: string)
    requires KeyedByName(m) && Enumerates(order, m)
    ensures var m' := m[Tray := TrayEntity(trayParent)][Enclosure := EnclosureEntity()];
      KeyedByName(m') && Enumerates(AppendKey(AppendKey(order, Tray), Enclosure), m')
  {
    TraySlug();
    EnclosureSlug();
    AppendKeyEnumerates(order, m, TrayEntity(trayParent));
    AppendKeyEnumerates(AppendKey(order, Tray), m[Tray := TrayEntity(trayParent)], EnclosureEntity());
  }

  /** Every key of the declared map is the name of a declared entity: this finds one. */
  lemma DeclaredIndex(es: seq<Entity>, k: string) returns (i: nat)
    requires k in DeclaredMap(es)
    ensures i < |es| && es[i].name == k
  {
    DeclaredShape(es);
    i :| 0 <= i < |es| && es[i].name == k;
  }

  /** Every key of an assembled schema is a slug. */
  lemma AssembledSlugs(doc: SchemaDoc, v: Validated)
    requires Validate(doc) == Some(v)
    ensures forall k :: k in Assemble(v).entities ==> IsSlug(k)
  {
    forall k | k in Assemble(v).entities
      ensures IsSlug(k)
    {
      if k == Tray || k == Enclosure {
        AllWordCharsIsSlug(k);
      } else {
        var i := DeclaredIndex(v.entities, k);
        ValidatedAreCanonical(doc, v);
      }
    }
  }

  lemma AssembleWellformed(doc: SchemaDoc, v: Validated)
    requires Validate(doc) == Some(v)
    ensures Wellformed(Assemble(v))
  {
    DeclaredShape(v.entities);
    AddReserved(DeclaredOrder(v.entities), DeclaredMap(v.entities), v.trayParent);
    AssembledSlugs(doc, v);
  }

  /**
   * After construction `entities` holds the declared entities (a later declaration with
   * the same slug replacing an earlier one) plus `tray`, whose parent is the tray parent,
   * and `enclosure`, whose parent is `to_slug(None)`; `dynamic_entities` is the snapshot
   * taken before those two were added.
   */
  lemma ConstructEntities(doc: SchemaDoc, s: Schema)
    requires Construct(doc) == Some(s)
    ensures Validate(doc).Some?
    ensures var v := Validate(doc).value;
      && s.name == doc.name.value
      && s.dynamicEntities == DeclaredMap(v.entities)
      && s.entities == DeclaredMap(v.entities)[Tray := Entity(Tray, v.trayParent)][Enclosure := Entity(Enclosure, "none")]
  {
    var v := Validate(doc).value;
    ValidatedAreCanonical(doc, v);
    TraySlug();
    EnclosureSlug();
    NoneSlug();
  }

  // ---------------------------------------------------------------------------
  // Schema.check
  // ---------------------------------------------------------------------------

  /**
   * What the walk of `check` needs: the tray and enclosure exist, keys are names, and
   * `order` lists distinct keys, as many as there are entries.
   */
  ghost predicate Walkable(m: map<string, Entity>, order: seq<string>) {
    && Tray in m && Enclosure in m && KeyedByName(m)
    && (forall i, j :: 0 <= i < j < |order| ==> order[i] != order[j])
    && (forall j :: 0 <= j < |order| ==> order[j] in m)
    && |order| == |m|
  }

  ghost function Listed(order: seq<string>): set<string> {
    set j | 0 <= j < |order| :: order[j]
  }

  lemma {:induction false} ListedCard(order: seq<string>)
    requires forall i, j :: 0 <= i < j < |order| ==> order[i] != order[j]
    ensures |Listed(order)| == |order|
    decreases |order|
  {
    if order != [] {
      var init := order[..|order| - 1];
      ListedCard(init);
      assert Listed(order) == Listed(init) + {order[|order| - 1]};
      assert order[|order| - 1] !in Listed(init);
    }
  }

  /** A walkable order lists every key: this finds its position. */
  lemma PositionOf(m: map<string, Entity>, order: seq<string>, k: string) returns (j: nat)
    requires Walkable(m, order) && k in m
    ensures j < |order| && order[j] == k
  {
    ListedCard(order);
    SubsetOfSameSize(Listed(order), m.Keys);
    assert k in Listed(order);
    j :| 0 <= j < |order| && order[j] == k;
  }

  lemma WellformedWalkable(s: Schema)
    requires Wellformed(s)
    ensures Walkable(s.entities, s.order)
  {
    ListedCard(s.order);
    assert Listed(s.order) == s.entities.Keys;
  }

  /** `ChainShaped` restricted to the first `i` entities in iteration order. */
  ghost predicate PrefixOk(m: map<string, Entity>, order: seq<string>, i: nat)
    requires Walkable(m, order) && i <= |order|
  {
    && (forall j :: 0 <= j < i && order[j] != Enclosure ==> m[order[j]].parent in m && m[order[j]].parent != Tray)
    && (forall j1, j2 :: 0 <= j1 < j2 < i && order[j1] != Enclosure && order[j2] != Enclosure
          ==> m[order[j1]].parent != m[order[j2]].parent)
  }

  lemma PrefixOkComplete(s: Schema)
    requires Walkable(s.entities, s.order) && PrefixOk(s.entities, s.order, |s.order|)
    ensures ChainShaped(s)
  {
    var m, order := s.entities, s.order;
    forall k | k in m && m[k].name != Enclosure
      ensures ParentOk(s, k)
    {
      var j := PositionOf(m, order, k);
    }
    forall k1, k2 | k1 in m && k2 in m && k1 != k2 && m[k1].name != Enclosure && m[k2].name != Enclosure
      ensures m[k1].parent != m[k2].parent
    {
      var j1 := PositionOf(m, order, k1);
      var j2 := PositionOf(m, order, k2);
      if j1 > j2 {
        j1, j2 := j2, j1;
      }
    }
  }

  /** An injective image of a finite set has as many elements as the set. */
  lemma {:induction false} InjectiveParentsCard(d: set<string>, m: map<string, Entity>)
    requires d <= m.Keys
    requires forall k1, k2 :: k1 in d && k2 in d && k1 != k2 ==> m[k1].parent != m[k2].parent
    ensures |set k | k in d :: m[k].parent| == |d|
    decreases d
  {
    if d != {} {
      var x :| x in d;
      var rest := d - {x};
      InjectiveParentsCard(rest, m);
      assert (set k | k in d :: m[k].parent) == (set k | k in rest :: m[k].parent) + {m[x].parent};
      assert m[x].parent !in (set k | k in rest :: m[k].parent);
    }
  }

  /**
   * Counting argument for layout/schemata/__init__.py:97-102: there are |E|-1 entities
   * with a parent and |E|-1 entities that may be a parent, and the parents are distinct,
   * so every entity other than the tray ends up with a child.
   */
  lemma ParentsCover(s: Schema)
    requires Tray in s.entities && Enclosure in s.entities && KeyedByName(s.entities)
    requires ChainShaped(s)
    ensures (set k | k in s.entities && k != Enclosure :: s.entities[k].parent) == s.entities.Keys - {Tray}
  {
    var m := s.entities;
    var d := m.Keys - {Enclosure};
    var image := set k | k in d :: m[k].parent;
    forall k1, k2 | k1 in d && k2 in d && k1 != k2
      ensures m[k1].parent != m[k2].parent
    {
      assert m[k1].name == k1 && m[k2].name == k2;
    }
    InjectiveParentsCard(d, m);
    var candidates := m.Keys - {Tray};
    forall p | p in image
      ensures p in candidates
    {
      var k :| k in d && m[k].parent == p;
      assert m[k].name == k;
      assert ParentOk(s, k);
    }
    assert |d| == |m.Keys| - 1;
    assert |candidates| == |m.Keys| - 1;
    SubsetOfSameSize(image, candidates);
    assert image == (set k | k in m && k != Enclosure :: m[k].parent);
  }

  lemma SubsetOfSameSize<T>(a: set<T>, b: set<T>)
    requires a <= b && |a| == |b|
    ensures a == b
  {
    assert b == a + (b - a);
    assert |b - a| == 0;
  }

  /**
   * The state of the walk of `check` after `i` entities: the prefix is chain-shaped,
   * each visited entity's parent has been recorded with that entity as its child, and
   * `without` holds the candidate parents not yet given a child.
   */
  ghost predicate WalkState(m: map<string, Entity>, order: seq<string>, i: nat,
                            children: map<string, string>, without: set<string>)
    requires Walkable(m, order) && i <= |order|
  {
    && PrefixOk(m, order, i)
    && (forall j :: 0 <= j < i && order[j] != Enclosure ==> m[order[j]].parent in children)
    && (forall p :: p in children ==>
          children[p] in order[..i] && children[p] in m && children[p] != Enclosure && m[children[p]].parent == p)
    && without == m.Keys - {Tray} - children.Keys
  }

  lemma WalkStart(m: map<string, Entity>, order: seq<string>)
    requires Walkable(m, order)
    ensures WalkState(m, order, 0, map[], m.Keys - {Tray})
  {
  }

  lemma WalkSkip(m: map<string, Entity>, order: seq<string>, i: nat,
                 children: map<string, string>, without: set<string>)
    requires Walkable(m, order) && i < |order| && order[i] == Enclosure
    requires WalkState(m, order, i, children, without)
    ensures WalkState(m, order, i + 1, children, without)
  {
    forall p | p in children
      ensures children[p] in order[..i + 1]
    {
      assert order[..i + 1] == order[..i] + [order[i]];
    }
  }

  lemma WalkAdopt(m: map<string, Entity>, order: seq<string>, i: nat,
                  children: map<string, string>, without: set<string>)
    requires Walkable(m, order) && i < |order| && order[i] != Enclosure
    requires WalkState(m, order, i, children, without)
    requires m[order[i]].parent in without
    ensures WalkState(m, order, i + 1, children[m[order[i]].parent := order[i]], without - {m[order[i]].parent})
  {
    var p := m[order[i]].parent;
    assert order[..i + 1] == order[..i] + [order[i]];
    forall j1, j2 | 0 <= j1 < j2 < i + 1 && order[j1] != Enclosure && order[j2] != Enclosure
      ensures m[order[j1]].parent != m[order[j2]].parent
    {
      if j2 == i {
        assert m[order[j1]].parent in children;
      }
    }
  }

  /** Meeting a parent that is the tray, is missing or already has a child ends the walk. */
  lemma WalkReject(s: Schema, i: nat, children: map<string, string>, without: set<string>)
    requires Walkable(s.entities, s.order) && i < |s.order| && s.order[i] != Enclosure
    requires WalkState(s.entities, s.order, i, children, without)
    requires s.entities[s.order[i]].parent !in without
    ensures !ChainShaped(s)
  {
    var m, order := s.entities, s.order;
    var k := order[i];
    var p := m[k].parent;
    if p in children {
      var other := children[p];
      var j :| 0 <= j < i && order[..i][j] == other;
      assert order[j] != order[i];
      assert m[other].name != Enclosure && m[k].name != Enclosure;
    } else {
      assert m[k].name != Enclosure;
      assert !ParentOk(s, k);
    }
  }

  /**
   * `Schema.check`: walks the entities in insertion order, popping each parent from the
   * entities still without a child. It accepts exactly the chain-shaped schemas.
   */
  method Check(s: Schema) returns (ok: bool)
    requires Walkable(s.entities, s.order)
    ensures ok == ChainShaped(s)
  {
    var withoutChildren := s.entities - {Tray};
    var children: map<string, string> := map[];
    WalkStart(s.entities, s.order);
    var i := 0;
    while i < |s.order|
      invariant 0 <= i <= |s.order|
      invariant WalkState(s.entities, s.order, i, children, withoutChildren.Keys)
    {
      var entity := s.entities[s.order[i]];
      if entity.name == Enclosure {
        WalkSkip(s.entities, s.order, i, children, withoutChildren.Keys);
      } else if entity.parent == Tray {
        // trays are not allowed to have children
        WalkReject(s, i, children, withoutChildren.Keys);
        return false;
      } else if entity.parent in withoutChildren {
        WalkAdopt(s.entities, s.order, i, children, withoutChildren.Keys);
        withoutChildren := withoutChildren - {entity.parent};
        children := children[entity.parent := entity.name];
      } else {
        // the parent already has a child, or does not exist
        WalkReject(s, i, children, withoutChildren.Keys);
        return false;
      }
      i := i + 1;
    }
    WalkComplete(s, children.Keys);
    // The final "entities without children" error of the source cannot be reached.
    assert withoutChildren.Keys == {};
    ok := true;
  }

  /**
   * After a complete walk the schema is chain-shaped, and every entity other than the
   * tray has been given a child, so none is left "without children".
   */
  lemma WalkComplete(s: Schema, withChild: set<string>)
    requires Walkable(s.entities, s.order)
    requires PrefixOk(s.entities, s.order, |s.order|)
    requires forall j :: 0 <= j < |s.order| && s.order[j] != Enclosure ==> s.entities[s.order[j]].parent in withChild
    ensures ChainShaped(s)
    ensures s.entities.Keys - {Tray} <= withChild
  {
    var m, order := s.entities, s.order;
    PrefixOkComplete(s);
    ParentsCover(s);
    forall p | p in m.Keys - {Tray}
      ensures p in withChild
    {
      var k :| k in m && k != Enclosure && m[k].parent == p;
      var j := PositionOf(m, order, k);
    }
  }

  /**
   * `Schema(attrs)`: validates the document, inserts the declared entities, snapshots them
   * as the dynamic entities, adds the tray and the enclosure, refuses names that are
   * already attributes of the schema, and runs `check`.
   */
  method NewSchema(doc: SchemaDoc) returns (r: Option<Schema>)
    ensures r == Construct(doc)
  {
    var validated := Validate(doc);
    if validated.None? {
      return None;
    }
    var v := validated.value;
    ValidatedAreCanonical(doc, v);
    var entities, order := InsertEntities(v.entities);
    var dynamicEntities, dynamicOrder := entities, order;
    entities := entities[Tray := TrayEntity(v.trayParent)];
    order := AppendKey(order, Tray);
    entities := entities[Enclosure := EnclosureEntity()];
    order := AppendKey(order, Enclosure);
    var s := Schema(v.name, entities, order, dynamicEntities, dynamicOrder);
    assert s == Assemble(v);
    AssembleWellformed(doc, v);
    WellformedWalkable(s);
    var clash := AttachEntities(s);
    if clash {
      return None;
    }
    var ok := Check(s);
    r := if ok then Some(s) else None;
  }

  /** The loop of `Schema.__init__` that builds `self.entities` from the validated list. */
  method InsertEntities(es: seq<Entity>) returns (entities: map<string, Entity>, order: seq<string>)
    requires forall i :: 0 <= i < |es| ==> Reslug(es[i]) == es[i]
    ensures entities == DeclaredMap(es) && order == DeclaredOrder(es)
  {
    entities, order := map[], [];
    var i := 0;
    while i < |es|
      invariant 0 <= i <= |es|
      invariant entities == DeclaredMap(es[..i])
      invariant order == DeclaredOrder(es[..i])
    {
      var entity := Reslug(es[i]);
      assert es[..i + 1][..i] == es[..i];
      entities := entities[entity.name := entity];
      order := AppendKey(order, entity.name);
      i := i + 1;
    }
    assert es[..i] == es;
  }

  /**
   * The loop of `Schema.__init__` that attaches each entity as an attribute of the schema,
   * refusing a name the object already has. The names are distinct, so only the fixed
   * attributes can clash.
   */
  method AttachEntities(s: Schema) returns (clash: bool)
    requires Walkable(s.entities, s.order)
    ensures clash == HasReservedName(s)
  {
    var attributes := SchemaAttributes;
    var j := 0;
    while j < |s.order|
      invariant 0 <= j <= |s.order|
      invariant forall j' :: 0 <= j' < j ==> s.entities[s.order[j']].name !in SchemaAttributes
      invariant attributes == SchemaAttributes + set j' | 0 <= j' < j :: s.order[j']
    {
      var entity := s.entities[s.order[j]];
      if entity.name in attributes {
        assert entity.name in SchemaAttributes;
        return true;
      }
      attributes := attributes + {entity.name};
      j := j + 1;
    }
    forall k | k in s.entities
      ensures s.entities[k].name !in SchemaAttributes
    {
      var p := PositionOf(s.entities, s.order, k);
    }
    return false;
  }

  // ---------------------------------------------------------------------------
  // What a loaded schema satisfies
  // ---------------------------------------------------------------------------

  /** The entity map of an assembled schema holds the implied two and is keyed by name. */
  lemma AssembledKeyed(v: Validated)
    ensures Tray in Assemble(v).entities && Enclosure in Assemble(v).entities
    ensures KeyedByName(Assemble(v).entities)
  {
    DeclaredShape(v.entities);
    TraySlug();
    EnclosureSlug();
  }

  /** In a chain-shaped schema every entity other than the tray is some entity's parent. */
  lemma ChainShapedCovers(s: Schema)
    requires Tray in s.entities && Enclosure in s.entities && KeyedByName(s.entities)
    requires ChainShaped(s)
    ensures forall k :: k in s.entities && k != Tray ==>
      exists c :: c in s.entities && c != Enclosure && s.entities[c].parent == k
  {
    var m := s.entities;
    ParentsCover(s);
    forall k | k in m && k != Tray
      ensures exists c :: c in m && c != Enclosure && m[c].parent == k
    {
      assert k in m.Keys - {Tray};
      assert k in (set c | c in m && c != Enclosure :: m[c].parent);
      var c :| c in m && c != Enclosure && m[c].parent == k;
    }
  }

  /**
   * A loaded schema is well formed and chain-shaped, no entity names a schema attribute,
   * the tray has no child, and every other entity is the parent of exactly one entity.
   */
  lemma ConstructedShape(doc: SchemaDoc, s: Schema)
    requires Construct(doc) == Some(s)
    ensures Wellformed(s) && ChainShaped(s) && !HasReservedName(s)
    ensures forall c :: c in s.entities && c != Enclosure ==> s.entities[c].parent != Tray
    ensures forall k :: k in s.entities && k != Tray ==>
      exists c :: c in s.entities && c != Enclosure && s.entities[c].parent == k
  {
    var v := Validate(doc).value;
    AssembleWellformed(doc, v);
    assert s == Assemble(v);
    forall c | c in s.entities && c != Enclosure
      ensures s.entities[c].parent != Tray
    {
      assert ParentOk(s, c);
    }
    ChainShapedCovers(s);
  }

  /** An entity whose last declaration names a schema attribute makes loading fail. */
  lemma ReservedNameRejected(doc: SchemaDoc, i: nat)
    requires Validate(doc).Some? && i < |Validate(doc).value.entities|
    requires Validate(doc).value.entities[i].name in SchemaAttributes
    ensures Construct(doc).None?
  {
    var v := Validate(doc).value;
    var k := v.entities[i].name;
    var s := Assemble(v);
    DeclaredShape(v.entities);
    AssembledKeyed(v);
    assert k in DeclaredMap(v.entities);
    assert k in s.entities && s.entities[k].name in SchemaAttributes;
    assert HasReservedName(s);
  }

  /**
   * An entity declared last under its name, other than the implied two, whose parent is
   * the tray, is missing, or is shared with another such entity, makes loading fail.
   */
  lemma BadParentRejected(doc: SchemaDoc, i: nat)
    requires Validate(doc).Some? && i < |Validate(doc).value.entities|
    requires var es := Validate(doc).value.entities;
      && es[i].name != Tray && es[i].name != Enclosure
      && forall j :: i < j < |es| ==> es[j].name != es[i].name
    requires var es := Validate(doc).value.entities;
      || es[i].parent == Tray
      || es[i].parent !in Assemble(Validate(doc).value).entities
      || exists c :: c in Assemble(Validate(doc).value).entities && c != Enclosure && c != es[i].name
           && Assemble(Validate(doc).value).entities[c].parent == es[i].parent
    ensures Construct(doc).None?
  {
    var v := Validate(doc).value;
    var e := v.entities[i];
    DeclaredLastWins(v.entities, i);
    var s := Assemble(v);
    AssembledKeyed(v);
    assert e.name in s.entities && s.entities[e.name] == e;
    if e.parent == Tray || e.parent !in s.entities {
      assert !ParentOk(s, e.name);
    } else {
      var c :| c in s.entities && c != Enclosure && c != e.name && s.entities[c].parent == e.parent;
      assert s.entities[c].name == c;
    }
    assert !ChainShaped(s);
  }

  /** A document declaring two entities, `a` and `b`, each the parent of the other. */
  const CycleDoc := SchemaDoc(Some("cycle"),
    Some([EntityDoc(Some("a"), Some("b")), EntityDoc(Some("b"), Some("a"))]), None)

  const CycleEntities := [Entity("a", "b"), Entity("b", "a")]

  const CycleSchema := Schema("cycle",
    map["a" := Entity("a", "b"), "b" := Entity("b", "a"),
        Tray := Entity(Tray, Enclosure), Enclosure := Entity(Enclosure, "none")],
    ["a", "b", Tray, Enclosure],
    map["a" := Entity("a", "b"), "b" := Entity("b", "a")],
    ["a", "b"])

  lemma CycleValidates()
    ensures Validate(CycleDoc) == Some(Validated("cycle", CycleEntities, Enclosure))
  {
    WordIsOwnSlug("a");
    WordIsOwnSlug("b");
    var ds, es := CycleDoc.entities.value, CycleEntities;
    assert ValidateEntity(ds[0]) == Some(es[0]) && ValidateEntity(ds[1]) == Some(es[1]);
    var r := ValidateEntities(ds);
    assert r.value[0] == es[0] && r.value[1] == es[1];
    assert r.value == es;
  }

  lemma CycleAssembles()
    ensures Assemble(Validated("cycle", CycleEntities, Enclosure)) == CycleSchema
  {
    TraySlug();
    EnclosureSlug();
    NoneSlug();
    var es := CycleEntities;
    assert es[..1] == [Entity("a", "b")] && es[..1][..0] == [];
    assert DeclaredMap(es[..1]) == map["a" := Entity("a", "b")];
    assert DeclaredOrder(es[..1]) == ["a"];
    assert DeclaredMap(es) == CycleSchema.dynamicEntities;
    assert DeclaredOrder(es) == ["a", "b"];
    assert AppendKey(["a", "b"], Tray) == ["a", "b", Tray];
    assert AppendKey(["a", "b", Tray], Enclosure) == ["a", "b", Tray, Enclosure];
    assert TrayEntity(Enclosure) == Entity(Tray, Enclosure);
    assert EnclosureEntity() == Entity(Enclosure, "none");
  }

  lemma CycleChecks()
    ensures ChainShaped(CycleSchema) && !HasReservedName(CycleSchema)
  {
    assert CycleSchema.entities.Keys == {"a", "b", Tray, Enclosure};
  }

  /**
   * `check` does not ask the entities to hang from the enclosure: two entities that are
   * each other's parent load, although neither leads to the enclosure.
   */
  lemma DetachedCycleAccepted()
    ensures Construct(CycleDoc) == Some(CycleSchema)
    ensures CycleSchema.entities["a"].parent == "b" && CycleSchema.entities["b"].parent == "a"
  {
    CycleValidates();
    CycleAssembles();
    CycleChecks();
  }
}
