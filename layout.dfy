/**
 * Layout models (layout/models.py): the parent field of a layout object, which resolves
 * its target model through the schema of the active layout; the models generated from
 * the entities of every allowed layout; and the default name a layout object receives
 * when it is saved without one.
 *
 * Generated Django model classes are modelled as descriptors: the class name, the
 * `model_name` attribute and the parent field.
 */
module Layout {
  import opened Wrappers
  import opened Slugs
  import opened Decimal
  import opened Schemata

  // ---------------------------------------------------------------------------
  // ParentField
  // ---------------------------------------------------------------------------

  /** `ParentField(model_name)`: a foreign key whose target depends on the active layout. */
  datatype ParentField = ParentField(modelName: string)

  /** `all_schemata[current_layout]` with a name that is not a key raises `KeyError`. */
  datatype LookupError = UnknownLayout(layout: string)

  /**
   * `ParentField.get_other_model`: no active layout resolves to nothing; otherwise the
   * parent slug of the entity named `model_name` in the active schema, if there is one.
   */
  function GetOtherModel(field: ParentField, currentLayout: Option<string>, registry: map<string, Schema>)
    : (r: Result<Option<string>, LookupError>)
    ensures currentLayout.None? ==> r == Success(None)
    ensures r.Failure? <==> currentLayout.Some? && currentLayout.value !in registry
    ensures r.Success? && r.value.Some? ==>
      currentLayout.Some? && field.modelName in registry[currentLayout.value].entities &&
      r.value.value == registry[currentLayout.value].entities[field.modelName].parent
    ensures r.Success? && r.value.None? ==>
      currentLayout.None? || field.modelName !in registry[currentLayout.value].entities
  {
    match currentLayout
    case None => Success(None)
    case Some(layout) =>
      if layout !in registry then Failure(UnknownLayout(layout))
      else
        var schema := registry[layout];
        if field.modelName in schema.entities then Success(Some(schema.entities[field.modelName].parent))
        else Success(None)
  }

  /** The tray's parent field names the model `Tray`. */
  const TrayParentField := ParentField("Tray")

  lemma TrayIsNotASlug()
    ensures !IsSlug("Tray")
  {
    assert !IsSlugChar("Tray"[0]);
  }

  /**
   * Schema keys are lowercase slugs, so the tray's parent field, which names `Tray`,
   * never finds an entity: whatever the active layout, it resolves to nothing.
   */
  lemma TrayParentUnresolved(currentLayout: Option<string>, registry: map<string, Schema>)
    requires forall l :: l in registry ==> Wellformed(registry[l])
    requires currentLayout.Some? ==> currentLayout.value in registry
    ensures GetOtherModel(TrayParentField, currentLayout, registry) == Success(None)
  {
    TrayIsNotASlug();
  }

  /** What `deconstruct` returns: the attribute name, the import path, args and kwargs. */
  datatype Deconstructed = Deconstructed(name: string, path: string, args: seq<string>, kwargs: map<string, string>)

  const ParentFieldPath := "layout.models.ParentField"

  function Deconstruct(field: ParentField, attributeName: string): (d: Deconstructed)
    ensures d.name == attributeName && d.path == ParentFieldPath && d.args == []
    ensures d.kwargs.Keys == {"model_name"}
  {
    Deconstructed(attributeName, ParentFieldPath, [], map["model_name" := field.modelName])
  }

  /** Calling `ParentField(**kwargs)` when a migration rebuilds the field. */
  function Rebuild(kwargs: map<string, string>): Option<ParentField> {
    if kwargs.Keys == {"model_name"} then Some(ParentField(kwargs["model_name"])) else None
  }

  /** A deconstructed field is rebuilt into the same field. */
  lemma DeconstructRoundTrip(field: ParentField, attributeName: string)
    ensures Rebuild(Deconstruct(field, attributeName).kwargs) == Some(field)
  {
  }

  // ---------------------------------------------------------------------------
  // Models generated from entities
  // ---------------------------------------------------------------------------

  /** A model class generated by `generate_model_from_entity`. */
  datatype DynamicModel = DynamicModel(className: string, modelName: string, parent: ParentField)

  function GenerateModelFromEntity(entity: Entity): DynamicModel {
    DynamicModel(entity.name, entity.name, ParentField(entity.name))
  }

  /**
   * A model generated from an entity of the active layout's schema resolves its parent to
   * that schema's parent for its name: the declared parent, unless the name is one of the
   * implied `tray` and `enclosure`, which replaced the declaration.
   */
  lemma GeneratedParentResolution(layout: string, registry: map<string, Schema>, k: string)
    requires layout in registry && Wellformed(registry[layout])
    requires k in registry[layout].dynamicEntities
    ensures var model := GenerateModelFromEntity(registry[layout].dynamicEntities[k]);
      && model.className == k
      && GetOtherModel(model.parent, Some(layout), registry) ==
         Success(Some(registry[layout].entities[k].parent))
  {
  }

  /** Why the generation pass stops. */
  datatype GenerationError =
    | NoLayoutOnRoot          // the `assert` on a `None` layout outside a leaf server
    | MissingSchema(layout: string)  // `all_schemata[layout]` raises `KeyError`

  /** The values of a dict, in insertion order. */
  function Values(order: seq<string>, m: map<string, Entity>): (r: seq<Entity>)
    ensures |r| <= |order|
    ensures forall i :: 0 <= i < |r| ==> r[i] in m.Values
  {
    if order == [] then []
    else (if order[0] in m then [m[order[0]]] else []) + Values(order[1..], m)
  }

  /** The inner loop: generates a model for each entity whose name has none yet. */
  function AddEntities(models: map<string, DynamicModel>, es: seq<Entity>): (r: map<string, DynamicModel>)
    ensures forall k :: k in models ==> k in r && r[k] == models[k]
    decreases |es|
  {
    if es == [] then models
    else
      var next := if es[0].name in models then models
                  else models[es[0].name := GenerateModelFromEntity(es[0])];
      AddEntities(next, es[1..])
  }

  /**
   * The module-level loop over the allowed layouts: the models after the pass, and the
   * error that stopped it, if any.
   */
  function GenerateAll(models: map<string, DynamicModel>, allowed: seq<Option<string>>,
                       registry: map<string, Schema>, isLeaf: bool)
    : (r: (map<string, DynamicModel>, Option<GenerationError>))
    ensures forall k :: k in models ==> k in r.0 && r.0[k] == models[k]
    decreases |allowed|
  {
    if allowed == [] then (models, None)
    else
      match allowed[0]
      case None =>
        if isLeaf then GenerateAll(models, allowed[1..], registry, isLeaf)
        else (models, Some(NoLayoutOnRoot))
      case Some(layout) =>
        if layout !in registry then (models, Some(MissingSchema(layout)))
        else
          var schema := registry[layout];
          GenerateAll(AddEntities(models, Values(schema.dynamicOrder, schema.dynamicEntities)),
            allowed[1..], registry, isLeaf)
  }

  /** The names of a sequence of entities. */
  function Names(es: seq<Entity>): set<string> {
    set i | 0 <= i < |es| :: es[i].name
  }

  /** A model is generated once per name: existing entries are kept, new ones are the named entity's. */
  lemma {:induction false} AddEntitiesFirstWins(models: map<string, DynamicModel>, es: seq<Entity>)
    ensures var r := AddEntities(models, es);
      && r.Keys == models.Keys + Names(es)
      && (forall k :: k in models ==> r[k] == models[k])
      && (forall k :: k in r && k !in models ==> r[k] == DynamicModel(k, k, ParentField(k)))
    decreases |es|
  {
    if es != [] {
      var next := if es[0].name in models then models
                  else models[es[0].name := GenerateModelFromEntity(es[0])];
      AddEntitiesFirstWins(next, es[1..]);
      assert Names(es) == {es[0].name} + Names(es[1..]) by {
        forall x | x in Names(es)
          ensures x in {es[0].name} + Names(es[1..])
        {
          var i :| 0 <= i < |es| && es[i].name == x;
          if i > 0 {
            assert es[1..][i - 1] == es[i];
          }
        }
      }
    }
  }

  /** The names of the values of a well-formed entity dict are its keys. */
  lemma {:induction false} ValuesNames(order: seq<string>, m: map<string, Entity>)
    requires KeyedByName(m)
    ensures Names(Values(order, m)) == (set j | 0 <= j < |order| && order[j] in m :: order[j])
    decreases |order|
  {
    if order != [] {
      ValuesNames(order[1..], m);
      var vs := Values(order, m);
      var rest := Values(order[1..], m);
      var head := if order[0] in m then [m[order[0]]] else [];
      assert vs == head + rest;
      var lhs := Names(vs);
      var restNames := Names(rest);
      var headNames := if order[0] in m then {order[0]} else {};
      assert lhs == headNames + restNames by {
        forall x | x in lhs
          ensures x in headNames + restNames
        {
          var i :| 0 <= i < |vs| && vs[i].name == x;
          if i >= |head| {
            assert vs[i] == rest[i - |head|];
          }
        }
        forall x | x in restNames
          ensures x in lhs
        {
          var i :| 0 <= i < |rest| && rest[i].name == x;
          assert vs[i + |head|] == rest[i];
        }
        if order[0] in m {
          assert vs[0] == m[order[0]];
        }
      }
      var rhs := set j | 0 <= j < |order| && order[j] in m :: order[j];
      var rhsRest := set j | 0 <= j < |order[1..]| && order[1..][j] in m :: order[1..][j];
      assert rhs == headNames + rhsRest by {
        forall x | x in rhs
          ensures x in headNames + rhsRest
        {
          var j :| 0 <= j < |order| && order[j] in m && order[j] == x;
          if j > 0 {
            assert order[1..][j - 1] == order[j];
          }
        }
        forall x | x in rhsRest
          ensures x in rhs
        {
          var j :| 0 <= j < |order[1..]| && order[1..][j] in m && order[1..][j] == x;
          assert order[j + 1] == order[1..][j];
        }
      }
    }
  }

  /** A schema's dynamic entities, as the generation pass iterates them, are named by its keys. */
  lemma DynamicNames(s: Schema)
    requires KeyedByName(s.dynamicEntities) && Enumerates(s.dynamicOrder, s.dynamicEntities)
    ensures Names(Values(s.dynamicOrder, s.dynamicEntities)) == s.dynamicEntities.Keys
  {
    ValuesNames(s.dynamicOrder, s.dynamicEntities);
  }

  /** The layouts the pass reads entities from. */
  function LayoutsOf(allowed: seq<Option<string>>): set<string> {
    set i | 0 <= i < |allowed| && allowed[i].Some? :: allowed[i].value
  }

  /** The entity names of the given layouts. */
  function NamesOf(layouts: set<string>, registry: map<string, Schema>): set<string> {
    set l, k | l in layouts && l in registry && k in registry[l].dynamicEntities :: k
  }

  /** The pass fails exactly when a `None` layout appears outside a leaf server or a layout has no schema. */
  lemma {:induction false} GenerateAllFails(models: map<string, DynamicModel>, allowed: seq<Option<string>>,
                                            registry: map<string, Schema>, isLeaf: bool)
    ensures GenerateAll(models, allowed, registry, isLeaf).1.None? <==>
      forall i :: 0 <= i < |allowed| ==>
        (allowed[i].None? ==> isLeaf) && (allowed[i].Some? ==> allowed[i].value in registry)
    decreases |allowed|
  {
    if allowed != [] {
      var tail := allowed[1..];
      assert forall i :: 1 <= i < |allowed| ==> allowed[i] == tail[i - 1];
      if allowed[0].None? {
        GenerateAllFails(models, tail, registry, isLeaf);
      } else if allowed[0].value in registry {
        var schema := registry[allowed[0].value];
        GenerateAllFails(AddEntities(models, Values(schema.dynamicOrder, schema.dynamicEntities)), tail, registry, isLeaf);
      }
    }
  }

  /** The pass never replaces a generated model, and each model it adds is its name's. */
  lemma {:induction false} GenerateAllKeeps(models: map<string, DynamicModel>, allowed: seq<Option<string>>,
                                            registry: map<string, Schema>, isLeaf: bool)
    ensures var r := GenerateAll(models, allowed, registry, isLeaf).0;
      && (forall k :: k in models ==> k in r && r[k] == models[k])
      && (forall k :: k in r && k !in models ==> r[k] == DynamicModel(k, k, ParentField(k)))
    decreases |allowed|
  {
    if allowed != [] {
      var tail := allowed[1..];
      if allowed[0].None? {
        GenerateAllKeeps(models, tail, registry, isLeaf);
      } else if allowed[0].value in registry {
        var schema := registry[allowed[0].value];
        var es := Values(schema.dynamicOrder, schema.dynamicEntities);
        AddEntitiesFirstWins(models, es);
        GenerateAllKeeps(AddEntities(models, es), tail, registry, isLeaf);
      }
    }
  }

  /**
   * After a complete pass the generated names are exactly the old ones plus the dynamic
   * entity names of every allowed layout.
   */
  lemma {:induction false} GenerateAllKeys(models: map<string, DynamicModel>, allowed: seq<Option<string>>,
                                           registry: map<string, Schema>, isLeaf: bool)
    requires forall l :: l in registry ==>
      KeyedByName(registry[l].dynamicEntities) && Enumerates(registry[l].dynamicOrder, registry[l].dynamicEntities)
    requires GenerateAll(models, allowed, registry, isLeaf).1.None?
    ensures GenerateAll(models, allowed, registry, isLeaf).0.Keys == models.Keys + NamesOf(LayoutsOf(allowed), registry)
    decreases |allowed|
  {
    if allowed != [] {
      var tail := allowed[1..];
      if allowed[0].None? {
        GenerateAllKeys(models, tail, registry, isLeaf);
        LayoutsOfNone(allowed);
      } else {
        var layout := allowed[0].value;
        var schema := registry[layout];
        var es := Values(schema.dynamicOrder, schema.dynamicEntities);
        var next := AddEntities(models, es);
        AddEntitiesFirstWins(models, es);
        DynamicNames(schema);
        assert next.Keys == models.Keys + schema.dynamicEntities.Keys;
        assert GenerateAll(models, allowed, registry, isLeaf) == GenerateAll(next, tail, registry, isLeaf);
        GenerateAllKeys(next, tail, registry, isLeaf);
        LayoutsOfSome(allowed);
        NamesOfSplit(layout, LayoutsOf(tail), registry);
      }
    }
  }

  lemma LayoutsOfNone(allowed: seq<Option<string>>)
    requires allowed != [] && allowed[0].None?
    ensures LayoutsOf(allowed) == LayoutsOf(allowed[1..])
  {
    var tail := allowed[1..];
    forall l | l in LayoutsOf(allowed)
      ensures l in LayoutsOf(tail)
    {
      var i :| 0 <= i < |allowed| && allowed[i].Some? && allowed[i].value == l;
      assert tail[i - 1] == allowed[i];
    }
    forall l | l in LayoutsOf(tail)
      ensures l in LayoutsOf(allowed)
    {
      var i :| 0 <= i < |tail| && tail[i].Some? && tail[i].value == l;
      assert tail[i] == allowed[i + 1];
    }
  }

  lemma LayoutsOfSome(allowed: seq<Option<string>>)
    requires allowed != [] && allowed[0].Some?
    ensures LayoutsOf(allowed) == {allowed[0].value} + LayoutsOf(allowed[1..])
  {
    var tail := allowed[1..];
    forall l | l in LayoutsOf(allowed)
      ensures l in {allowed[0].value} + LayoutsOf(tail)
    {
      var i :| 0 <= i < |allowed| && allowed[i].Some? && allowed[i].value == l;
      if i > 0 {
        assert tail[i - 1] == allowed[i];
      }
    }
    forall l | l in LayoutsOf(tail)
      ensures l in LayoutsOf(allowed)
    {
      var i :| 0 <= i < |tail| && tail[i].Some? && tail[i].value == l;
      assert tail[i] == allowed[i + 1];
    }
  }

  lemma NamesOfSplit(layout: string, rest: set<string>, registry: map<string, Schema>)
    requires layout in registry
    ensures NamesOf({layout} + rest, registry) == registry[layout].dynamicEntities.Keys + NamesOf(rest, registry)
  {
    forall k | k in NamesOf({layout} + rest, registry)
      ensures k in registry[layout].dynamicEntities.Keys + NamesOf(rest, registry)
    {
      var l :| l in {layout} + rest && l in registry && k in registry[l].dynamicEntities;
    }
  }

  /** `dynamic_models`, filled by the module-level loop. */
  class DynamicModels {
    var models: map<string, DynamicModel>

    constructor()
      ensures models == map[]
    {
      models := map[];
    }

    method AddSchemaEntities(es: seq<Entity>)
      modifies this
      ensures models == AddEntities(old(models), es)
    {
      var j := 0;
      while j < |es|
        invariant 0 <= j <= |es|
        invariant AddEntities(old(models), es) == AddEntities(models, es[j..])
      {
        assert es[j..][1..] == es[j + 1..];
        var entity := es[j];
        if entity.name !in models {
          var model := GenerateModelFromEntity(entity);
          models := models[entity.name := model];
        }
        j := j + 1;
      }
    }

    /** The generation loop over `system_layout.allowed_values`. */
    method Generate(allowed: seq<Option<string>>, registry: map<string, Schema>, isLeaf: bool)
      returns (err: Option<GenerationError>)
      modifies this
      ensures (models, err) == GenerateAll(old(models), allowed, registry, isLeaf)
    {
      var i := 0;
      while i < |allowed|
        invariant 0 <= i <= |allowed|
        invariant GenerateAll(old(models), allowed, registry, isLeaf) ==
                  GenerateAll(models, allowed[i..], registry, isLeaf)
      {
        assert allowed[i..][1..] == allowed[i + 1..];
        match allowed[i] {
          case None =>
            if !isLeaf {
              return Some(NoLayoutOnRoot);
            }
          case Some(layout) =>
            if layout !in registry {
              return Some(MissingSchema(layout));
            }
            var schema := registry[layout];
            AddSchemaEntities(Values(schema.dynamicOrder, schema.dynamicEntities));
        }
        i := i + 1;
      }
      return None;
    }
  }

  // ---------------------------------------------------------------------------
  // LayoutObject.save
  // ---------------------------------------------------------------------------

  /** A value of Python's `str` or `None`, tested for truth. */
  predicate Truthy(s: Option<string>) {
    s.Some? && s.value != ""
  }

  /** The name `save` leaves on a layout object after the primary key `pk` is known. */
  function DefaultName(name: string, farmName: Option<string>, className: string, pk: nat): string {
    if name == "" && Truthy(farmName) then
      farmName.value + " " + className + " " + DecimalString(pk)
    else name
  }

  /**
   * A named object, or one saved while the farm has no name, keeps its name; otherwise
   * the name is the farm name, the class name and the primary key, from which the key
   * can be read back.
   */
  lemma DefaultNameRule(name: string, farmName: Option<string>, className: string, pk: nat)
    ensures name != "" || !Truthy(farmName) ==> DefaultName(name, farmName, className, pk) == name
    ensures name == "" && Truthy(farmName) ==>
      var n := DefaultName(name, farmName, className, pk);
      var digits := DecimalString(pk);
      && n == farmName.value + " " + className + " " + digits
      && |n| > |digits|
      && ParseDecimal(n[|n| - |digits|..]) == pk
  {
    if name == "" && Truthy(farmName) {
      var n := DefaultName(name, farmName, className, pk);
      var digits := DecimalString(pk);
      assert n[|n| - |digits|..] == digits;
      ParseDecimalString(pk);
    }
  }

  /**
   * Why `LayoutObject.save` raises after its first write: `Farm.get_solo` exists only where
   * `Farm` is a singleton model, on a leaf server; `_meta.get_field('name')` raises on a
   * class without a `name` field.
   */
  datatype SaveError = NoGetSolo | FieldDoesNotExist

  /**
   * A `LayoutObject` (or a generated subclass) as stored: its class name, whether that
   * class declares a `name` field, its name, its primary key once saved, and the number
   * of writes to the database.
   */
  class LayoutObject {
    const className: string
    const hasNameField: bool
    var name: string
    var pk: Option<nat>
    var writes: nat

    constructor(className: string, hasNameField: bool, name: string)
      ensures this.className == className && this.hasNameField == hasNameField
      ensures this.name == name && pk.None? && writes == 0
    {
      this.className := className;
      this.hasNameField := hasNameField;
      this.name := name;
      pk := None;
      writes := 0;
    }

    /**
     * `LayoutObject.save`: writes the object, which gives it a primary key (`newPk` if it
     * had none), then, when it has no name and the farm has one, gives it the default
     * name and writes it again. Off a leaf server `Farm.get_solo` is missing; on a class
     * without a `name` field `_meta.get_field('name')` raises.
     */
    method Save(isLeaf: bool, farmName: Option<string>, newPk: nat) returns (r: Result<(), SaveError>)
      modifies this
      ensures pk == if old(pk).Some? then old(pk) else Some(newPk)
      ensures !isLeaf ==> r == Failure(NoGetSolo) && name == old(name) && writes == old(writes) + 1
      ensures isLeaf && !hasNameField ==> r == Failure(FieldDoesNotExist) && name == old(name) && writes == old(writes) + 1
      ensures isLeaf && hasNameField ==> r.Success? && name == DefaultName(old(name), farmName, className, pk.value)
      ensures isLeaf && hasNameField ==> writes == old(writes) + (if old(name) == "" && Truthy(farmName) then 2 else 1)
    {
      if pk.None? {
        pk := Some(newPk);
      }
      writes := writes + 1;
      if !isLeaf {
        return Failure(NoGetSolo);
      }
      if !hasNameField {
        return Failure(FieldDoesNotExist);
      }
      if name == "" && Truthy(farmName) {
        name := farmName.value + " " + className + " " + DecimalString(pk.value);
        writes := writes + 1;
      }
      r := Success(());
    }
  }
}
