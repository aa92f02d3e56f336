# gro-api layouts, farms, time series and plant types in Dafny

This project models the core of gro-api, the server of a city-farm growing system, and proves properties of that model. It covers six parts:

- **Layout schemata** (`layout/schemata/__init__.py`).
  - `to_slug` canonicalises names.
  - A `Schema` is built from a parsed document. It holds the declared entities plus the implied `tray` and `enclosure`, and refuses names that clash with the schema object's own attributes.
  - `Schema.check` accepts a layout when every entity except the enclosure has an existing parent other than the tray, and no two such entities share a parent. A detached cycle (two entities that are each other's parent) also passes.
  - A registry, keyed by file stem, holds one schema per `.yaml` file.
- **Layout models** (`layout/models.py`).
  - `ParentField` resolves its target through the active layout's schema, and `deconstruct` round-trips through a rebuild.
  - The module-level pass generates one model class per entity name across all allowed layouts.
  - `LayoutObject.save` gives an unnamed object a default name.
- **Farms** (`farms/models.py`).
  - `LAYOUT_CHOICES` lists the layouts for a farm.
  - `Farm.__init__` remembers the layout the farm was loaded with.
  - On a leaf server, `Farm.save` runs `leaf_save`:
    - it derives the slug;
    - it finds the address;
    - it refuses a layout change once a layout is set;
    - it registers the farm with the root server (in development mode it sets `root_id = 1` instead);
    - it is meant to take over the fields the root server returns; as written, the loop raises instead (see "## Findings").
- **Actuator endpoints** (`actuators/views.py`).
  - Reading actuators refreshes their override first.
  - `override` sets a timed override (`timeout = now + duration`).
  - `state` reads and posts state records.
  - `history` returns state records in a time window.
- **Sensing-point endpoints** (`sensors/views.py`).
  - `value` reads and posts data values.
  - `history` returns values in a time window.
  - `data` is not implemented.
- **Plant types** (`plants/models.py`).
  - `is_above` is meant to be the strict-descendant test that keeps the plant-type graph free of cycles; as written, it raises `TypeError` (see "## Findings").
  - Plant types and plants have string forms.

How the model represents things:

- A Python `dict` is a `map` plus the sequence of its keys in insertion order.
- Generated model classes are descriptors.
- Stored records are a sequence of `(origin, timestamp, value)`.
- Things outside the program are parameters:
  - the clock (`now`);
  - the address probe;
  - the root server's answer;
  - the parsed YAML documents.
- An exception is a `Failure` value.

Behaviour of the code that the model follows:

- The enclosure's parent is `to_slug(None)`, which is `"none"`.
- A declared `tray` or `enclosure` entity is replaced in `entities` by the implied one. It stays in `dynamic_entities`.
- Schemas are keyed by file stem. A later file with the same stem replaces an earlier one.
- The slug a farm gets is `slugify(name.lower())`, and only when the farm has a name and no slug.
- A failed `leaf_save` leaves the in-memory fields as far as it got.
- Every rejection in `Schema.check` is one failure outcome. Its error branches use names that are never defined, so they raise `NameError` rather than the error they build.

## Model

| member | source | states |
|---|---|---|
| Slugs.Lower | layout/schemata/__init__.py:33 | `str.lower` on ASCII letters: the length is kept, no upper-case ASCII letter is left, each becomes its lower-case letter and every other character stays in place |
| Slugs.ToSlug | layout/schemata/__init__.py:29-33 | `to_slug` never returns a key longer than the name; ToSlugIsSlug, ToSlugIdempotent and ToSlugIgnoresCase state what the key is |
| Slugs.ToSlugIsSlug | layout/schemata/__init__.py:29-33 | whatever `to_slug` returns is a slug: words of `a`-`z`/`0`-`9` joined by single hyphens |
| Slugs.ToSlugIdempotent | layout/schemata/__init__.py:29-33 | canonicalising a canonical name changes nothing, so re-validating an entity keeps its keys |
| Slugs.ToSlugIgnoresCase | layout/schemata/__init__.py:33 | names that differ only in letter case give the same key |
| Slugs.SlugifyFixesSlug | layout/schemata/__init__.py:33 | slugify and `to_slug` leave a slug unchanged |
| Slugs.WordIsOwnSlug | layout/schemata/__init__.py:33 | a word of lowercase letters and digits is its own slug |
| Slugs.TraySlug | layout/schemata/__init__.py:61 | the implied `tray` name is its own slug |
| Slugs.EnclosureSlug | layout/schemata/__init__.py:62 | the implied `enclosure` name is its own slug |
| Slugs.NoneSlug | layout/schemata/__init__.py:62 | the enclosure's parent `None` is canonicalised to `"none"` |
| Schemata.ValidateEntities | layout/schemata/__init__.py:49 | the entity list validates exactly when every entity does, element by element |
| Schemata.ValidateDefaults | layout/schemata/__init__.py:47-51 | `name` is required, each entity needs `name` and `parent` (both canonicalised), `entities` defaults to `[]` and `tray-parent` to "enclosure" |
| Schemata.ValidatedAreCanonical | layout/schemata/__init__.py:40-44 | validated names and parents are slugs, so `Entity(...)` validating them again changes nothing |
| Schemata.DeclaredShape | layout/schemata/__init__.py:56-59 | the keys of the entity dict are exactly the declared names, each key naming its entity |
| Schemata.DeclaredLastWins | layout/schemata/__init__.py:57-59 | a later declaration with the same slug replaces an earlier one |
| Schemata.InsertEntities | layout/schemata/__init__.py:56-59 | the insertion loop produces exactly the declared map and key order |
| Schemata.AssembledSlugs | layout/schemata/__init__.py:56-62 | every key of the built schema is a slug |
| Schemata.AssembleWellformed | layout/schemata/__init__.py:56-62 | the built maps are keyed by name, their orders list each key once, and both implied entities are present |
| Schemata.ConstructEntities | layout/schemata/__init__.py:52-62 | `entities` is the declared entities plus `tray` (parent = tray-parent) and `enclosure` (parent "none"); `dynamic_entities` is the snapshot from before those two |
| Schemata.AttachEntities | layout/schemata/__init__.py:63-67 | attaching the entities fails exactly when some entity's name is already a schema attribute |
| Schemata.ReservedNameRejected | layout/schemata/__init__.py:63-67 | a document whose surviving entity is named after a schema attribute does not load |
| Schemata.Check | layout/schemata/__init__.py:70-96 | the walk accepts exactly the chain-shaped schemas: every non-enclosure entity's parent exists and is not the tray, and no two entities share a parent |
| Schemata.BadParentRejected | layout/schemata/__init__.py:77-96 | an entity whose parent is the tray, is missing or is shared makes loading fail |
| Schemata.ParentsCover | layout/schemata/__init__.py:97-102 | in a chain-shaped schema the parents are exactly the entities other than the tray (counting argument) |
| Schemata.WalkComplete | layout/schemata/__init__.py:97-102 | after a complete walk no entity other than the tray is left without a child, so the final error is unreachable |
| Schemata.ChainShapedCovers | layout/schemata/__init__.py:97-102 | in a chain-shaped schema every entity but the tray is some entity's parent |
| Schemata.Construct | layout/schemata/__init__.py:52-102 | `Schema.__init__` as one value: a loaded schema holds `tray` and `enclosure`; NewSchema, ConstructedShape, ReservedNameRejected and BadParentRejected state when it loads and what it holds |
| Schemata.NewSchema | layout/schemata/__init__.py:52-68 | constructing a schema step by step yields exactly `Construct(doc)`: the assembled schema if validation, attachment and `check` pass, else failure |
| Schemata.ConstructedShape | layout/schemata/__init__.py:52-102 | a loaded schema is well formed and chain-shaped, has no reserved name, the tray has no child and every other entity is exactly one entity's parent |
| Schemata.DetachedCycleAccepted | layout/schemata/__init__.py:70-102 | two entities that are each other's parent load: `check` does not require everything to hang from the enclosure |
| SchemaRegistry.SplitExt | layout/schemata/__init__.py:118 | `splitext` splits a name at its last dot (not a leading-dots prefix), the parts concatenating back to the name |
| SchemaRegistry.Loaded | layout/schemata/__init__.py:116-122 | the directory loop as one value: every schema it registers holds `tray` and `enclosure`; LoadedSucceeds, LoadedKeys and LoadedValues state when it succeeds and what it holds |
| SchemaRegistry.LoadedSucceeds | layout/schemata/__init__.py:116-122 | the import succeeds exactly when every `.yaml` file holds a loadable schema |
| SchemaRegistry.LoadedKeys | layout/schemata/__init__.py:110-114 | the registry's keys are the `.yaml` file names without their extension |
| SchemaRegistry.LoadedValues | layout/schemata/__init__.py:110-114 | each `.yaml` file's schema is stored under its stem, as constructed from its document |
| SchemaRegistry.Registry.LoadSchemaFromFile | layout/schemata/__init__.py:106-114 | loading a file stores its constructed schema under its stem, or fails and stores nothing |
| SchemaRegistry.Registry.LoadAll | layout/schemata/__init__.py:116-122 | the directory loop succeeds exactly when the whole listing loads, and then leaves the registry the listing defines |
| Layout.GetOtherModel | layout/models.py:57-65 | no active layout gives `None`; an unknown layout fails; otherwise the parent of the entity named `model_name` if it is a key, else `None` |
| Layout.TrayParentUnresolved | layout/models.py:139 | the tray's field names `Tray`, which is never a (lowercase) schema key, so it resolves to `None` under every layout |
| Layout.Deconstruct | layout/models.py:67-72 | `deconstruct` returns the attribute name, the field's import path, no args and only `model_name` as kwarg |
| Layout.DeconstructRoundTrip | layout/models.py:52-72 | rebuilding a field from its deconstructed kwargs gives the same field |
| Layout.GeneratedParentResolution | layout/models.py:157-181 | a generated model is named after its entity, and its parent field resolves under that layout to the schema's parent for the name |
| Layout.AddEntities | layout/models.py:193-196 | the inner loop as one value: every existing model is kept; AddEntitiesFirstWins states the new keys and their models |
| Layout.AddEntitiesFirstWins | layout/models.py:193-196 | the inner loop keeps every existing model and adds each new name's first entity's model |
| Layout.DynamicNames | layout/models.py:193 | the entities the pass iterates for a layout are named by that schema's dynamic keys |
| Layout.GenerateAll | layout/models.py:185-196 | the generation pass as one value: every existing model is kept; GenerateAllFails, GenerateAllKeeps and GenerateAllKeys state where it stops and which names it adds |
| Layout.GenerateAllFails | layout/models.py:188-193 | the pass stops exactly at a `None` layout outside a leaf server or a layout with no schema |
| Layout.GenerateAllKeeps | layout/models.py:185-196 | the pass never regenerates a name already in `dynamic_models` |
| Layout.GenerateAllKeys | layout/models.py:188-196 | after a complete pass the keys are the old ones plus the dynamic entity names of every non-`None` allowed layout |
| Layout.DynamicModels.AddSchemaEntities | layout/models.py:193-196 | the inner loop updates `dynamic_models` as `AddEntities` states |
| Layout.DynamicModels.Generate | layout/models.py:188-196 | the module loop leaves `dynamic_models` and the stopping error as `GenerateAll` states |
| Layout.DefaultNameRule | layout/models.py:88-93 | an unnamed object of a named farm becomes "farm Class pk" (pk readable back); a named object or an unnamed farm keeps the name |
| Layout.LayoutObject.Save | layout/models.py:84-98 | save assigns the pk and writes once; off a leaf server `Farm.get_solo` then raises; a class without `name` raises; otherwise, when the default name applies, it renames and writes again |
| Decimal.ParseDecimalString | layout/models.py:89-93 | a primary key written in decimal reads back as the same number |
| Farms.SortedSpec | farms/models.py:24 | sorting keys gives each key once, in strictly increasing string order |
| Farms.LayoutChoicesSpec | farms/models.py:23-24 | `LAYOUT_CHOICES` holds one `(key, schema name)` pair per registry entry, sorted by key |
| Farms.Farm.constructor | farms/models.py:78-81 | a leaf farm remembers the layout it was loaded with as `_old_layout` |
| Farms.Farm.Save | farms/models.py:109-113 | a leaf server runs `leaf_save`; a root server only writes the row |
| Farms.SlugRule | farms/models.py:117-118 | after `leaf_save`'s first step only the slug may have changed, only if the farm had no slug, and then to slug-shaped text; that step fails (`NameNotText`) exactly when the save reports it |
| Farms.ProbeOnlyWithoutIp | farms/models.py:122-123 | the network is probed only when the farm has no address |
| Farms.LayoutGuard | farms/models.py:124-130 | changing a set layout raises before anything is sent or written; a first assignment or the same layout passes |
| Farms.OldLayoutFollows | farms/models.py:130-155 | once the layout check passes `_old_layout` is the farm's layout even if a later step fails; only a successful save writes the row |
| Farms.RegistrationByMode | farms/models.py:132-137 | without a slug nothing is registered; in development a slugged farm gets `root_id = 1` and nothing is sent |
| Farms.Payload | farms/models.py:140-142 | the payload is every field except the primary key, with the farm's values |
| Farms.RequestShape | farms/models.py:140-146 | in production the payload goes by PUT to `farms/{root_id}` when there is a root id, else by POST |
| Farms.Reconcile | farms/models.py:148-150 | the overwrite loop over the returned `(name, value)` pairs: the farm keeps exactly its fields; ReconcileSpec states when it fails and which value each field ends with |
| Farms.ReconcileSpec | farms/models.py:148-150 | reconciliation fails exactly on a returned name the farm lacks; otherwise each field holds the value returned last for it, or its own |
| Farms.Farm.ReconcileFields | farms/models.py:148-150 | the overwrite loop leaves the fields and error `Reconcile` states |
| Farms.Farm.Prepare | farms/models.py:117-123 | the slug and address steps update the fields as `DeriveSlug` and `FindIp` state |
| Farms.Farm.Register | farms/models.py:131-155 | registration and the final write update the farm as `RegisterAndStore` states |
| Farms.RegisterAndStore | farms/models.py:131-155 | registration and the final write as one value: the farm keeps exactly its fields; RegistrationByMode, RequestShape and OldLayoutFollows state what is sent and stored |
| Farms.LeafSave | farms/models.py:115-155 | `leaf_save` as one value: the farm keeps exactly its fields; SlugRule, ProbeOnlyWithoutIp, LayoutGuard and OldLayoutFollows state each step |
| Farms.Farm.LeafSaveMethod | farms/models.py:115-155 | `leaf_save` leaves the farm, the remembered layout and the stored row as `LeafSave` states |
| Farms.ReconcileAsWritten | farms/models.py:148-150 | the loop as written, over the returned dict's keys: the farm keeps exactly its fields; ReconcileAsWrittenFails and ReconcileAsWrittenLosesRename state that it raises |
| Farms.ReconcileAsWrittenFails | farms/models.py:148-150 | the as-written loop raises on the first returned key and takes over no value |
| Farms.ReconcileAsWrittenLosesRename | farms/models.py:148-150 | a root server renaming the farm: the intended loop takes the name, the as-written one raises |
| TimeSeries.Latest | actuators/migrations/0001_initial.py:89 | `latest()` is none exactly when the origin has no record, else a record of that origin with the greatest timestamp |
| TimeSeries.SortByTimeSpec | actuators/migrations/0001_initial.py:90 | ordering by timestamp yields a timestamp-sorted permutation |
| TimeSeries.History | sensors/views.py:62-64 | the window query returns no more records than are stored; HistorySpec states which records and in what order |
| TimeSeries.HistorySpec | sensors/views.py:62-64 | the window query holds exactly the origin's records with `since < timestamp < before`, each as often as stored, sorted by timestamp |
| TimeSeries.OpenWindowExample | sensors/views.py:62-64 | both window bounds are exclusive |
| TimeSeries.RecordTable.Append | actuators/views.py:110-113 | saving a new record appends it to the table |
| TimeSeries.LatestAfterAppend | actuators/views.py:110-113 | a just-saved record at or after every stored record of its origin is the latest; on an equal timestamp this rests on the model's tie-break (the last stored wins) |
| Endpoints.NewRecord | actuators/views.py:104-111 | a post without `value` is refused; otherwise the record has the origin, the posted timestamp or `now`, and the value |
| Endpoints.WindowHistory | sensors/views.py:53-68 | without `since` the view refuses; otherwise exactly the origin's records strictly between `since` and `before` (default `now`), in timestamp order |
| Actuators.Actuator.UpdateOverride | actuators/views.py:43 | `update_override` ran once more on the actuator; its effect on the other fields is left open |
| Actuators.Retrieve | actuators/views.py:41-45 | retrieving refreshes the actuator's override once, then shows it |
| Actuators.List | actuators/views.py:47-59 | listing refreshes every listed actuator exactly once, then shows each |
| Actuators.OverrideOutcome | actuators/views.py:64-75 | an override is accepted exactly when `value` is given and `duration` is given and non-zero; the timeout is `now + duration` |
| Actuators.NegativeDurationExpired | actuators/views.py:69-75 | a negative duration is accepted and gives a timeout already in the past |
| Actuators.Override | actuators/views.py:61-78 | a refused override changes nothing; an accepted one stores value and timeout and saves once |
| Actuators.GetState | actuators/views.py:89-96 | the actuator's record with the greatest timestamp, or the "no state" error when it has none |
| Actuators.PostState | actuators/views.py:102-117 | a post without `value` stores nothing; otherwise the new record is appended |
| Actuators.State | actuators/views.py:80-87 | GET reads the latest state, POST posts one, any other method raises `ValueError` and changes nothing |
| Actuators.PostedStateIsRead | actuators/views.py:89-117 | a state posted at or after every stored state of the actuator is the state then read; on an equal timestamp this rests on the model's tie-break (the last stored wins) |
| Actuators.HistoryAsWritten | actuators/views.py:119-134 | without `since` the view refuses; with it, the view raises `AttributeError` |
| Actuators.HistoryAsWrittenLosesRecords | actuators/views.py:127-130 | whenever matching records exist, the intended query returns them but the as-written view raises |
| Sensors.Data | sensors/views.py:14-16 | `data` always raises `NotImplementedError` |
| Sensors.Value | sensors/views.py:18-26 | GET reads the latest value, POST posts one, any other method raises `ValueError` and changes nothing |
| Sensors.GetValue | sensors/views.py:28-34 | the point's value with the greatest timestamp; with no data `DoesNotExist` escapes the view |
| Sensors.PostValue | sensors/views.py:36-51 | a post without `value` stores nothing; otherwise the new record is appended |
| Sensors.PostedValueIsRead | sensors/views.py:28-51 | a value posted at or after every stored value of the point is the value then read; on an equal timestamp this rests on the model's tie-break (the last stored wins) |
| Sensors.Serialize | sensors/views.py:65-67 | serialising succeeds, returning the records, exactly when `many=True` |
| Sensors.HistoryAsWritten | sensors/views.py:53-68 | without `since` the view refuses; otherwise the query result is serialised as one instance |
| Sensors.HistoryAsWrittenNeverAnswers | sensors/views.py:62-68 | the as-written view never answers: it raises `AttributeError` exactly when the query runs |
| Plants.Children | plants/models.py:18 | the children of a type are exactly the types whose parent it is |
| Plants.AboveWithinStep | plants/models.py:29-32 | `t` is above `target` within `d` generations exactly when a child is `target` or is above it within `d - 1` |
| Plants.IsAbove | plants/models.py:23-32 | the child scan answers true exactly when `t` is a strict ancestor of `target` within the recursion bound |
| Plants.NoChildrenAboveNothing | plants/models.py:29-32 | a type without children is above nothing |
| Plants.AboveChild | plants/models.py:30-31 | a type is above each of its children |
| Plants.AboveTransitive | plants/models.py:30 | being above is transitive |
| Plants.DepthSuffices | plants/models.py:29-32 | in an acyclic graph a bound of the table's size finds every strict ancestor |
| Plants.NotAboveSelf | plants/models.py:29-32 | in an acyclic graph the child scan finds no type above itself, whatever the bound, so `IsAbove(g, t, t, depth)` answers false |
| Plants.CycleGuard | plants/models.py:23-28 | in an acyclic graph, giving `t` a parent `p` with `p != t` and `t` not above `p` keeps the graph acyclic |
| Plants.CycleGuardNecessary | plants/models.py:23-28 | the converse: giving `t` itself or a descendant of `t` as parent always makes the graph cyclic, so the guard refuses only parents that must be refused |
| Plants.IsAboveAsWritten | plants/models.py:29-30 | as written, iterating the related manager raises `TypeError` |
| Plants.IsAboveAsWrittenRaises | plants/models.py:29-30 | a parent is above its child, yet the as-written test raises |
| Plants.PlantStrIdentifies | plants/models.py:34-46 | `PlantType.__str__` is the common name; among plants whose types are written the same, the written plants are equal exactly when their indices are |
| Plants.PlantStr | plants/models.py:45-46 | a plant is written as its type's common name, a space and its index, which reads back |

## Left out

- YAML parsing and `os.listdir`: the model takes parsed documents and the listing as inputs.
- Real `slugify`: the package that provides it is not named in the source. The model is one plausible slugify on ASCII: it lowercases, turns every run of other characters into one hyphen and trims hyphens. Real packages differ; python-slugify, for example, drops a comma between digits, decodes HTML entities and transliterates non-ASCII text. The proofs rely only on its output being slug-shaped, on a slug being left unchanged, and on letter case being ignored.
- Slugs.Lower: only ASCII letters are lowered. Python's `str.lower` lowercases every cased character and can change the length (`'İ'.lower()` has two code points).
- Schemata.ValidateDefaults: the document types cannot express three voluptuous behaviours. It rejects keys the schema does not list, it rejects a `name` that is not a string, and it treats a key present with a null value differently from a missing one (`entities:` with no value fails; `tray-parent: ~` becomes "none"). A missing key and a null are both `None` in the model, so "validates exactly when" holds for the documents the types represent.
- Layout.GenerateAllFails: a declared `tray` or `enclosure` entity stays in `dynamic_entities`, so the pass generates a model class of that name beside the fixed `Tray` or `Enclosure` class. Django refuses two models in one app whose lowercased names coincide, so the import then fails where the model's pass succeeds.
- Actuators.Actuator.UpdateOverride: only the fact that it ran is recorded. Its expiry rules live in a model file that is not part of this model, so its effect on the override fields is left open.
- Network I/O: `check_network` and the HTTP calls to the root server are oracles.
  - The probe returns an address or nothing.
  - The root server returns a status and fields, or nothing.
- `force_insert` handling in `LayoutObject.save` is not modelled. It changes only how the database writes the row.
- The per-type index counter and instance naming of sensors and resources are not modelled. Their implementing models are not part of this model.
- Thread-local farm routing middleware, Django settings, serializers, pagination, `get_object` and migrations are not modelled.
- Actuators.List: pagination is not modelled, and the listed actuators are distinct rows.
- Actuators.Override: only parsed values are modelled. `value` is a real and `duration` an integer, so `float(value)` and `int(duration)` failures, and a form-encoded "0" (truthy as a string), are not represented.
- Endpoints.NewRecord: a posted timestamp is taken as an integer. Coercion errors from the database are not modelled.
- Endpoints.WindowHistory: `since` and `before` are integers. A non-numeric query string is not modelled. An empty `?before=` is handed to the filter as "" rather than defaulting to `now`; the model treats it as absent.
- Farms.Farm.ReconcileFields, Farms.Reconcile, Farms.ReconcileSpec: the returned names are checked against the model's fields only. Other Python attributes of the object that `getattr` would find are not modelled.
- Plants.IsAbove: Python's recursion depth is a `depth` parameter, and the answer is exact within it. On a cyclic graph Python would raise `RecursionError`; the model answers within the bound instead.
- TimeSeries.Latest: among records with equal greatest timestamps it returns the last stored. The database's tie-breaking is unspecified.
- Floating-point values and spatial fields carry no behaviour, so values are opaque reals.

## Findings

| source | as written | input that shows it | evidently intended | confidence | as-written member | corrected member |
|---|---|---|---|---|---|---|
| actuators/views.py:128-130 | `history` calls `filter` on the `ActuatorState` model class, which has no such attribute | any history request with `since=1` | `ActuatorState.objects.filter(...)`, as sensors/views.py:62-64 does | high, not executed | Actuators.HistoryAsWritten | Endpoints.WindowHistory |
| sensors/views.py:65-67 | the history query set is handed to the serializer as one instance (no `many=True`), so reading a field of it raises `AttributeError` (actuators/views.py:131-133 repeats this) | any history request with `since=1` | serialise the query result with `many=True` | medium, not executed | Sensors.HistoryAsWritten | Endpoints.WindowHistory |
| farms/models.py:148-150 | `for key, val in res.data` iterates the returned dict's keys and unpacks each key string as a pair | root server answers `{"name": "greenhouse"}` | iterate `res.data.items()` | medium, not executed | Farms.ReconcileAsWritten | Farms.Reconcile |
| plants/models.py:29-30 | `is_above` iterates `self.children`, a related manager, which is not iterable; it also compares with `is` | a type with one child, asked about that child | iterate `self.children.all()` and compare with `==` | high, not executed | Plants.IsAboveAsWritten | Plants.IsAbove |
