/**
 * The farm record (farms/models.py): the layout choices offered for a farm, and the save
 * of a leaf server, which derives the slug, finds the machine's address, allows the
 * layout to be set once, registers the farm with the root server and takes over the
 * fields the root server returns.
 *
 * The fields of a farm are a map from field name to value, since the save reads and
 * writes them by name. Finding the address (`check_network`) and the root server's
 * answer are parameters.
 */
module Farms {
  import opened Wrappers
  import opened Slugs
  import opened Schemata

  // ---------------------------------------------------------------------------
  // LAYOUT_CHOICES
  // ---------------------------------------------------------------------------

  /** Python's `<` on strings: code point by code point, a proper prefix first. */
  predicate LexLess(a: string, b: string)
    decreases |a|
  {
    b != [] && (a == [] || a[0] < b[0] || (a[0] == b[0] && LexLess(a[1..], b[1..])))
  }

  lemma {:induction false} LexLessIrreflexive(a: string)
    ensures !LexLess(a, a)
    decreases |a|
  {
    if a != [] {
      LexLessIrreflexive(a[1..]);
    }
  }

  lemma {:induction false} LexLessTransitive(a: string, b: string, c: string)
    requires LexLess(a, b) && LexLess(b, c)
    ensures LexLess(a, c)
    decreases |a|
  {
    if a != [] && a[0] == b[0] && b[0] == c[0] {
      LexLessTransitive(a[1..], b[1..], c[1..]);
    }
  }

  lemma {:induction false} LexLessTotal(a: string, b: string)
    requires a != b
    ensures LexLess(a, b) || LexLess(b, a)
    decreases |a|
  {
    if a != [] && b != [] && a[0] == b[0] {
      assert a == [a[0]] + a[1..] && b == [b[0]] + b[1..];
      LexLessTotal(a[1..], b[1..]);
    }
  }

  /** Every finite non-empty set of strings has a least element. */
  lemma {:induction false} LeastExists(s: set<string>)
    requires s != {}
    ensures exists m :: m in s && forall x :: x in s && x != m ==> LexLess(m, x)
    decreases |s|
  {
    var y :| y in s;
    var rest := s - {y};
    if rest == {} {
      assert s == {y};
    } else {
      LeastExists(rest);
      var m :| m in rest && forall x :: x in rest && x != m ==> LexLess(m, x);
      if LexLess(y, m) {
        forall x | x in s && x != y
          ensures LexLess(y, x)
        {
          if x != m {
            assert x in rest;
            LexLessTransitive(y, m, x);
          }
        }
        assert y in s && forall x :: x in s && x != y ==> LexLess(y, x);
      } else {
        LexLessTotal(y, m);
        forall x | x in s && x != m
          ensures LexLess(m, x)
        {
          if x != y {
            assert x in rest;
          }
        }
        assert m in s && forall x :: x in s && x != m ==> LexLess(m, x);
      }
    }
  }

  ghost function Least(s: set<string>): (m: string)
    requires s != {}
    ensures m in s && forall x :: x in s && x != m ==> LexLess(m, x)
  {
    LeastExists(s);
    var m :| m in s && forall x :: x in s && x != m ==> LexLess(m, x);
    m
  }

  /** The elements of `s` in increasing order. */
  ghost function Sorted(s: set<string>): seq<string>
    decreases |s|
  {
    if s == {} then [] else [Least(s)] + Sorted(s - {Least(s)})
  }

  ghost predicate StrictlyIncreasing(keys: seq<string>) {
    forall i, j :: 0 <= i < j < |keys| ==> LexLess(keys[i], keys[j])
  }

  lemma {:induction false} SortedSpec(s: set<string>)
    ensures |Sorted(s)| == |s|
    ensures forall k :: k in s <==> k in Sorted(s)
    ensures StrictlyIncreasing(Sorted(s))
    decreases |s|
  {
    if s != {} {
      var m := Least(s);
      var rest := Sorted(s - {m});
      SortedSpec(s - {m});
      var r := Sorted(s);
      assert r == [m] + rest;
      forall i, j | 0 <= i < j < |r|
        ensures LexLess(r[i], r[j])
      {
        if i > 0 {
          assert r[i] == rest[i - 1] && r[j] == rest[j - 1];
        } else {
          assert r[j] == rest[j - 1];
          assert r[j] in s - {m};
        }
      }
    }
  }

  /** `LAYOUT_CHOICES`: the `(key, schema name)` pairs of the registry, sorted by key. */
  ghost function LayoutChoices(registry: map<string, Schema>): (choices: seq<(string, string)>)
  {
    var keys := Sorted(registry.Keys);
    SortedSpec(registry.Keys);
    seq(|keys|, i requires 0 <= i < |keys| => (keys[i], registry[keys[i]].name))
  }

  /** One choice per schema, each naming that schema, in increasing order of key. */
  lemma LayoutChoicesSpec(registry: map<string, Schema>)
    ensures var choices := LayoutChoices(registry);
      && |choices| == |registry|
      && (forall k, n :: (k, n) in choices <==> k in registry && n == registry[k].name)
      && forall i, j :: 0 <= i < j < |choices| ==> LexLess(choices[i].0, choices[j].0)
  {
    var choices := LayoutChoices(registry);
    var keys := Sorted(registry.Keys);
    SortedSpec(registry.Keys);
    forall k, n | k in registry && n == registry[k].name
      ensures (k, n) in choices
    {
      var i :| 0 <= i < |keys| && keys[i] == k;
      assert choices[i] == (k, n);
    }
  }

  // ---------------------------------------------------------------------------
  // Farm fields
  // ---------------------------------------------------------------------------

  /** A field value as Python sees it: `None`, a string or an integer. */
  datatype Value = Null | Text(text: string) | Number(number: int)

  /** Python truth: `None`, `""` and `0` are false. */
  predicate Truthy(v: Value) {
    match v
    case Null => false
    case Text(s) => s != ""
    case Number(n) => n != 0
  }

  const Id := "id"
  const RootId := "root_id"
  const Name := "name"
  const Slug := "slug"
  const RootServer := "root_server"
  const Ip := "ip"
  const LayoutField := "layout"

  /** The model fields of a farm on a leaf server; `id` is the primary key. */
  const FieldNames: set<string> := {Id, RootId, Name, Slug, RootServer, Ip, LayoutField}

  datatype Mode = Development | Production

  /** The registration request sent to the root server. */
  datatype Request =
    | Post(payload: map<string, Value>)                  // `root_api.farms.post(data=...)`
    | Put(rootId: Value, payload: map<string, Value>)    // `root_api.farms(root_id).put(data=...)`

  /** The root server's answer: a status code and the returned fields in order. */
  datatype Response = Response(status: int, data: seq<(string, Value)>)

  datatype SaveError =
    | NameNotText                // `self.name.lower()` on a value that is not a string
    | NetworkUnreachable         // `check_network` fails to connect
    | LayoutChangeAttempted
    | RootUnreachable            // the request to the root server fails
    | BadStatus(status: int)     // `assert res.status_code == 200`
    | UnknownAttribute(key: string)  // `getattr(self, key)` on a name the farm does not have
    | CannotUnpack(key: string)      // a returned key that is not two characters long, unpacked as a pair

  /** Step 1: a named farm without a slug gets `slugify(name.lower())`. */
  function DeriveSlug(fields: map<string, Value>): Result<map<string, Value>, SaveError>
    requires FieldNames <= fields.Keys
  {
    if Truthy(fields[Name]) && !Truthy(fields[Slug]) then
      if fields[Name].Text? then Success(fields[Slug := Text(ToSlug(fields[Name].text))])
      else Failure(NameNotText)
    else Success(fields)
  }

  /** Step 2: a farm without an address asks the network for one. */
  function FindIp(fields: map<string, Value>, probe: Option<string>): Result<map<string, Value>, SaveError>
    requires FieldNames <= fields.Keys
  {
    if Truthy(fields[Ip]) then Success(fields)
    else if probe.None? then Failure(NetworkUnreachable)
    else Success(fields[Ip := Text(probe.value)])
  }

  /** Step 3: a layout may be set while there is none; changing it afterwards is refused. */
  predicate LayoutChangeRefused(layout: Value, oldLayout: Value) {
    layout != oldLayout && Truthy(oldLayout)
  }

  /** Every field except the primary key. */
  function Payload(fields: map<string, Value>): (payload: map<string, Value>)
    ensures payload.Keys == fields.Keys - {Id}
    ensures forall k :: k in payload ==> payload[k] == fields[k]
  {
    map k | k in fields && k != Id :: fields[k]
  }

  function RegistrationRequest(fields: map<string, Value>): Request
    requires FieldNames <= fields.Keys
  {
    if Truthy(fields[RootId]) then Put(fields[RootId], Payload(fields)) else Post(Payload(fields))
  }

  /**
   * The reconciliation loop: every returned field whose value differs from the farm's is
   * overwritten. The fields after the loop, and the error that stopped it, if any.
   */
  function Reconcile(fields: map<string, Value>, data: seq<(string, Value)>): (r: (map<string, Value>, Option<SaveError>))
    ensures r.0.Keys == fields.Keys
    decreases |data|
  {
    if data == [] then (fields, None)
    else
      var (key, val) := data[0];
      if key !in fields then (fields, Some(UnknownAttribute(key)))
      else Reconcile(if fields[key] != val then fields[key := val] else fields, data[1..])
  }

  /** The value a returned field takes last, if the response returns it. */
  function LastReturned(data: seq<(string, Value)>, key: string): Option<Value>
    decreases |data|
  {
    if data == [] then None
    else
      var later := LastReturned(data[1..], key);
      if later.Some? then later else if data[0].0 == key then Some(data[0].1) else None
  }

  /**
   * Reconciliation keeps the set of fields; it fails exactly on the first returned name
   * the farm does not have; when it succeeds, each field holds the value returned last
   * for it, or its own if it was not returned.
   */
  lemma {:induction false} ReconcileSpec(fields: map<string, Value>, data: seq<(string, Value)>)
    ensures var (r, err) := Reconcile(fields, data);
      && (err.None? <==> forall i :: 0 <= i < |data| ==> data[i].0 in fields)
      && (err.None? ==> forall k :: k in fields ==>
            r[k] == (if LastReturned(data, k).Some? then LastReturned(data, k).value else fields[k]))
    decreases |data|
  {
    if data != [] {
      var (key, val) := data[0];
      if key in fields {
        var next := if fields[key] != val then fields[key := val] else fields;
        ReconcileSpec(next, data[1..]);
        assert forall i :: 1 <= i < |data| ==> data[i] == data[1..][i - 1];
      }
    }
  }

  /**
   * The reconciliation loop as written iterates the returned dictionary itself, which
   * yields its keys only. Each key is unpacked as a pair of characters: a key of any
   * other length raises `ValueError`, and a two-character key `ab` reads the attribute
   * `a` and compares it with the string `b`.
   */
  function ReconcileAsWritten(fields: map<string, Value>, keys: seq<string>): (r: (map<string, Value>, Option<SaveError>))
    ensures r.0.Keys == fields.Keys
    decreases |keys|
  {
    if keys == [] then (fields, None)
    else if |keys[0]| != 2 then (fields, Some(CannotUnpack(keys[0])))
    else
      var key, val := [keys[0][0]], Text([keys[0][1]]);
      if key !in fields then (fields, Some(UnknownAttribute(key)))
      else ReconcileAsWritten(if fields[key] != val then fields[key := val] else fields, keys[1..])
  }

  /**
   * A farm has no one-character field, so the as-written loop raises on the first key the
   * root server returns and takes over none of the returned values.
   */
  lemma ReconcileAsWrittenFails(fields: map<string, Value>, keys: seq<string>)
    requires fields.Keys == FieldNames && keys != []
    ensures ReconcileAsWritten(fields, keys) == (fields, Some(if |keys[0]| == 2 then UnknownAttribute([keys[0][0]]) else CannotUnpack(keys[0])))
  {
    if |keys[0]| == 2 {
      assert |[keys[0][0]]| == 1;
    }
  }

  /** A root server that renames the farm: the intended loop takes the new name, the as-written one raises. */
  lemma ReconcileAsWrittenLosesRename(fields: map<string, Value>)
    requires fields.Keys == FieldNames
    ensures Reconcile(fields, [(Name, Text("greenhouse"))]) == (fields[Name := Text("greenhouse")], None)
    ensures ReconcileAsWritten(fields, [Name]) == (fields, Some(CannotUnpack(Name)))
  {
    var data := [(Name, Text("greenhouse"))];
    var next := if fields[Name] != Text("greenhouse") then fields[Name := Text("greenhouse")] else fields;
    assert next == fields[Name := Text("greenhouse")];
    assert Reconcile(fields, data) == Reconcile(next, data[1..]);
  }

  /** The state of a leaf farm that a save reads and writes. */
  datatype LeafState = LeafState(fields: map<string, Value>, oldLayout: Value, stored: map<string, Value>)

  /** What a save did: the request it sent, if any, and the error it raised, if any. */
  datatype SaveOutcome = SaveOutcome(sent: Option<Request>, error: Option<SaveError>)

  /** Steps 4 and 5: registration with the root server, then the local write. */
  function RegisterAndStore(fields: map<string, Value>, oldLayout: Value, stored: map<string, Value>,
                            mode: Mode, respond: Request -> Option<Response>): (r: (LeafState, SaveOutcome))
    requires FieldNames <= fields.Keys
    ensures r.0.fields.Keys == fields.Keys
  {
    if !Truthy(fields[Slug]) then
      (LeafState(fields, fields[LayoutField], fields), SaveOutcome(None, None))
    else if mode == Development then
      var f := fields[RootId := Number(1)];
      (LeafState(f, f[LayoutField], f), SaveOutcome(None, None))
    else
      var request := RegistrationRequest(fields);
      match respond(request)
      case None => (LeafState(fields, oldLayout, stored), SaveOutcome(Some(request), Some(RootUnreachable)))
      case Some(res) =>
        if res.status != 200 then
          (LeafState(fields, oldLayout, stored), SaveOutcome(Some(request), Some(BadStatus(res.status))))
        else
          var (f, err) := Reconcile(fields, res.data);
          if err.Some? then (LeafState(f, oldLayout, stored), SaveOutcome(Some(request), err))
          else (LeafState(f, f[LayoutField], f), SaveOutcome(Some(request), None))
  }

  /** `Farm.leaf_save` as a function of the state before it. */
  function LeafSave(st: LeafState, mode: Mode, probe: Option<string>, respond: Request -> Option<Response>)
    : (r: (LeafState, SaveOutcome))
    requires FieldNames <= st.fields.Keys
    ensures r.0.fields.Keys == st.fields.Keys
  {
    match DeriveSlug(st.fields)
    case Failure(e) => (st, SaveOutcome(None, Some(e)))
    case Success(f1) =>
      var st1 := st.(fields := f1);
      match FindIp(f1, probe)
      case Failure(e) => (st1, SaveOutcome(None, Some(e)))
      case Success(f2) =>
        var st2 := st1.(fields := f2);
        if LayoutChangeRefused(f2[LayoutField], st.oldLayout) then
          (st2, SaveOutcome(None, Some(LayoutChangeAttempted)))
        else
          RegisterAndStore(f2, f2[LayoutField], st.stored, mode, respond)
  }

  lemma DeriveSlugKeys(fields: map<string, Value>)
    requires FieldNames <= fields.Keys
    ensures DeriveSlug(fields).Success? ==> DeriveSlug(fields).value.Keys == fields.Keys
  {
  }

  /**
   * The fields `leaf_save` holds after its first step: only the slug may change, it
   * changes only when the farm had no slug, and it then becomes slug-shaped text. The
   * first step fails, and the save reports `NameNotText`, in exactly the same cases.
   */
  lemma SlugRule(st: LeafState, mode: Mode, probe: Option<string>, respond: Request -> Option<Response>)
    requires FieldNames <= st.fields.Keys
    ensures DeriveSlug(st.fields).Success? ==>
      var f1 := DeriveSlug(st.fields).value;
      f1.Keys == st.fields.Keys &&
      (forall f :: f in st.fields && f != Slug ==> f1[f] == st.fields[f]) &&
      (f1[Slug] != st.fields[Slug] ==> !Truthy(st.fields[Slug]) && f1[Slug].Text? && IsSlug(f1[Slug].text))
    ensures var (st', out) := LeafSave(st, mode, probe, respond);
      DeriveSlug(st.fields).Failure? <==> out.error == Some(NameNotText)
  {
    var (st', out) := LeafSave(st, mode, probe, respond);
    if Truthy(st.fields[Name]) && st.fields[Name].Text? {
      ToSlugIsSlug(st.fields[Name].text);
    }
    if DeriveSlug(st.fields).Success? {
      var f1 := DeriveSlug(st.fields).value;
      if FindIp(f1, probe).Success? && !LayoutChangeRefused(FindIp(f1, probe).value[LayoutField], st.oldLayout) {
        RegisterNeverNameNotText(FindIp(f1, probe).value, FindIp(f1, probe).value[LayoutField], st.stored, mode, respond);
      }
    }
  }

  lemma RegisterNeverNameNotText(fields: map<string, Value>, oldLayout: Value, stored: map<string, Value>,
                                 mode: Mode, respond: Request -> Option<Response>)
    requires FieldNames <= fields.Keys
    ensures RegisterAndStore(fields, oldLayout, stored, mode, respond).1.error != Some(NameNotText)
  {
    if Truthy(fields[Slug]) && mode == Production {
      var request := RegistrationRequest(fields);
      if respond(request).Some? && respond(request).value.status == 200 {
        ReconcileErrors(fields, respond(request).value.data);
      }
    }
  }

  lemma {:induction false} ReconcileErrors(fields: map<string, Value>, data: seq<(string, Value)>)
    ensures Reconcile(fields, data).1.None? || Reconcile(fields, data).1.value.UnknownAttribute?
    decreases |data|
  {
    if data != [] && data[0].0 in fields {
      var (key, val) := data[0];
      ReconcileErrors(if fields[key] != val then fields[key := val] else fields, data[1..]);
    }
  }

  /** The network is asked for an address only when the farm has none. */
  lemma ProbeOnlyWithoutIp(st: LeafState, mode: Mode, p1: Option<string>, p2: Option<string>,
                           respond: Request -> Option<Response>)
    requires FieldNames <= st.fields.Keys
    requires DeriveSlug(st.fields).Success? && Truthy(DeriveSlug(st.fields).value[Ip])
    ensures LeafSave(st, mode, p1, respond) == LeafSave(st, mode, p2, respond)
  {
  }

  /**
   * Changing the layout of a farm that already has one raises LayoutChangeAttempted before
   * anything is sent or written; a first assignment, or the same layout again, passes.
   */
  lemma LayoutGuard(st: LeafState, mode: Mode, probe: Option<string>, respond: Request -> Option<Response>)
    requires FieldNames <= st.fields.Keys
    requires DeriveSlug(st.fields).Success? && FindIp(DeriveSlug(st.fields).value, probe).Success?
    ensures var (st', out) := LeafSave(st, mode, probe, respond);
      && (out.error == Some(LayoutChangeAttempted) <==> LayoutChangeRefused(st.fields[LayoutField], st.oldLayout))
      && (out.error == Some(LayoutChangeAttempted) ==>
            out.sent.None? && st'.stored == st.stored && st'.oldLayout == st.oldLayout)
  {
    var f2 := FindIp(DeriveSlug(st.fields).value, probe).value;
    assert f2[LayoutField] == st.fields[LayoutField];
    if !LayoutChangeRefused(f2[LayoutField], st.oldLayout) {
      RegisterNeverLayoutError(f2, f2[LayoutField], st.stored, mode, respond);
    }
  }

  lemma RegisterNeverLayoutError(fields: map<string, Value>, oldLayout: Value, stored: map<string, Value>,
                                 mode: Mode, respond: Request -> Option<Response>)
    requires FieldNames <= fields.Keys
    ensures RegisterAndStore(fields, oldLayout, stored, mode, respond).1.error != Some(LayoutChangeAttempted)
  {
    if Truthy(fields[Slug]) && mode == Production {
      var request := RegistrationRequest(fields);
      if respond(request).Some? && respond(request).value.status == 200 {
        ReconcileErrors(fields, respond(request).value.data);
      }
    }
  }

  /**
   * Once the layout check passes, the remembered layout is the farm's layout: the one it
   * had at the check if a later step fails, and the one after reconciliation otherwise.
   * A successful save writes the farm as it is in memory; a failed one writes nothing.
   */
  lemma OldLayoutFollows(st: LeafState, mode: Mode, probe: Option<string>, respond: Request -> Option<Response>)
    requires FieldNames <= st.fields.Keys
    requires DeriveSlug(st.fields).Success? && FindIp(DeriveSlug(st.fields).value, probe).Success?
    requires !LayoutChangeRefused(st.fields[LayoutField], st.oldLayout)
    ensures var (st', out) := LeafSave(st, mode, probe, respond);
      && (out.error.None? ==> st'.oldLayout == st'.fields[LayoutField] && st'.stored == st'.fields)
      && (out.error.Some? ==> st'.oldLayout == st.fields[LayoutField] && st'.stored == st.stored)
  {
    var f2 := FindIp(DeriveSlug(st.fields).value, probe).value;
    assert f2[LayoutField] == st.fields[LayoutField];
  }

  /**
   * A farm without a slug is not registered; in development a farm with a slug gets
   * root id 1 without contacting the root server.
   */
  lemma RegistrationByMode(fields: map<string, Value>, oldLayout: Value, stored: map<string, Value>,
                           mode: Mode, respond: Request -> Option<Response>)
    requires FieldNames <= fields.Keys
    ensures var (st', out) := RegisterAndStore(fields, oldLayout, stored, mode, respond);
      && (!Truthy(fields[Slug]) ==> out == SaveOutcome(None, None) && st'.fields == fields)
      && (Truthy(fields[Slug]) && mode == Development ==>
            out == SaveOutcome(None, None) && st'.fields == fields[RootId := Number(1)])
      && (Truthy(fields[Slug]) && mode == Production ==>
            out.sent == Some(RegistrationRequest(fields)))
  {
  }

  /**
   * In production the payload is every field but the primary key, sent by PUT to the
   * farm's root id when it has one and by POST otherwise.
   */
  lemma RequestShape(fields: map<string, Value>)
    requires FieldNames <= fields.Keys
    ensures var request := RegistrationRequest(fields);
      && request.payload.Keys == fields.Keys - {Id}
      && (forall k :: k in request.payload ==> request.payload[k] == fields[k])
      && (request.Put? <==> Truthy(fields[RootId]))
      && (request.Put? ==> request.rootId == fields[RootId])
  {
  }

  /** A farm record. `_old_layout` exists only on leaf servers. */
  class Farm {
    const isLeaf: bool
    var fields: map<string, Value>
    var oldLayout: Option<Value>
    var stored: map<string, Value>

    ghost predicate Valid()
      reads this
    {
      FieldNames <= fields.Keys && (isLeaf <==> oldLayout.Some?)
    }

    /** `Farm.__init__`: a leaf farm remembers the layout it was loaded with. */
    constructor(isLeaf: bool, loaded: map<string, Value>)
      requires FieldNames <= loaded.Keys
      ensures Valid() && this.isLeaf == isLeaf
      ensures fields == loaded && stored == loaded
      ensures oldLayout == if isLeaf then Some(loaded[LayoutField]) else None
    {
      this.isLeaf := isLeaf;
      fields := loaded;
      stored := loaded;
      oldLayout := if isLeaf then Some(loaded[LayoutField]) else None;
    }

    /** `Farm.save`: a leaf server runs `leaf_save`, a root server only writes the row. */
    method Save(mode: Mode, probe: Option<string>, respond: Request -> Option<Response>)
      returns (out: SaveOutcome)
      requires Valid()
      modifies this
      ensures Valid()
      ensures isLeaf ==>
        var (st', o) := LeafSave(LeafState(old(fields), old(oldLayout).value, old(stored)), mode, probe, respond);
        && fields == st'.fields && oldLayout == Some(st'.oldLayout) && stored == st'.stored && out == o
      ensures !isLeaf ==> fields == old(fields) && oldLayout == old(oldLayout) && stored == fields
                          && out == SaveOutcome(None, None)
    {
      if isLeaf {
        out := LeafSaveMethod(mode, probe, respond);
      } else {
        stored := fields;
        out := SaveOutcome(None, None);
      }
    }

    /** `Farm.leaf_save`, step by step. */
    method LeafSaveMethod(mode: Mode, probe: Option<string>, respond: Request -> Option<Response>)
      returns (out: SaveOutcome)
      requires Valid() && isLeaf
      modifies this
      ensures Valid()
      ensures var (st', o) := LeafSave(LeafState(old(fields), old(oldLayout).value, old(stored)), mode, probe, respond);
        fields == st'.fields && oldLayout == Some(st'.oldLayout) && stored == st'.stored && out == o
    {
      var err := Prepare(probe);
      if err.Some? {
        return SaveOutcome(None, err);
      }
      if fields[LayoutField] != oldLayout.value {
        if Truthy(oldLayout.value) {
          return SaveOutcome(None, Some(LayoutChangeAttempted));
        }
      }
      oldLayout := Some(fields[LayoutField]);
      out := Register(mode, respond);
    }

    /** The slug and address steps of `leaf_save`. */
    method Prepare(probe: Option<string>) returns (err: Option<SaveError>)
      requires Valid()
      modifies this
      ensures Valid() && oldLayout == old(oldLayout) && stored == old(stored)
      ensures match DeriveSlug(old(fields))
        case Failure(e) => err == Some(e) && fields == old(fields)
        case Success(f1) =>
          match FindIp(f1, probe)
          case Failure(e) => err == Some(e) && fields == f1
          case Success(f2) => err.None? && fields == f2
    {
      if Truthy(fields[Name]) && !Truthy(fields[Slug]) {
        if !fields[Name].Text? {
          return Some(NameNotText);
        }
        fields := fields[Slug := Text(ToSlug(fields[Name].text))];
      }
      if !Truthy(fields[Ip]) {
        if probe.None? {
          return Some(NetworkUnreachable);
        }
        fields := fields[Ip := Text(probe.value)];
      }
      err := None;
    }

    /** Registration with the root server and the local write, after the layout check. */
    method Register(mode: Mode, respond: Request -> Option<Response>) returns (out: SaveOutcome)
      requires Valid() && oldLayout == Some(fields[LayoutField])
      modifies this
      ensures Valid()
      ensures var (st', o) := RegisterAndStore(old(fields), old(fields)[LayoutField], old(stored), mode, respond);
        fields == st'.fields && oldLayout == Some(st'.oldLayout) && stored == st'.stored && out == o
    {
      var sent: Option<Request> := None;
      if Truthy(fields[Slug]) {
        if mode == Development {
          fields := fields[RootId := Number(1)];
        } else {
          var request := if Truthy(fields[RootId]) then Put(fields[RootId], Payload(fields))
                         else Post(Payload(fields));
          sent := Some(request);
          var res := respond(request);
          if res.None? {
            return SaveOutcome(sent, Some(RootUnreachable));
          }
          if res.value.status != 200 {
            return SaveOutcome(sent, Some(BadStatus(res.value.status)));
          }
          var err := ReconcileFields(res.value.data);
          if err.Some? {
            return SaveOutcome(sent, err);
          }
        }
      }
      stored := fields;
      if fields[LayoutField] != oldLayout.value {
        oldLayout := Some(fields[LayoutField]);
      }
      out := SaveOutcome(sent, None);
    }

    /** The reconciliation loop over the returned (name, value) pairs, as `Reconcile` states it. */
    method ReconcileFields(data: seq<(string, Value)>) returns (err: Option<SaveError>)
      modifies this
      ensures (fields, err) == Reconcile(old(fields), data)
      ensures oldLayout == old(oldLayout) && stored == old(stored)
    {
      var i := 0;
      while i < |data|
        invariant 0 <= i <= |data|
        invariant Reconcile(old(fields), data) == Reconcile(fields, data[i..])
        invariant oldLayout == old(oldLayout) && stored == old(stored)
      {
        assert data[i..][1..] == data[i + 1..];
        var (key, val) := data[i];
        if key !in fields {
          return Some(UnknownAttribute(key));
        }
        if fields[key] != val {
          fields := fields[key := val];
        }
        i := i + 1;
      }
      return None;
    }
  }
}
