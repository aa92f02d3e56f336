/**
 * The schema registry `all_schemata` (layout/schemata/__init__.py): on import, every file
 * of the schemata directory whose extension is `.yaml` is parsed and loaded, and the
 * schema is stored under the file name without its extension. A schema that fails to
 * load makes the import fail.
 *
 * Listing the directory and parsing YAML are not modelled: the directory is a sequence of
 * file names in listing order, each with the document its file parses to.
 */
module SchemaRegistry {
  import opened Wrappers
  import opened Schemata

  /** A directory entry: the file name and the document the file parses to. */
  datatype SchemaFile = SchemaFile(fileName: string, doc: SchemaDoc)

  /** The position of the last `.` in `f`, if any. */
  function LastDot(f: string): (r: Option<nat>)
    ensures r.Some? ==> r.value < |f| && f[r.value] == '.' && forall i :: r.value < i < |f| ==> f[i] != '.'
    ensures r.None? ==> forall i :: 0 <= i < |f| ==> f[i] != '.'
    decreases |f|
  {
    if f == [] then None
    else if f[|f| - 1] == '.' then Some(|f| - 1)
    else LastDot(f[..|f| - 1])
  }

  predicate OnlyDots(s: string) {
    forall i :: 0 <= i < |s| ==> s[i] == '.'
  }

  /**
   * `os.path.splitext` on a bare file name: the extension starts at the last dot, unless
   * everything before that dot is dots (a leading-dot name has no extension).
   */
  function SplitExt(f: string): (r: (string, string))
    ensures r.0 + r.1 == f
    ensures r.1 != [] ==> r.1[0] == '.' && (forall i :: 1 <= i < |r.1| ==> r.1[i] != '.') && !OnlyDots(r.0)
    ensures r.1 == [] ==> forall d :: 0 <= d < |f| && f[d] == '.' ==> OnlyDots(f[..d])
  {
    match LastDot(f)
    case None => (f, [])
    case Some(d) =>
      if OnlyDots(f[..d]) then
        (f, [])
      else
        assert f[..d] + f[d..] == f;
        (f[..d], f[d..])
  }

  predicate IsYaml(f: string) {
    SplitExt(f).1 == ".yaml"
  }

  function Stem(f: string): string {
    SplitExt(f).0
  }

  /** The registry after loading `files` in turn, or `None` when some load raises. */
  function Loaded(files: seq<SchemaFile>): (r: Option<map<string, Schema>>)
    ensures r.Some? ==> forall k :: k in r.value ==> Tray in r.value[k].entities && Enclosure in r.value[k].entities
    decreases |files|
  {
    if files == [] then Some(map[])
    else
      var last := files[|files| - 1];
      match Loaded(files[..|files| - 1])
      case None => None
      case Some(registry) =>
        if !IsYaml(last.fileName) then Some(registry)
        else
          match Construct(last.doc)
          case None => None
          case Some(s) => Some(registry[Stem(last.fileName) := s])
  }

  /** The import succeeds exactly when every YAML file holds a loadable schema. */
  lemma {:induction false} LoadedSucceeds(files: seq<SchemaFile>)
    ensures Loaded(files).Some? <==>
      forall i :: 0 <= i < |files| && IsYaml(files[i].fileName) ==> Construct(files[i].doc).Some?
    decreases |files|
  {
    if files != [] {
      var init := files[..|files| - 1];
      LoadedSucceeds(init);
      assert forall i :: 0 <= i < |init| ==> init[i] == files[i];
    }
  }

  /** Every YAML file's name without its extension is a key of the registry. */
  lemma {:induction false} LoadedHasKey(files: seq<SchemaFile>, i: nat)
    requires Loaded(files).Some? && i < |files| && IsYaml(files[i].fileName)
    ensures Stem(files[i].fileName) in Loaded(files).value
    decreases |files|
  {
    if i < |files| - 1 {
      var init := files[..|files| - 1];
      assert init[i] == files[i];
      LoadedHasKey(init, i);
    }
  }

  /** Every key of the registry comes from a YAML file. */
  lemma {:induction false} LoadedKeySource(files: seq<SchemaFile>, k: string) returns (i: nat)
    requires Loaded(files).Some? && k in Loaded(files).value
    ensures i < |files| && IsYaml(files[i].fileName) && Stem(files[i].fileName) == k
    decreases |files|
  {
    var init := files[..|files| - 1];
    var last := files[|files| - 1];
    if IsYaml(last.fileName) && Stem(last.fileName) == k {
      i := |files| - 1;
    } else {
      i := LoadedKeySource(init, k);
      assert init[i] == files[i];
    }
  }

  /** The registry's keys are the names of the YAML files without their extension. */
  lemma LoadedKeys(files: seq<SchemaFile>)
    requires Loaded(files).Some?
    ensures Loaded(files).value.Keys ==
      set i | 0 <= i < |files| && IsYaml(files[i].fileName) :: Stem(files[i].fileName)
  {
    forall k | k in Loaded(files).value
      ensures exists i :: 0 <= i < |files| && IsYaml(files[i].fileName) && Stem(files[i].fileName) == k
    {
      var i := LoadedKeySource(files, k);
    }
    forall i | 0 <= i < |files| && IsYaml(files[i].fileName)
      ensures Stem(files[i].fileName) in Loaded(files).value
    {
      LoadedHasKey(files, i);
    }
  }

  /**
   * In a directory listing, where names are distinct, each YAML file's schema is stored
   * under its name, and every stored schema is one `Schema` constructed.
   */
  lemma {:induction false} LoadedValues(files: seq<SchemaFile>, i: nat)
    requires Loaded(files).Some? && i < |files| && IsYaml(files[i].fileName)
    requires forall a, b :: 0 <= a < b < |files| ==> files[a].fileName != files[b].fileName
    ensures Stem(files[i].fileName) in Loaded(files).value
    ensures Construct(files[i].doc) == Some(Loaded(files).value[Stem(files[i].fileName)])
    decreases |files|
  {
    var init := files[..|files| - 1];
    var last := files[|files| - 1];
    if i == |files| - 1 {
    } else {
      assert init[i] == files[i];
      LoadedValues(init, i);
    }
  }

  /**
   * The import loop: loads each YAML file in listing order into `schemata`. A schema that
   * fails to load stops the loop, as the exception propagates out of the import.
   */
  class Registry {
    var schemata: map<string, Schema>

    constructor()
      ensures schemata == map[]
    {
      schemata := map[];
    }

    /** `load_schema_from_file`: constructs the schema and stores it under the file's stem. */
    method LoadSchemaFromFile(file: SchemaFile) returns (ok: bool)
      modifies this
      ensures ok == Construct(file.doc).Some?
      ensures ok ==> schemata == old(schemata)[Stem(file.fileName) := Construct(file.doc).value]
      ensures !ok ==> schemata == old(schemata)
    {
      var s := NewSchema(file.doc);
      if s.None? {
        return false;
      }
      schemata := schemata[Stem(file.fileName) := s.value];
      ok := true;
    }

    method LoadAll(files: seq<SchemaFile>) returns (ok: bool)
      requires schemata == map[]
      modifies this
      ensures ok == Loaded(files).Some?
      ensures ok ==> schemata == Loaded(files).value
    {
      var i := 0;
      while i < |files|
        invariant 0 <= i <= |files|
        invariant Loaded(files[..i]) == Some(schemata)
      {
        assert files[..i + 1][..i] == files[..i];
        var file := files[i];
        if IsYaml(file.fileName) {
          var loaded := LoadSchemaFromFile(file);
          if !loaded {
            LoadedPrefixFails(files, i + 1);
            return false;
          }
        }
        i := i + 1;
      }
      assert files[..i] == files;
      ok := true;
    }
  }

  /** Once a prefix of the listing fails to load, so does the whole listing. */
  lemma {:induction false} LoadedPrefixFails(files: seq<SchemaFile>, n: nat)
    requires n <= |files| && Loaded(files[..n]).None?
    ensures Loaded(files).None?
    decreases |files| - n
  {
    if n < |files| {
      assert files[..n + 1][..n] == files[..n];
      LoadedPrefixFails(files, n + 1);
    } else {
      assert files[..n] == files;
    }
  }
}
