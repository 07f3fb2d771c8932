/**
  The configuration manager: a YAML document loaded once from a path, read
  through a dotted-key lookup and through one getter per top-level section.
*/
module Configuration {
  import opened Base
  import opened Text

  /**
    A value as the YAML loader returns it. Mapping keys are strings here: a
    lookup only ever uses string keys, and a mapping with other keys simply
    does not contain them.
  */
  datatype Yaml =
    | Null
    | Bool(b: bool)
    | Int(i: int)
    | Float(r: real)
    | Str(s: string)
    | List(items: seq<Yaml>)
    | Mapping(entries: map<string, Yaml>)

  /** A configuration: the path it was read from and the document. */
  datatype Config = Config(path: string, document: Yaml)

  /**
    Loading: a path with no file raises FileNotFoundError before anything is
    read; otherwise the document is what the YAML loader makes of the text,
    and text the loader rejects raises the loader's error unchanged.
  */
  function Load(files: map<string, string>, path: string, parse: string -> Result<Yaml>): (r: Result<Config>)
    ensures path !in files ==> r == Raised("FileNotFoundError")
    ensures path in files && parse(files[path]).Raised? ==> r == Raised(parse(files[path]).exception)
    ensures r.Ok? <==> path in files && parse(files[path]).Ok?
    ensures r.Ok? ==> r.value.path == path && r.value.document == parse(files[path]).value
  {
    if path !in files then Raised("FileNotFoundError")
    else match parse(files[path])
      case Raised(x) => Raised(x)
      case Ok(d) => Ok(Config(path, d))
  }

  // ---------------------------------------------------------------------------
  // The dotted lookup

  /**
    The value reached from v by indexing one level per key, in order; the
    default as soon as a level is not a mapping (TypeError) or lacks the key
    (KeyError).
  */
  function Walk(v: Yaml, keys: seq<string>, default: Yaml): Yaml
    decreases |keys|
  {
    if keys == [] then v
    else match v
      case Mapping(m) => if keys[0] in m then Walk(m[keys[0]], keys[1..], default) else default
      case _ => default
  }

  /** get(key_path, default): the key path split on '.' and walked from the document. */
  function Get(c: Config, keyPath: string, default: Yaml): Yaml {
    Walk(c.document, Split(keyPath, '.'), default)
  }

  /** Whether every key along the path is found, each level a mapping. */
  predicate Reaches(v: Yaml, keys: seq<string>)
    decreases |keys|
  {
    keys == [] || (v.Mapping? && keys[0] in v.entries && Reaches(v.entries[keys[0]], keys[1..]))
  }

  /** The value at the end of a path that is reached. */
  function ValueAt(v: Yaml, keys: seq<string>): Yaml
    requires Reaches(v, keys)
    decreases |keys|
  {
    if keys == [] then v else ValueAt(v.entries[keys[0]], keys[1..])
  }

  /**
    The lookup gives the value at the end of the path whenever the path is
    reached, even when that value is null, and the default exactly when it is not.
  */
  lemma {:induction false} WalkFindsOrDefaults(v: Yaml, keys: seq<string>, default: Yaml)
    ensures Reaches(v, keys) ==> Walk(v, keys, default) == ValueAt(v, keys)
    ensures !Reaches(v, keys) ==> Walk(v, keys, default) == default
    decreases |keys|
  {
    if keys != [] && v.Mapping? && keys[0] in v.entries {
      WalkFindsOrDefaults(v.entries[keys[0]], keys[1..], default);
    }
  }

  /** A key present with a null value gives null, not the default. */
  lemma PresentNullIsNotDefault(c: Config, key: string, default: Yaml)
    requires '.' !in key
    requires c.document.Mapping? && key in c.document.entries && c.document.entries[key] == Null
    ensures Get(c, key, default) == Null
  {
    SplitSingle(key, '.');
    assert [key][1..] == [];
    assert Walk(c.document.entries[key], [], default) == Null;
  }

  /** A string without the separator splits into itself alone. */
  lemma SplitSingle(s: string, sep: char)
    requires sep !in s
    ensures Split(s, sep) == [s]
  {
  }

  /** Walking a longer path is walking its first part, then the rest from where it ends. */
  lemma {:induction false} WalkAppend(v: Yaml, a: seq<string>, b: seq<string>, default: Yaml)
    ensures Walk(v, a + b, default) == if Reaches(v, a) then Walk(ValueAt(v, a), b, default) else default
    decreases |a|
  {
    if a == [] {
      assert a + b == b;
    } else {
      assert (a + b)[0] == a[0] && (a + b)[1..] == a[1..] + b;
      if v.Mapping? && a[0] in v.entries {
        WalkAppend(v.entries[a[0]], a[1..], b, default);
      }
    }
  }

  /**
    "a.b" looks up "b" in what "a" gives, for keys without a dot, whenever
    "a" holds a value.
  */
  lemma NestedLookup(c: Config, a: string, b: string, default: Yaml)
    requires '.' !in a && '.' !in b
    requires c.document.Mapping? && a in c.document.entries
    ensures Get(c, a + "." + b, default) == Walk(c.document.entries[a], [b], default)
  {
    var parts := [a, b];
    assert forall i :: 0 <= i < |parts| ==> '.' !in parts[i];
    JoinSplit(parts, '.');
    assert Join(parts, '.') == a + "." + b by {
      assert parts[1..] == [b];
    }
    assert parts == [a] + [b];
    WalkAppend(c.document, [a], [b], default);
  }

  // ---------------------------------------------------------------------------
  // The section getters

  /**
    self._config.get(name, {}): the section when the document is a mapping
    holding it, an empty mapping when it is a mapping without it; any other
    document (an empty file loads as null) has no .get and raises AttributeError.
  */
  function Section(c: Config, name: string): (r: Result<Yaml>)
    ensures r.Raised? <==> !c.document.Mapping?
    ensures r.Ok? ==> r.value == if name in c.document.entries then c.document.entries[name] else Mapping(map[])
  {
    match c.document
    case Mapping(m) => Ok(if name in m then m[name] else Mapping(map[]))
    case _ => Raised("AttributeError")
  }

  function DatabaseConfig(c: Config): Result<Yaml> { Section(c, "database") }
  function SecEdgarConfig(c: Config): Result<Yaml> { Section(c, "sec_edgar") }
  function LlmConfig(c: Config): Result<Yaml> { Section(c, "llm") }
  function StorageConfig(c: Config): Result<Yaml> { Section(c, "storage") }
  function ScreeningConfig(c: Config): Result<Yaml> { Section(c, "screening") }
  function PerformanceConfig(c: Config): Result<Yaml> { Section(c, "performance") }

  /**
    For a mapping document, a present section's getter and the dotted lookup
    of its name agree; for an absent one the getter gives {} and the lookup
    the default.
  */
  lemma SectionAgreesWithGet(c: Config, name: string, default: Yaml)
    requires '.' !in name && c.document.Mapping?
    ensures name in c.document.entries ==> Section(c, name) == Ok(Get(c, name, default))
    ensures name !in c.document.entries ==> Section(c, name) == Ok(Mapping(map[])) && Get(c, name, default) == default
  {
    SplitSingle(name, '.');
    assert [name][1..] == [];
    if name in c.document.entries {
      assert Walk(c.document.entries[name], [], default) == c.document.entries[name];
    }
  }
}
