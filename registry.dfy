/**
  The registry of named configuration classes (bev/config/registry.py): one
  table per kind (a base class added with `add_type`), mapping a short name to
  the class registered under it.

  Classes are named by strings; `isinstance(x, type)` and `issubclass` are
  given by the caller, since the class hierarchy is Python's.
 */
module Registry {
  import opened Errors

  type ClassName = string

  /** The thing handed to `register`: a class, or an instance of something. */
  datatype Value = AType(cls: ClassName) | Instance

  type Tables = map<ClassName, map<string, ClassName>>

  /** The kinds a class belongs to. */
  function Kinds(tables: Tables, isSubclass: (ClassName, ClassName) -> bool, cls: ClassName): set<ClassName> {
    set kind | kind in tables && isSubclass(cls, kind)
  }

  /** `register(name, cls)`: the tables afterwards, or the error. */
  ghost function Registered(tables: Tables, isSubclass: (ClassName, ClassName) -> bool, name: string, v: Value)
    : (r: Result<Tables>)
    ensures '.' in name ==> r == Err(ValueError(DottedName))
    ensures '.' !in name && v.Instance? ==> r == Err(TypeError(NotAType))
    ensures '.' !in name && v.AType? && |Kinds(tables, isSubclass, v.cls)| != 1 ==> r == Err(TypeError(NoUniqueKind))
    ensures r.Ok? ==> '.' !in name && v.AType? && |Kinds(tables, isSubclass, v.cls)| == 1
    ensures r.Ok? ==> exists kind :: kind in Kinds(tables, isSubclass, v.cls) &&
                        name !in tables[kind] && r.value == tables[kind := tables[kind][name := v.cls]]
    ensures r.Err? && r.error == ValueError(NameReserved) ==>
              exists kind :: kind in Kinds(tables, isSubclass, v.cls) && name in tables[kind]
  {
    if '.' in name then Err(ValueError(DottedName))
    else if v.Instance? then Err(TypeError(NotAType))
    else
      var kinds := Kinds(tables, isSubclass, v.cls);
      if |kinds| != 1 then Err(TypeError(NoUniqueKind))
      else
        var kind :| kind in kinds;
        if name in tables[kind] then Err(ValueError(NameReserved))
        else Ok(tables[kind := tables[kind][name := v.cls]])
  }

  /** `find(name, kind)` for a name without dots. */
  function Found(tables: Tables, name: string, kind: ClassName): (r: Result<ClassName>)
    ensures kind !in tables ==> r == Err(RegistryError(UnknownKind))
    ensures kind in tables && name !in tables[kind] ==> r == Err(RegistryError(UnknownName))
    ensures r.Ok? <==> kind in tables && name in tables[kind]
    ensures r.Ok? ==> r.value == tables[kind][name]
  {
    if kind !in tables then Err(RegistryError(UnknownKind))
    else if name !in tables[kind] then Err(RegistryError(UnknownName))
    else Ok(tables[kind][name])
  }

  /** A set of one element is that element. */
  lemma Singleton<T>(s: set<T>, x: T, y: T)
    requires |s| == 1 && x in s && y in s
    ensures x == y
  {
    assert |s - {x}| == 0;
  }

  /** After a successful `register(name, cls)`, `find(name, kind)` gives `cls`
      for the class's kind, and every other lookup is as it was. */
  lemma RegisterThenFind(tables: Tables, isSubclass: (ClassName, ClassName) -> bool, name: string, v: Value)
    requires Registered(tables, isSubclass, name, v).Ok?
    ensures forall kind :: kind in Kinds(tables, isSubclass, v.cls) ==>
              Found(Registered(tables, isSubclass, name, v).value, name, kind) == Ok(v.cls)
    ensures forall n, kind :: n != name ==>
              Found(Registered(tables, isSubclass, name, v).value, n, kind) == Found(tables, n, kind)
    ensures forall kind :: kind !in Kinds(tables, isSubclass, v.cls) ==>
              Found(Registered(tables, isSubclass, name, v).value, name, kind) == Found(tables, name, kind)
  {
    var kinds := Kinds(tables, isSubclass, v.cls);
    var t := Registered(tables, isSubclass, name, v).value;
    var kind :| kind in kinds && name !in tables[kind] && t == tables[kind := tables[kind][name := v.cls]];
    forall k | k in kinds ensures Found(t, name, k) == Ok(v.cls) {
      Singleton(kinds, k, kind);
    }
  }

  class Registry {
    /** `_REGISTRY`. */
    var tables: Tables
    const isSubclass: (ClassName, ClassName) -> bool

    constructor (isSubclass: (ClassName, ClassName) -> bool)
      ensures tables == map[] && this.isSubclass == isSubclass
    {
      tables := map[];
      this.isSubclass := isSubclass;
    }

    /** `register`: on success adds only `name -> cls` to the class's kind and
        returns the class; on failure leaves every table as it was. */
    method Register(name: string, v: Value) returns (r: Result<ClassName>)
      modifies this
      ensures Registered(old(tables), isSubclass, name, v).Ok? <==> r.Ok?
      ensures r.Ok? ==> r.value == v.cls && tables == Registered(old(tables), isSubclass, name, v).value
      ensures r.Err? ==> r.error == Registered(old(tables), isSubclass, name, v).error && tables == old(tables)
    {
      if '.' in name {
        return Err(ValueError(DottedName));
      }
      if v.Instance? {
        return Err(TypeError(NotAType));
      }
      var kinds := set kind | kind in tables && isSubclass(v.cls, kind);
      if |kinds| != 1 {
        return Err(TypeError(NoUniqueKind));
      }
      var kind :| kind in kinds;
      ghost var chosen :| chosen in kinds && (name in tables[chosen] ==> Registered(tables, isSubclass, name, v) == Err(ValueError(NameReserved)))
                          && (name !in tables[chosen] ==> Registered(tables, isSubclass, name, v) == Ok(tables[chosen := tables[chosen][name := v.cls]]));
      Singleton(kinds, kind, chosen);
      var local := tables[kind];
      if name in local {
        return Err(ValueError(NameReserved));
      }
      tables := tables[kind := local[name := v.cls]];
      return Ok(v.cls);
    }

    /** `find` for a name without dots. */
    method Find(name: string, kind: ClassName) returns (r: Result<ClassName>)
      requires '.' !in name
      ensures r == Found(tables, name, kind)
    {
      if kind !in tables {
        return Err(RegistryError(UnknownKind));
      }
      var local := tables[kind];
      if name !in local {
        return Err(RegistryError(UnknownName));
      }
      return Ok(local[name]);
    }

    /** `add_type`: the kind gets an empty table (replacing any it had). */
    method AddType(kind: ClassName) returns (r: ClassName)
      modifies this
      ensures r == kind && tables == old(tables)[kind := map[]]
      ensures forall n :: Found(tables, n, kind) == Err(RegistryError(UnknownName))
    {
      tables := tables[kind := map[]];
      return kind;
    }
  }
}
