/**
  Reading a repository config (bev/config/parse.py): the entries of a config
  document and of the configs it includes, the `meta` settings inherited
  from those includes, and the choice of the local entry.

  A document is given as it was loaded from YAML, with every include already
  read: `Include.loaded` is the parent document, or None when it could not be
  found. Entry fields are kept as text; the schema validation that turns them
  into storage settings is not part of this model.
 */
module ConfigParse {
  import opened Errors
  import opened Dicts
  import opened ConfigUtils

  /** The value of one top-level key: a storage shorthand, a mapping, or anything else. */
  datatype Entry = StrEntry(storage: string) | DictEntry(fields: seq<(string, string)>) | OtherEntry

  /** An `include` of `meta`, with the parent document it names. */
  datatype Include = Include(value: string, optional: bool, loaded: Option<RawConfig>)

  /** `ConfigMeta`; the hash spec is given by its name. */
  datatype Meta = Meta(choose: Option<string>, fallback: Option<string>, order: Option<string>,
                       hash: Option<string>, includes: seq<Include>)

  /** A loaded document: not a mapping, or its `meta` and its other keys in order. */
  datatype RawConfig = NotADict | Mapping(meta: Meta, items: seq<(string, Entry)>)

  /** The settings of `ConfigMeta._override` taken from parents: None while a
      setting has not been overridden, Some(value) once it has. */
  datatype Override = Override(fallback: Option<Option<string>>, order: Option<Option<string>>,
                               choose: Option<Option<string>>, hash: Option<Option<string>>)

  const NoOverride := Override(None, None, None, None)

  /** `meta.copy(update=override)`. */
  function Apply(meta: Meta, ov: Override): (r: Meta)
    ensures r.includes == meta.includes
    ensures ov.fallback.None? ==> r.fallback == meta.fallback
    ensures ov.fallback.Some? ==> r.fallback == ov.fallback.value
  {
    meta.(fallback := if ov.fallback.Some? then ov.fallback.value else meta.fallback,
          order := if ov.order.Some? then ov.order.value else meta.order,
          choose := if ov.choose.Some? then ov.choose.value else meta.choose,
          hash := if ov.hash.Some? then ov.hash.value else meta.hash)
  }

  /** Every entry is stored under its own name. */
  predicate WellNamed(entries: seq<(string, Cluster)>) {
    forall j :: 0 <= j < |entries| ==> entries[j].1.name == entries[j].0
  }

  /** The fields set `name` themselves. */
  predicate HasNameKey(fields: seq<(string, string)>) {
    exists j :: 0 <= j < |fields| && fields[j].0 == "name"
  }

  /** One own entry: a string is `{'storage': s}`, a mapping must not carry
      `name`, and the entry's name is its key. */
  function OwnEntry(name: string, e: Entry): (r: Result<Cluster>)
    ensures e.StrEntry? ==> r == Ok(Cluster(name, [("storage", e.storage)]))
    ensures e.OtherEntry? ==> r == Err(ConfigError(BadEntry))
    ensures e.DictEntry? ==> (r.Ok? <==> forall j :: 0 <= j < |e.fields| ==> e.fields[j].0 != "name")
    ensures r.Ok? ==> r.value.name == name
  {
    match e
    case StrEntry(s) => Ok(Cluster(name, [("storage", s)]))
    case DictEntry(fields) =>
      if HasNameKey(fields) then Err(ConfigError(ReservedNameKey))
      else Ok(Cluster(name, fields))
    case OtherEntry => Err(ConfigError(BadEntry))
  }

  /** The `entries` dict after the first `n` items of the document. */
  function OwnEntries(items: seq<(string, Entry)>, n: nat): (r: Result<seq<(string, Cluster)>>)
    requires n <= |items|
  {
    if n == 0 then Ok([])
    else
      var entries :- OwnEntries(items, n - 1);
      var c :- OwnEntry(items[n - 1].0, items[n - 1].1);
      Ok(Set(entries, items[n - 1].0, c))
  }

  /** What `_parse` has built while going through the includes. */
  datatype Acc = Acc(meta: Meta, override: Override, entries: seq<(string, Cluster)>)

  /** Two dicts share a name. */
  predicate Shares(a: seq<(string, Cluster)>, b: seq<(string, Cluster)>) {
    exists i, j :: 0 <= i < |a| && 0 <= j < |b| && a[i].0 == b[j].0
  }

  /** One parent's settings and entries taken over. */
  function Adopt(acc: Acc, parent: Meta, items: seq<(string, Cluster)>): (r: Result<Acc>)
    ensures Shares(acc.entries, items) ==> r == Err(ConfigError(NameClash))
    ensures acc.meta.hash.Some? && parent.hash.Some? && acc.meta.hash != parent.hash ==> r.Err?
    ensures r.Ok? ==> r.value.entries == acc.entries + items
  {
    if Shares(acc.entries, items) then Err(ConfigError(NameClash))
    else
      var ov := Override(
        if acc.meta.fallback.None? then Some(parent.fallback) else acc.override.fallback,
        if acc.meta.order.None? then Some(parent.order) else acc.override.order,
        if acc.meta.choose.None? then Some(parent.choose) else acc.override.choose,
        if acc.meta.hash.None? then Some(parent.hash) else acc.override.hash);
      if acc.meta.hash.None? then Ok(Acc(acc.meta.(hash := parent.hash), ov, acc.entries + items))
      else if parent.hash.Some? && acc.meta.hash != parent.hash then Err(ConfigError(HashClash))
      else Ok(Acc(acc.meta, ov, acc.entries + items))
  }

  /** `_parse` of a document: its meta with the inherited settings applied, and
      its entries followed by those of its parents. */
  function Parsed(config: RawConfig): (r: Result<(Meta, seq<(string, Cluster)>)>)
    ensures config.NotADict? ==> r == Err(ConfigError(NotAMapping))
    decreases config, 1
  {
    match config
    case NotADict => Err(ConfigError(NotAMapping))
    case Mapping(meta, items) =>
      var acc :- Parents(config, |meta.includes|);
      Ok((Apply(acc.meta, acc.override), acc.entries))
  }

  /** The state after the first `n` includes. */
  function Parents(config: RawConfig, n: nat): (r: Result<Acc>)
    requires config.Mapping? && n <= |config.meta.includes|
    decreases config, 0, n
  {
    if n == 0 then
      var own :- OwnEntries(config.items, |config.items|);
      Ok(Acc(config.meta, NoOverride, own))
    else
      var acc :- Parents(config, n - 1);
      var parent := config.meta.includes[n - 1];
      assert parent in config.meta.includes;
      match parent.loaded
      case None => if parent.optional then Ok(acc) else Err(ConfigError(ParentMissing))
      case Some(document) =>
        var parsed :- Parsed(document);
        Adopt(acc, parsed.0, parsed.1)
  }

  lemma ParentsNext(config: RawConfig, k: nat, acc: Acc)
    requires config.Mapping? && k < |config.meta.includes| && Parents(config, k) == Ok(acc)
    ensures var parent := config.meta.includes[k];
      && (parent.loaded.None? ==>
            Parents(config, k + 1) == if parent.optional then Ok(acc) else Err(ConfigError(ParentMissing)))
      && (parent.loaded.Some? && Parsed(parent.loaded.value).Err? ==>
            Parents(config, k + 1) == Err(Parsed(parent.loaded.value).error))
      && (parent.loaded.Some? && Parsed(parent.loaded.value).Ok? ==>
            Parents(config, k + 1) == Adopt(acc, Parsed(parent.loaded.value).value.0, Parsed(parent.loaded.value).value.1))
  {
  }

  /** Each own entry is stored under its key, once. */
  lemma {:induction false} OwnEntriesNamed(items: seq<(string, Entry)>, n: nat)
    requires n <= |items| && OwnEntries(items, n).Ok?
    ensures WellNamed(OwnEntries(items, n).value) && Distinct(OwnEntries(items, n).value)
  {
    if n > 0 {
      OwnEntriesNamed(items, n - 1);
    }
  }

  lemma {:induction false} OwnEntriesErrorPersists(items: seq<(string, Entry)>, n: nat)
    requires n <= |items| && OwnEntries(items, n).Err?
    ensures OwnEntries(items, |items|) == OwnEntries(items, n)
    decreases |items| - n
  {
    if n < |items| {
      OwnEntriesErrorPersists(items, n + 1);
    }
  }

  lemma {:induction false} ParentsErrorPersists(config: RawConfig, n: nat)
    requires config.Mapping? && n <= |config.meta.includes| && Parents(config, n).Err?
    ensures Parents(config, |config.meta.includes|) == Parents(config, n)
    decreases |config.meta.includes| - n
  {
    if n < |config.meta.includes| {
      ParentsErrorPersists(config, n + 1);
    }
  }

  lemma OwnEntriesStep(items: seq<(string, Entry)>, i: nat, entries: seq<(string, Cluster)>)
    requires i < |items| && OwnEntries(items, i) == Ok(entries)
    ensures OwnEntry(items[i].0, items[i].1).Err? ==> OwnEntries(items, i + 1) == Err(OwnEntry(items[i].0, items[i].1).error)
    ensures OwnEntry(items[i].0, items[i].1).Ok? ==>
              OwnEntries(items, i + 1) == Ok(Set(entries, items[i].0, OwnEntry(items[i].0, items[i].1).value))
  {
  }

  /** The loop of `_parse` over the document's own keys. */
  method ParseEntries(items: seq<(string, Entry)>) returns (r: Result<seq<(string, Cluster)>>)
    ensures r == OwnEntries(items, |items|)
  {
    var entries: seq<(string, Cluster)> := [];
    var i := 0;
    while i < |items|
      invariant 0 <= i <= |items|
      invariant OwnEntries(items, i) == Ok(entries)
    {
      var c := OwnEntry(items[i].0, items[i].1);
      OwnEntriesStep(items, i, entries);
      if c.Err? {
        OwnEntriesErrorPersists(items, i + 1);
        return Err(c.error);
      }
      entries := Set(entries, items[i].0, c.value);
      i := i + 1;
    }
    return Ok(entries);
  }

  /** `_parse`. */
  method Parse(config: RawConfig) returns (r: Result<(Meta, seq<(string, Cluster)>)>)
    ensures r == Parsed(config)
    decreases config, 1
  {
    if config.NotADict? {
      return Err(ConfigError(NotAMapping));
    }
    var own := ParseEntries(config.items);
    if own.Err? {
      ParentsErrorPersists(config, 0);
      return Err(own.error);
    }
    var acc :- ParseIncludes(config, Acc(config.meta, NoOverride, own.value));
    return Ok((Apply(acc.meta, acc.override), acc.entries));
  }

  /** The loop of `_parse` over `meta.include`: each parent is parsed and its
      entries and settings taken over. */
  method ParseIncludes(config: RawConfig, start: Acc) returns (r: Result<Acc>)
    requires config.Mapping? && Parents(config, 0) == Ok(start)
    ensures r == Parents(config, |config.meta.includes|)
    decreases config, 0
  {
    var acc := start;
    var k := 0;
    while k < |config.meta.includes|
      invariant 0 <= k <= |config.meta.includes|
      invariant Parents(config, k) == Ok(acc)
    {
      var parent := config.meta.includes[k];
      assert parent in config.meta.includes;
      ParentsNext(config, k, acc);
      if parent.loaded.None? {
        if !parent.optional {
          ParentsErrorPersists(config, k + 1);
          return Err(ConfigError(ParentMissing));
        }
      } else {
        var parsed := Parse(parent.loaded.value);
        if parsed.Err? {
          ParentsErrorPersists(config, k + 1);
          return Err(parsed.error);
        }
        var adopted := Adopt(acc, parsed.value.0, parsed.value.1);
        if adopted.Err? {
          ParentsErrorPersists(config, k + 1);
          return Err(adopted.error);
        }
        acc := adopted.value;
      }
      k := k + 1;
    }
    return Ok(acc);
  }

  // ---------------------------------------------------------------------------
  // What `_parse` promises

  lemma DistinctAppend(a: seq<(string, Cluster)>, b: seq<(string, Cluster)>)
    requires Distinct(a) && Distinct(b) && !Shares(a, b)
    ensures Distinct(a + b)
  {
    forall i, j | 0 <= i < j < |a + b| ensures (a + b)[i].0 != (a + b)[j].0 {
      if j >= |a| && i < |a| {
        assert (a + b)[j] == b[j - |a|];
      }
    }
  }

  /** Every entry of a parsed config is stored under its own name, and no name
      occurs twice: own entries and those of every parent are disjoint. */
  lemma {:induction false} ParsedEntriesNamed(config: RawConfig)
    requires Parsed(config).Ok?
    ensures WellNamed(Parsed(config).value.1) && Distinct(Parsed(config).value.1)
    decreases config, 1
  {
    ParentsEntriesNamed(config, |config.meta.includes|);
  }

  lemma {:induction false} ParentsEntriesNamed(config: RawConfig, n: nat)
    requires config.Mapping? && n <= |config.meta.includes| && Parents(config, n).Ok?
    ensures WellNamed(Parents(config, n).value.entries) && Distinct(Parents(config, n).value.entries)
    decreases config, 0, n
  {
    if n == 0 {
      OwnEntriesNamed(config.items, |config.items|);
    } else {
      ParentsEntriesNamed(config, n - 1);
      var parent := config.meta.includes[n - 1];
      assert parent in config.meta.includes;
      if parent.loaded.Some? {
        var document := parent.loaded.value;
        ParsedEntriesNamed(document);
        DistinctAppend(Parents(config, n - 1).value.entries, Parsed(document).value.1);
      }
    }
  }

  /** The settings of `ConfigMeta._override` apart from the hash spec. */
  datatype Setting = Fallback | Order | Choose

  function MetaSetting(meta: Meta, s: Setting): Option<string> {
    match s
    case Fallback => meta.fallback
    case Order => meta.order
    case Choose => meta.choose
  }

  function OverrideSetting(ov: Override, s: Setting): Option<Option<string>> {
    match s
    case Fallback => ov.fallback
    case Order => ov.order
    case Choose => ov.choose
  }

  /** The parent declares a hash spec and agrees with `hash`. */
  predicate HashAgrees(parent: Include, hash: Option<string>) {
    parent.loaded.Some? ==>
      var parsed := Parsed(parent.loaded.value);
      parsed.Ok? && parsed.value.0.hash.Some? ==> parsed.value.0.hash == hash
  }

  /** While going through the includes: the document's own settings stay, an
      overridden hash spec is the adopted one, and every parent's hash spec
      agrees with it. */
  lemma {:induction false} ParentsMeta(config: RawConfig, n: nat)
    requires config.Mapping? && n <= |config.meta.includes| && Parents(config, n).Ok?
    ensures var acc := Parents(config, n).value;
      && acc.meta == config.meta.(hash := acc.meta.hash)
      && (forall s :: MetaSetting(config.meta, s).Some? ==> OverrideSetting(acc.override, s).None?)
      && (config.meta.hash.Some? ==> acc.meta.hash == config.meta.hash && acc.override.hash.None?)
      && (acc.override.hash.Some? ==> acc.override.hash.value == acc.meta.hash)
      && (forall i :: 0 <= i < n ==> HashAgrees(config.meta.includes[i], acc.meta.hash))
    decreases n
  {
    if n > 0 {
      ParentsMeta(config, n - 1);
      var before := Parents(config, n - 1).value;
      assert forall i :: 0 <= i < n - 1 ==> HashAgrees(config.meta.includes[i], before.meta.hash);
      if before.meta.hash.None? {
        forall i | 0 <= i < n - 1 ensures HashAgrees(config.meta.includes[i], Parents(config, n).value.meta.hash) {
          assert HashAgrees(config.meta.includes[i], None);
        }
      }
    }
  }

  /** The document's own hash spec, when it has one, is the result's; and every
      parent's declared hash spec agrees with the result's. */
  lemma ParsedHash(config: RawConfig)
    requires config.Mapping? && Parsed(config).Ok?
    ensures config.meta.hash.Some? ==> Parsed(config).value.0.hash == config.meta.hash
    ensures forall i :: 0 <= i < |config.meta.includes| ==>
              HashAgrees(config.meta.includes[i], Parsed(config).value.0.hash)
  {
    ParentsMeta(config, |config.meta.includes|);
  }

  /** The document's own fallback, order and choose are kept. */
  lemma ParsedKeepsOwn(config: RawConfig, s: Setting)
    requires config.Mapping? && Parsed(config).Ok? && MetaSetting(config.meta, s).Some?
    ensures MetaSetting(Parsed(config).value.0, s) == MetaSetting(config.meta, s)
  {
    ParentsMeta(config, |config.meta.includes|);
  }

  /** Index of the last of the first `n` includes that was read. */
  function LastLoaded(includes: seq<Include>, n: nat): (r: Option<nat>)
    requires n <= |includes|
    ensures r.Some? ==> r.value < n && includes[r.value].loaded.Some?
                        && forall j :: r.value < j < n ==> includes[j].loaded.None?
    ensures r.None? ==> forall j :: 0 <= j < n ==> includes[j].loaded.None?
  {
    if n == 0 then None
    else if includes[n - 1].loaded.Some? then Some(n - 1)
    else LastLoaded(includes, n - 1)
  }

  /** A setting the document leaves unset is taken from the last parent that
      was read, even when that parent leaves it unset too. */
  lemma {:induction false} ParentsInherit(config: RawConfig, n: nat, s: Setting)
    requires config.Mapping? && n <= |config.meta.includes| && Parents(config, n).Ok?
    requires MetaSetting(config.meta, s).None?
    ensures var ov := OverrideSetting(Parents(config, n).value.override, s);
      match LastLoaded(config.meta.includes, n)
      case None => ov.None?
      case Some(i) =>
        var parsed := Parsed(config.meta.includes[i].loaded.value);
        parsed.Ok? && ov == Some(MetaSetting(parsed.value.0, s))
  {
    if n > 0 {
      ParentsInherit(config, n - 1, s);
      ParentsMeta(config, n - 1);
    }
  }

  lemma ParsedInherits(config: RawConfig, s: Setting)
    requires config.Mapping? && Parsed(config).Ok? && MetaSetting(config.meta, s).None?
    ensures var result := MetaSetting(Parsed(config).value.0, s);
      match LastLoaded(config.meta.includes, |config.meta.includes|)
      case None => result.None?
      case Some(i) =>
        var parsed := Parsed(config.meta.includes[i].loaded.value);
        parsed.Ok? && result == MetaSetting(parsed.value.0, s)
  {
    ParentsInherit(config, |config.meta.includes|, s);
    ParentsMeta(config, |config.meta.includes|);
  }

  // ---------------------------------------------------------------------------
  // parse

  /** `RepositoryConfig`: the chosen local entry, the others as remotes, and the meta. */
  datatype RepositoryConfig = RepositoryConfig(local: Cluster, remotes: seq<Cluster>, meta: Meta)

  /** `entries.values()`. */
  function Values(entries: seq<(string, Cluster)>): (r: seq<Cluster>)
    ensures |r| == |entries| && forall j :: 0 <= j < |r| ==> r[j] == entries[j].1
  {
    if entries == [] then [] else [entries[0].1] + Values(entries[1..])
  }

  /** `entries.values()` after `entries.pop(entries[i].0)`, for distinct names. */
  function Others(entries: seq<(string, Cluster)>, i: nat): (r: seq<Cluster>)
    requires i < |entries|
    ensures r == Values(entries[..i]) + Values(entries[i + 1..])
  {
    Values(entries[..i]) + Values(entries[i + 1..])
  }

  /** In well-named entries without repeats, every key names its entry, and
      `entries.pop(key)` takes exactly that entry. */
  lemma PopNamed(entries: seq<(string, Cluster)>)
    requires WellNamed(entries) && Distinct(entries)
    ensures forall i :: 0 <= i < |entries| ==>
              HasName(Values(entries), entries[i].0) && FindFrom(entries, entries[i].0, 0) == Some(i)
  {
    forall i | 0 <= i < |entries| {
      PopNamedAt(entries, i);
    }
  }

  lemma {:induction false} PopNamedAt(entries: seq<(string, Cluster)>, i: nat)
    requires WellNamed(entries) && Distinct(entries) && i < |entries|
    ensures HasName(Values(entries), entries[i].0) && FindFrom(entries, entries[i].0, 0) == Some(i)
  {
  }

  /** The predicate picking the local entry: `default_choose`, or the function
      `meta.choose` names (resolved by `imported`). */
  function Chooser(meta: Meta, defaultChoose: Cluster -> bool, imported: string -> (Cluster -> bool)): Cluster -> bool {
    if meta.choose.None? then defaultChoose else imported(meta.choose.value)
  }

  /** `parse`: a single entry is the local one and there are no remotes;
      otherwise the chosen entry is popped and the rest, in order, are remotes. */
  function ParseRepository(config: RawConfig, defaultChoose: Cluster -> bool, imported: string -> (Cluster -> bool))
    : (r: Result<RepositoryConfig>)
    ensures Parsed(config).Err? ==> r == Err(Parsed(config).error)
    ensures Parsed(config).Ok? ==>
      var (meta, entries) := Parsed(config).value;
      var choose := Chooser(meta, defaultChoose, imported);
      && (|entries| == 1 ==> r == Ok(RepositoryConfig(entries[0].1, [], meta)))
      && (|entries| != 1 ==>
            && (forall i :: 0 <= i < |entries| && choose(entries[i].1) && (forall j :: 0 <= j < i ==> !choose(entries[j].1)) ==>
                  r == Ok(RepositoryConfig(entries[i].1, Others(entries, i), meta)))
            && ((forall i :: 0 <= i < |entries| ==> !choose(entries[i].1)) ==>
                  && (meta.fallback.None? ==> r == Err(ConfigError(NoMatch)))
                  && (meta.fallback.Some? && !HasName(Values(entries), meta.fallback.value) ==>
                        r == Err(ConfigError(UnknownFallback)))
                  && (meta.fallback.Some? && HasName(Values(entries), meta.fallback.value) ==>
                        r.Ok? && r.value.local.name == meta.fallback.value)
                  && (meta.fallback.Some? ==> forall i :: 0 <= i < |entries| && entries[i].0 == meta.fallback.value ==>
                        r == Ok(RepositoryConfig(entries[i].1, Others(entries, i), meta)))))
  {
    var parsed :- Parsed(config);
    var (meta, entries) := parsed;
    if |entries| == 1 then Ok(RepositoryConfig(entries[0].1, [], meta))
    else
      ParsedEntriesNamed(config);
      PopNamed(entries);
      var name :- ChooseLocal(Values(entries), Chooser(meta, defaultChoose, imported), meta.fallback);
      if name.None? then Err(ConfigError(NoMatch))
      else
        match FindFrom(entries, name.value, 0)
        case None => assert false; Err(ConfigError(NoMatch))
        case Some(i) => Ok(RepositoryConfig(entries[i].1, Others(entries, i), meta))
  }
}
