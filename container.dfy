/** `MsIoContainer`: the registry of schemas and the header matcher.
    It keeps five tables: flat schemas (`mappingCache`), nested schemas with
    their depth (`complexMappingCache`), the backing type of each id
    (`classCache`), the converter instances created so far
    (`instanceCache`) and the hot tier filled from the configuration
    document (`temporaryMappingCache`).

    Reflection is replaced by descriptors: the transform container is the
    set of its method names, `Class.forName` is the table `classpath`, and
    `newInstance` succeeds for the converter classes in `instantiable`. The
    configuration file is the already-parsed document `config`; `initJson`
    (reading it again) is `Reload`. */
module Container {
  import opened Wrappers
  import opened JavaStrings
  import opened LinkedMaps
  import opened Descriptors
  import opened Depth
  import opened FlatSchemas
  import opened ConfigDocs
  import opened HeaderMatch

  /** The Information the nested field loop of `addMappingComplex(Class)`
      builds for one mapped field. A field whose type is itself a schema
      type gets its raw display name and that type's schema as children
      (`None` when `get` found none); `child` is what looking the type up,
      and registering it when needed, produced. Any other field is treated
      as in the flat loop. */
  function NestedInformation(f: FieldDesc, child: Result<Option<Schema>>, container: set<string>, instantiable: set<string>): Result<Information> {
    if Mapped(f) && f.fieldType.operator.Some? then
      var value :- child;
      Ok(Information(f.item.value.value, None, false, None, false, Some(f.fieldType), value))
    else FieldInformation(f, container, instantiable)
  }

  function NestedInfos(fields: seq<FieldDesc>, children: seq<Result<Option<Schema>>>, container: set<string>, instantiable: set<string>): (r: seq<Result<Information>>)
    requires |children| == |fields|
    ensures |r| == |fields|
  {
    if fields == [] then []
    else
      var last := NestedInformation(fields[|fields| - 1], children[|fields| - 1], container, instantiable);
      NestedInfos(fields[..|fields| - 1], children[..|fields| - 1], container, instantiable) + [last]
  }

  lemma {:induction false} NestedInfosAt(fields: seq<FieldDesc>, children: seq<Result<Option<Schema>>>, container: set<string>, instantiable: set<string>, i: nat)
    requires |children| == |fields| && i < |fields|
    ensures NestedInfos(fields, children, container, instantiable)[i] == NestedInformation(fields[i], children[i], container, instantiable)
  {
    if i < |fields| - 1 {
      NestedInfosAt(fields[..|fields| - 1], children[..|fields| - 1], container, instantiable, i);
    }
  }

  /** Recording the child of field `k` changes neither the fold of the
      fields before it nor anything but the Information of field `k`. */
  lemma NestedInfosUpdate(fields: seq<FieldDesc>, children: seq<Result<Option<Schema>>>, k: nat, child: Result<Option<Schema>>,
                          container: set<string>, instantiable: set<string>)
    requires |children| == |fields| && k < |fields|
    ensures Fold(fields, NestedInfos(fields, children[k := child], container, instantiable), k) ==
      Fold(fields, NestedInfos(fields, children, container, instantiable), k)
    ensures NestedInfos(fields, children[k := child], container, instantiable)[k] == NestedInformation(fields[k], child, container, instantiable)
  {
    var before := NestedInfos(fields, children, container, instantiable);
    var after := NestedInfos(fields, children[k := child], container, instantiable);
    forall i | 0 <= i < k
      ensures before[i] == after[i]
    {
      NestedInfosAt(fields, children, container, instantiable, i);
      NestedInfosAt(fields, children[k := child], container, instantiable, i);
    }
    FoldPrefix(fields, before, after, k);
    NestedInfosAt(fields, children[k := child], container, instantiable, k);
  }

  /** The nested loop after its first `n` fields. */
  function NestedPrefix(fields: seq<FieldDesc>, children: seq<Result<Option<Schema>>>, container: set<string>, instantiable: set<string>, n: nat): Result<Schema>
    requires |children| == |fields| && n <= |fields|
  {
    Fold(fields, NestedInfos(fields, children, container, instantiable), n)
  }

  /** One more field, whose type lookup produced `child`. */
  lemma NestedStep(fields: seq<FieldDesc>, children: seq<Result<Option<Schema>>>, k: nat, child: Result<Option<Schema>>, container: set<string>, instantiable: set<string>)
    requires |children| == |fields| && k < |fields|
    requires NestedPrefix(fields, children, container, instantiable, k).Ok?
    ensures NestedPrefix(fields, children[k := child], container, instantiable, k + 1) ==
      if !Mapped(fields[k]) then NestedPrefix(fields, children, container, instantiable, k)
      else match NestedInformation(fields[k], child, container, instantiable)
        case Ok(info) => Ok(NestedPrefix(fields, children, container, instantiable, k).value.Put(fields[k].name, info))
        case Err(e) => Err(e)
  {
    NestedInfosUpdate(fields, children, k, child, container, instantiable);
  }

  /** After an exception the rest of the nested loop changes nothing. */
  lemma NestedErrorSticks(fields: seq<FieldDesc>, children: seq<Result<Option<Schema>>>, k: nat, container: set<string>, instantiable: set<string>)
    requires |children| == |fields| && k <= |fields|
    requires NestedPrefix(fields, children, container, instantiable, k).Err?
    ensures NestedPrefix(fields, children, container, instantiable, |fields|) == NestedPrefix(fields, children, container, instantiable, k)
  {
    FoldErrorSticks(fields, NestedInfos(fields, children, container, instantiable), k, |fields|);
  }

  /** The field loop of one configuration entry: every key, renamed, is put
      with the Information its descriptor text gives; the first exception
      ends it. */
  method BuildConfigSchema(fields: LinkedMap<string, string>, pojo: Option<TypeDesc>, container: set<string>) returns (r: Result<Schema>)
    requires fields.Valid()
    ensures r == ParseFields(fields, pojo, container)
  {
    var mappingItem: Schema := Empty();
    for k := 0 to |fields.keys|
      invariant ParsedPrefix(fields, pojo, container, k) == Ok(mappingItem)
    {
      var next := PutConfigKey(fields, k, pojo, container, mappingItem);
      if next.Err? {
        PutAllErrorSticks(StoredKeys(fields.keys), FieldInfos(fields, pojo, container), k + 1, |fields.keys|);
        return next;
      }
      mappingItem := next.value;
    }
    return Ok(mappingItem);
  }

  /** One turn of the loop: put the `k`-th configured key, or fail with its
      descriptor's error. */
  method PutConfigKey(fields: LinkedMap<string, string>, k: nat, pojo: Option<TypeDesc>, container: set<string>, mappingItem: Schema)
    returns (r: Result<Schema>)
    requires fields.Valid() && k < |fields.keys|
    requires ParsedPrefix(fields, pojo, container, k) == Ok(mappingItem)
    ensures r == ParsedPrefix(fields, pojo, container, k + 1)
  {
    var egName := fields.keys[k];
    var info := ConfigInformation(egName, fields.values[egName], pojo, container);
    InfosOfAt(fields, fields.keys, pojo, container, k);
    PutAllStep(StoredKeys(fields.keys), FieldInfos(fields, pojo, container), k);
    if info.Err? {
      return Err(info.error);
    }
    r := Ok(mappingItem.Put(StoredKey(egName), info.value));
  }

  /** The side-effect-free part of one entry of `addMapping(Map)`: the
      backing class its `className` names, and the schema its other keys
      describe. */
  method ParseEntry(information: LinkedMap<string, string>, env: Env) returns (pojo: Result<Option<TypeDesc>>, mappingItem: Result<Schema>)
    requires information.Valid()
    ensures pojo == EntryPojo(information, env.classpath)
    ensures mappingItem == EntrySchema(information, env)
    ensures mappingItem.Ok? ==> mappingItem.value.Valid()
  {
    pojo := EntryPojo(information, env.classpath);
    if pojo.Err? {
      return pojo, Err(pojo.error);
    }
    mappingItem := BuildConfigSchema(EntryFields(information), pojo.value, env.container);
    ParseFieldsValid(EntryFields(information), pojo.value, env.container);
  }

  /** The exceptions registration from descriptors throws: `NullPointer`
      for a sub-type without `@MsOperator`, `NoSuchMethod` for a missing
      container method and `IllegalAccess` for a duplicate id. */
  predicate RegistrationError(e: Exception) {
    e.NullPointer? || e.NoSuchMethod? || e.IllegalAccess?
  }

  /** A type with `@MsOperator` and sub-types whose depth computation
      `getDepthLevel(op, 2)` throws, because a sub-type it reaches lacks
      `@MsOperator`. */
  predicate DepthFails(t: TypeDesc) {
    t.operator.Some? && t.operator.value.subClazz != [] &&
    DepthLevel(t.operator.value, |t.operator.value.subClazz|, 2).None?
  }

  /** `addMappingComplex(Map)`: a stub that registers nothing. */
  function AddMappingComplexDoc(doc: ConfigDoc): (r: Result<bool>)
    ensures r == Ok(false)
  {
    Ok(false)
  }

  /** The four schema tables at one moment, as a value: what a lookup saw
      before a field of the nested loop, and what the tables held after it. */
  datatype Tables = Tables(mapping: map<string, Schema>, complex: map<string, ComplexBo>,
                           classes: map<string, TypeDesc>, temp: map<string, Schema>)

  class MsIoContainer {
    const hotDeploySign: bool
    const container: set<string>              // method names of the transform container
    const classpath: map<string, TypeDesc>    // what `Class.forName` finds
    const instantiable: set<string>           // converter classes `newInstance` can create
    const config: Option<ConfigDoc>           // the parsed configuration document, if any

    var mappingCache: map<string, Schema>
    var complexMappingCache: map<string, ComplexBo>
    var classCache: map<string, TypeDesc>
    var instanceCache: set<string>            // a converter instance is identified by its class
    var temporaryMappingCache: map<string, Schema>

    ghost predicate ConfigValid() {
      config.Some? ==> DocValid(config.value)
    }

    /** Every stored schema is a well-formed ordered map; every registered
        id has a backing type; complex depths start at 2; only creatable
        converters are cached. */
    ghost predicate Valid()
      reads this
    {
      ConfigValid() &&
      (forall id :: id in mappingCache ==> mappingCache[id].Valid()) &&
      (forall id :: id in temporaryMappingCache ==> temporaryMappingCache[id].Valid()) &&
      (forall id :: id in complexMappingCache ==>
        complexMappingCache[id].structure.Valid() && complexMappingCache[id].depthLevel >= 2) &&
      mappingCache.Keys <= classCache.Keys &&
      complexMappingCache.Keys <= classCache.Keys &&
      instanceCache <= instantiable
    }

    /** Every schema of the temporary tier is a well-formed ordered map. */
    ghost predicate TempValid()
      reads this
    {
      forall id :: id in temporaryMappingCache ==> temporaryMappingCache[id].Valid()
    }

    /** No table loses a key, and a flat schema, once registered, is never
        replaced. */
    twostate predicate Grows()
      reads this
    {
      old(mappingCache.Keys) <= mappingCache.Keys &&
      (forall id :: id in old(mappingCache) ==> mappingCache[id] == old(mappingCache)[id]) &&
      old(complexMappingCache.Keys) <= complexMappingCache.Keys &&
      old(classCache.Keys) <= classCache.Keys &&
      old(temporaryMappingCache.Keys) <= temporaryMappingCache.Keys &&
      old(instanceCache) <= instanceCache
    }

    function Environment(): Env {
      Env(hotDeploySign, container, classpath)
    }

    /** The tables `addMapping(Map)` writes. */
    function DocTables(): DocState
      reads this
    {
      DocState(classCache, temporaryMappingCache)
    }

    /** Those tables after `initJson` from `st`, with `registered` the ids
        of `mappingCache`: the document is applied and its exception
        swallowed. */
    function Reloaded(st: DocState, registered: set<string>): DocState
      requires ConfigValid()
    {
      if config.None? then st else ApplyDoc(st, config.value, Environment(), registered).state
    }

    constructor(hotDeploySign: bool, container: set<string>, classpath: map<string, TypeDesc>,
                instantiable: set<string>, config: Option<ConfigDoc>)
      requires config.Some? ==> DocValid(config.value)
      ensures Valid()
      ensures this.hotDeploySign == hotDeploySign && this.container == container && this.classpath == classpath
      ensures this.instantiable == instantiable && this.config == config
      ensures mappingCache == map[] && complexMappingCache == map[] && classCache == map[]
      ensures instanceCache == {} && temporaryMappingCache == map[]
    {
      this.hotDeploySign := hotDeploySign;
      this.container := container;
      this.classpath := classpath;
      this.instantiable := instantiable;
      this.config := config;
      mappingCache := map[];
      complexMappingCache := map[];
      classCache := map[];
      instanceCache := {};
      temporaryMappingCache := map[];
    }

    // -------------------------------------------------------------------------
    // lookups

    /** `getDepthLevel(String)`: the recorded depth, 0 for an id without a
        nested schema. */
    function DepthLevelOf(key: string): (r: int)
      reads this
      ensures key !in complexMappingCache ==> r == 0
      ensures key in complexMappingCache ==> r == complexMappingCache[key].depthLevel
    {
      if key in complexMappingCache then complexMappingCache[key].depthLevel else 0
    }

    /** A registry in a consistent state answers 0 exactly for ids without a
        nested schema and at least 2 for the others. */
    lemma DepthLevelRange(key: string)
      requires Valid()
      ensures DepthLevelOf(key) == 0 <==> key !in complexMappingCache
      ensures DepthLevelOf(key) != 0 ==> DepthLevelOf(key) >= 2
    {
    }

    /** `getClazz`: `null` for a null id, the backing type when there is one,
        `Map` otherwise. */
    function GetClazz(key: Option<string>): (r: Option<TypeDesc>)
      reads this
      ensures r.None? <==> key.None?
      ensures key.Some? && key.value in classCache ==> r == Some(classCache[key.value])
      ensures key.Some? && key.value !in classCache ==> r == Some(MapClass)
    {
      match key
      case None => None
      case Some(k) => Some(if k in classCache then classCache[k] else MapClass)
    }

    /** `getCache`: the nested schema's structure shadows a flat schema of
        the same id; `null` when neither exists. */
    function GetCache(key: string): (r: Option<Schema>)
      reads this
      ensures r.None? <==> key !in complexMappingCache && key !in mappingCache
      ensures key in complexMappingCache ==> r == Some(complexMappingCache[key].structure)
      ensures key !in complexMappingCache && key in mappingCache ==> r == Some(mappingCache[key])
    {
      CacheIn(Snapshot(), key)
    }

    /** What `get(String)` answers from the current tables: an empty schema
        for a null id; in hot mode the temporary entry when there is one;
        otherwise `getCache`. */
    function Visible(key: Option<string>): (r: Option<Schema>)
      reads this
    {
      if key.None? then Some(Empty()) else VisibleIn(Snapshot(), key.value)
    }

    /** `get` finds a schema for `key`: in the hot tier (hot mode), or
        among the nested or the flat schemas. */
    predicate Findable(key: string)
      reads this
    {
      FindableIn(Snapshot(), key)
    }

    /** What `get(key)` will answer, seen from the tables before the call:
        in hot mode the document is applied first and its hot tier wins;
        otherwise, and when the hot tier lacks the id, `getCache`. */
    function Lookup(key: string): Option<Schema>
      requires ConfigValid()
      reads this
    {
      LookupIn(Snapshot(), key)
    }

    /** The tables as they are now. */
    function Snapshot(): Tables
      reads this
    {
      Tables(mappingCache, complexMappingCache, classCache, temporaryMappingCache)
    }

    /** `getCache` on the tables `st`. */
    function CacheIn(st: Tables, key: string): Option<Schema> {
      if key in st.complex then Some(st.complex[key].structure)
      else if key in st.mapping then Some(st.mapping[key])
      else None
    }

    /** What `get` of a non-null id answers from the tables `st`. */
    function VisibleIn(st: Tables, key: string): Option<Schema> {
      if hotDeploySign && key in st.temp then Some(st.temp[key]) else CacheIn(st, key)
    }

    /** `get` finds a schema for `key` in the tables `st`. */
    predicate FindableIn(st: Tables, key: string) {
      (hotDeploySign && key in st.temp) || key in st.complex || key in st.mapping
    }

    /** What `get(key)` answers when called on the tables `st`, reload
        included. */
    function LookupIn(st: Tables, key: string): Option<Schema>
      requires ConfigValid()
    {
      var reloaded := Reloaded(DocState(st.classes, st.temp), st.mapping.Keys);
      if hotDeploySign && key in reloaded.temp then Some(reloaded.temp[key]) else CacheIn(st, key)
    }

    /** The tiers `get` consults, in order: a null id gives an empty schema;
        in hot mode a temporary entry wins; then a nested schema; then a
        flat one. */
    lemma VisibleTiers(key: string)
      ensures hotDeploySign && key in temporaryMappingCache ==> Visible(Some(key)) == Some(temporaryMappingCache[key])
      ensures !(hotDeploySign && key in temporaryMappingCache) && key in complexMappingCache ==>
        Visible(Some(key)) == Some(complexMappingCache[key].structure)
      ensures !(hotDeploySign && key in temporaryMappingCache) && key !in complexMappingCache ==>
        Visible(Some(key)) == (if key in mappingCache then Some(mappingCache[key]) else None)
      ensures !hotDeploySign ==> Visible(Some(key)) == GetCache(key)
      ensures Visible(None) == Some(Empty())
    {
    }

    // -------------------------------------------------------------------------
    // the configuration document

    /** `addMapping(Map)`: the tables end up as `ApplyDoc` describes, and the
        call returns or throws what it does; `mappingCache` is never
        written. */
    method AddMappingDoc(doc: ConfigDoc) returns (r: Result<bool>)
      requires Valid() && DocValid(doc)
      modifies this
      ensures Valid() && Grows()
      ensures Applied(DocTables(), r) == ApplyDoc(old(DocTables()), doc, Environment(), old(mappingCache.Keys))
      ensures mappingCache == old(mappingCache) && complexMappingCache == old(complexMappingCache)
      ensures instanceCache == old(instanceCache)
    {
      if doc.IsEmpty() {
        return Ok(false);
      }
      var _ := AddMappingComplexDoc(doc);
      r := AddEntries(doc);
    }

    /** The entry loop of `addMapping(Map)`. */
    method AddEntries(doc: ConfigDoc) returns (r: Result<bool>)
      requires TempValid() && DocValid(doc)
      modifies this
      ensures TempValid()
      ensures old(classCache.Keys) <= classCache.Keys && old(temporaryMappingCache.Keys) <= temporaryMappingCache.Keys
      ensures Applied(DocTables(), r) == DocPrefix(old(DocTables()), doc, Environment(), |doc.keys|, old(mappingCache.Keys))
      ensures mappingCache == old(mappingCache) && complexMappingCache == old(complexMappingCache)
      ensures instanceCache == old(instanceCache)
    {
      ghost var st0 := DocTables();
      ghost var registered := mappingCache.Keys;
      for k := 0 to |doc.keys|
        invariant TempValid()
        invariant old(classCache.Keys) <= classCache.Keys && old(temporaryMappingCache.Keys) <= temporaryMappingCache.Keys
        invariant DocPrefix(st0, doc, Environment(), k, registered) == Applied(DocTables(), Ok(true))
        invariant mappingCache == old(mappingCache) && complexMappingCache == old(complexMappingCache)
        invariant registered == mappingCache.Keys
        invariant instanceCache == old(instanceCache)
      {
        var added := AddEntry(doc, k, st0, registered);
        if added.Err? {
          DocErrorSticks(st0, doc, Environment(), k + 1, registered);
          return added;
        }
      }
      return Ok(true);
    }

    /** One turn of the entry loop: the `k`-th entry is parsed and stored. */
    method AddEntry(doc: ConfigDoc, k: nat, ghost st0: DocState, ghost registered: set<string>) returns (r: Result<bool>)
      requires TempValid() && DocValid(doc) && k < |doc.keys|
      requires DocPrefix(st0, doc, Environment(), k, registered) == Applied(DocTables(), Ok(true))
      requires registered == mappingCache.Keys
      modifies this
      ensures TempValid()
      ensures old(classCache.Keys) <= classCache.Keys && old(temporaryMappingCache.Keys) <= temporaryMappingCache.Keys
      ensures DocPrefix(st0, doc, Environment(), k + 1, registered) == Applied(DocTables(), r)
      ensures mappingCache == old(mappingCache) && complexMappingCache == old(complexMappingCache)
      ensures instanceCache == old(instanceCache)
    {
      DocStep(st0, doc, Environment(), k, registered);
      var id := doc.keys[k];
      var pojo, mappingItem := ParseEntry(doc.values[id], Environment());
      r := StoreEntry(id, pojo, mappingItem);
    }

    /** What one entry of `addMapping(Map)` writes, given its backing class
        and its parsed fields: the class is recorded, then the schema is
        stored (hot) or checked against `mappingCache` (cold). */
    method StoreEntry(id: string, pojo: Result<Option<TypeDesc>>, mappingItem: Result<Schema>) returns (r: Result<bool>)
      requires TempValid() && (mappingItem.Ok? ==> mappingItem.value.Valid())
      modifies this
      ensures TempValid()
      ensures old(classCache.Keys) <= classCache.Keys && old(temporaryMappingCache.Keys) <= temporaryMappingCache.Keys
      ensures Applied(DocTables(), r) == Store(old(DocTables()), id, pojo, mappingItem, hotDeploySign, mappingCache.Keys)
      ensures mappingCache == old(mappingCache) && complexMappingCache == old(complexMappingCache)
      ensures instanceCache == old(instanceCache)
    {
      if pojo.Err? {
        return Err(pojo.error);
      }
      if pojo.value.Some? {
        classCache := classCache[id := pojo.value.value];
      }
      if mappingItem.Err? {
        return Err(mappingItem.error);
      }
      if hotDeploySign {
        temporaryMappingCache := temporaryMappingCache[id := mappingItem.value];
      } else if id in mappingCache {
        return Err(IllegalAccess(id, if pojo.value.Some? then [pojo.value.value.name] else []));
      }
      return Ok(true);
    }

    /** `initJson`: apply the document, if there is one, and swallow what it
        throws. */
    method Reload()
      requires Valid()
      modifies this
      ensures Valid() && Grows()
      ensures DocTables() == Reloaded(old(DocTables()), mappingCache.Keys)
      ensures mappingCache == old(mappingCache) && complexMappingCache == old(complexMappingCache)
      ensures instanceCache == old(instanceCache)
    {
      if config.Some? {
        var _ := AddMappingDoc(config.value);
      }
    }

    /** Reloading twice leaves what reloading once leaves. */
    lemma ReloadedTwice(st: DocState, registered: set<string>)
      requires ConfigValid()
      ensures Reloaded(Reloaded(st, registered), registered) == Reloaded(st, registered)
    {
      if config.Some? {
        ApplyDocIdempotent(st, config.value, Environment(), registered);
      }
    }

    // -------------------------------------------------------------------------
    // get

    /** `getTemporary`: reload, then look the id up in the hot tier. */
    method GetTemporary(key: string) returns (r: Option<Schema>)
      requires Valid()
      modifies this
      ensures Valid() && Grows()
      ensures DocTables() == Reloaded(old(DocTables()), mappingCache.Keys)
      ensures mappingCache == old(mappingCache) && complexMappingCache == old(complexMappingCache)
      ensures instanceCache == old(instanceCache)
      ensures r.Some? <==> key in temporaryMappingCache
      ensures r.Some? ==> r.value == temporaryMappingCache[key]
    {
      Reload();
      r := if key in temporaryMappingCache then Some(temporaryMappingCache[key]) else None;
    }

    /** `get(String)`: in hot mode the document is reloaded (twice when the
        hot tier has the id, which leaves the same tables) and the answer is
        what `Visible` gives on the reloaded tables. */
    method Get(key: Option<string>) returns (r: Option<Schema>)
      requires Valid()
      modifies this
      ensures Valid() && Grows()
      ensures DocTables() == if hotDeploySign && key.Some? then Reloaded(old(DocTables()), mappingCache.Keys) else old(DocTables())
      ensures mappingCache == old(mappingCache) && complexMappingCache == old(complexMappingCache)
      ensures instanceCache == old(instanceCache)
      ensures r == Visible(key)
      ensures key.Some? ==> r == old(Lookup(key.value))
    {
      if key.None? {
        return Some(Empty());
      }
      if hotDeploySign {
        var temporary := GetTemporary(key.value);
        if temporary.None? {
          r := GetCache(key.value);
        } else {
          ghost var once := DocTables();
          r := GetTemporary(key.value);
          ReloadedTwice(old(DocTables()), mappingCache.Keys);
        }
      } else {
        r := GetCache(key.value);
      }
    }

    /** `get(Class)`: an empty schema for a type without `@MsOperator`,
        otherwise `get` of its id. */
    method GetByClass(t: TypeDesc) returns (r: Option<Schema>)
      requires Valid()
      modifies this
      ensures Valid() && Grows()
      ensures DocTables() == if hotDeploySign && t.operator.Some? then Reloaded(old(DocTables()), mappingCache.Keys) else old(DocTables())
      ensures mappingCache == old(mappingCache) && complexMappingCache == old(complexMappingCache)
      ensures instanceCache == old(instanceCache)
      ensures t.operator.None? ==> r == Some(Empty())
      ensures t.operator.Some? ==> r == Visible(Some(t.operator.value.value))
      ensures t.operator.Some? ==> r == old(Lookup(t.operator.value.value))
    {
      if t.operator.None? {
        return Some(Empty());
      }
      r := Get(Some(t.operator.value.value));
    }

    // -------------------------------------------------------------------------
    // registration from type descriptors

    /** `newInstance`: the converter instance of a class, created and cached
        on first use; `null` when the class cannot be instantiated. */
    method NewInstance(clazz: string) returns (r: Option<string>)
      requires instanceCache <= instantiable
      modifies this
      ensures instanceCache == old(instanceCache) + ({clazz} * instantiable)
      ensures r == if clazz in instantiable then Some(clazz) else None
      ensures mappingCache == old(mappingCache) && complexMappingCache == old(complexMappingCache)
      ensures classCache == old(classCache) && temporaryMappingCache == old(temporaryMappingCache)
    {
      if clazz !in instanceCache {
        if clazz in instantiable {
          instanceCache := instanceCache + {clazz};
        }
      }
      r := if clazz in instanceCache then Some(clazz) else None;
    }

    /** `addMapping(Class)`. A type without `@MsOperator` throws; a type
        with sub-types goes to `AddMappingComplex`. Otherwise an id already
        in `mappingCache` throws before any table is written; else the type
        is recorded in `classCache`, the field loop builds `FlatSchema`, and
        the schema is stored unless a container method is missing. */
    method AddMapping(t: TypeDesc) returns (r: Result<bool>)
      requires Valid()
      modifies this
      ensures Valid() && Grows()
      ensures t.operator.None? ==> r == Err(NullPointer) && unchanged(this)
      ensures t.operator.Some? && t.operator.value.subClazz == [] ==> FlatOutcome(t, r)
      ensures t.operator.Some? && t.operator.value.subClazz != [] ==> ComplexOutcome(t, r)
      ensures r.Err? ==> RegistrationError(r.error)
      ensures t.operator.Some? && r.Ok? ==> t.operator.value.value in mappingCache || t.operator.value.value in complexMappingCache
      ensures t.operator.Some? && (r.Ok? || !r.error.NullPointer?) ==> t.operator.value.value in classCache
      ensures DepthFails(t) ==> r == Err(NullPointer) && unchanged(this)
      ensures t.operator.Some? && t.operator.value.subClazz == [] && r.Err? ==> r.error.NoSuchMethod? || r.error.IllegalAccess?
      ensures t.operator.Some? && !DepthFails(t) ==> t.operator.value.value in classCache
      decreases t, 4
    {
      if t.operator.None? {
        return Err(NullPointer);
      }
      var msOperator := t.operator.value;
      if |msOperator.subClazz| != 0 {
        r := AddMappingComplex(t);
        return;
      }
      r := AddMappingFlat(t);
    }

    /** What `addMapping(Class)` promises for a type without sub-types: an
        id already in `mappingCache` throws before any table is written;
        otherwise the type is recorded in `classCache`, the converters of the
        fields visited are requested, and `FlatSchema` is stored unless a
        container method is missing. */
    twostate predicate FlatOutcome(t: TypeDesc, new r: Result<bool>)
      requires old(Valid()) && t.operator.Some?
      reads this
    {
      var id := t.operator.value.value;
      if id in old(mappingCache) then
        r == Err(IllegalAccess(id, [t.name, old(classCache)[id].name])) && unchanged(this)
      else
        classCache == old(classCache)[id := t] &&
        complexMappingCache == old(complexMappingCache) &&
        temporaryMappingCache == old(temporaryMappingCache) &&
        instanceCache == old(instanceCache) + Requested(t.fields, FlatInfos(t.fields, container, instantiable), |t.fields|, false) * instantiable &&
        match FlatSchema(t.fields, container, instantiable)
        case Ok(s) => r == Ok(true) && mappingCache == old(mappingCache)[id := s]
        case Err(e) => r == Err(e) && mappingCache == old(mappingCache)
    }

    /** The flat branch of `addMapping(Class)`: the duplicate check, then
        `classCache`, then the field loop. */
    method AddMappingFlat(t: TypeDesc) returns (r: Result<bool>)
      requires Valid() && t.operator.Some? && t.operator.value.subClazz == []
      modifies this
      ensures Valid() && Grows()
      ensures FlatOutcome(t, r)
      ensures r.Err? ==> r.error.NoSuchMethod? || r.error.IllegalAccess?
      ensures t.operator.value.value in classCache
    {
      var msOperator := t.operator.value;
      var id := msOperator.value;
      if id in mappingCache {
        return Err(IllegalAccess(id, [t.name, classCache[id].name]));
      }
      classCache := classCache[id := t];
      var mappingItem := FlatFields(t.fields);
      if mappingItem.Err? {
        FlatSchemaError(t.fields, container, instantiable);
        return Err(mappingItem.error);
      }
      mappingCache := mappingCache[id := mappingItem.value];
      return Ok(true);
    }

    /** The field loop of `addMapping(Class)`: it computes `FlatSchema`,
        asking `newInstance` for the converters of the fields it visits. */
    method FlatFields(fields: seq<FieldDesc>) returns (r: Result<Schema>)
      requires instanceCache <= instantiable
      modifies this
      ensures r == FlatSchema(fields, container, instantiable)
      ensures instanceCache == old(instanceCache) + Requested(fields, FlatInfos(fields, container, instantiable), |fields|, false) * instantiable
      ensures mappingCache == old(mappingCache) && complexMappingCache == old(complexMappingCache)
      ensures classCache == old(classCache) && temporaryMappingCache == old(temporaryMappingCache)
    {
      var mappingItem: Schema := Empty();
      for k := 0 to |fields|
        invariant FlatPrefix(fields, container, instantiable, k) == Ok(mappingItem)
        invariant instanceCache == old(instanceCache) + FlatRequested(fields, container, instantiable, k) * instantiable
        invariant mappingCache == old(mappingCache) && complexMappingCache == old(complexMappingCache)
        invariant classCache == old(classCache) && temporaryMappingCache == old(temporaryMappingCache)
      {
        var next := FlatField(fields, k, mappingItem, old(instanceCache));
        if next.Err? {
          FlatErrorSticks(fields, container, instantiable, k + 1);
          return next;
        }
        mappingItem := next.value;
      }
      return Ok(mappingItem);
    }

    /** One turn of the flat field loop, on the schema built so far: a
        mapped field's `Information` is put, or its exception is the
        answer. */
    method FlatField(fields: seq<FieldDesc>, k: nat, mappingItem: Schema, ghost before: set<string>) returns (r: Result<Schema>)
      requires k < |fields| && FlatPrefix(fields, container, instantiable, k) == Ok(mappingItem)
      requires instanceCache <= instantiable
      requires instanceCache == before + FlatRequested(fields, container, instantiable, k) * instantiable
      modifies this
      ensures r == FlatPrefix(fields, container, instantiable, k + 1)
      ensures instanceCache == before + FlatRequested(fields, container, instantiable, k + 1) * instantiable
      ensures mappingCache == old(mappingCache) && complexMappingCache == old(complexMappingCache)
      ensures classCache == old(classCache) && temporaryMappingCache == old(temporaryMappingCache)
    {
      var field := fields[k];
      FlatStep(fields, container, instantiable, k);
      if field.ignored || field.item.None? {
        return Ok(mappingItem);
      }
      var information := FieldStep(field);
      if information.Err? {
        return Err(information.error);
      }
      r := Ok(mappingItem.Put(field.name, information.value));
    }

    /** The body of the flat field loop for one mapped field: a non-empty
        `methodName` must name a container method; otherwise the converter
        instance is fetched (and cached) through `newInstance`. */
    method FieldStep(f: FieldDesc) returns (info: Result<Information>)
      requires Mapped(f) && instanceCache <= instantiable
      modifies this
      ensures info == FieldInformation(f, container, instantiable)
      ensures instanceCache == old(instanceCache) + (if AsksConverter(f, false) then {f.item.value.transFormOperator} * instantiable else {})
      ensures mappingCache == old(mappingCache) && complexMappingCache == old(complexMappingCache)
      ensures classCache == old(classCache) && temporaryMappingCache == old(temporaryMappingCache)
    {
      var annotation := f.item.value;
      var name := GetOrDefault(annotation.value, f.name);
      if annotation.methodName != "" {
        if annotation.methodName !in container {
          return Err(NoSuchMethod([annotation.methodName]));
        }
        return Ok(Information(name, Some(annotation.methodName), true, None, f.automatic, Some(f.fieldType), None));
      }
      var operator := NewInstance(annotation.transFormOperator);
      return Ok(Information(name, None, false, operator, f.automatic, Some(f.fieldType), None));
    }

    /** What `addMappingComplex(Class)` promises: a sub-type without
        `@MsOperator` throws, and an id already in `complexMappingCache`
        throws, both before any table is written. On success the nested
        schema is stored with the depth `getDepthLevel(op, 2)` gives, and its
        structure is the fold of the nested loop, run from the tables with
        the type recorded in `classCache`; the loop's last tables are the
        final ones but for the new nested schema. */
    twostate predicate ComplexOutcome(t: TypeDesc, new r: Result<bool>)
      requires ConfigValid() && t.operator.Some?
      reads this
    {
      var op := t.operator.value;
      var id := op.value;
      r.Ok? ==>
        r == Ok(true) && id in complexMappingCache && DepthLevel(op, |op.subClazz|, 2).Some? &&
        complexMappingCache[id].depthLevel == DepthLevel(op, |op.subClazz|, 2).value &&
        exists children: seq<Result<Option<Schema>>>, seen: seq<Tables>, visited: nat ::
          NestedTrace(t.fields, children, seen, visited, Ok(complexMappingCache[id].structure)) &&
          seen[0] == old(Snapshot()).(classes := old(classCache)[id := t]) &&
          Snapshot() == seen[|t.fields|].(complex := seen[|t.fields|].complex[id := complexMappingCache[id]])
    }

    /** The nested field loop visited its first `visited` fields, the
        tables being `seen[k]` before field `k` and `seen[k + 1]` after it,
        and recorded `children[k]` as that field's child; `r` is the fold of
        what it built, and only a failed fold stops early. */
    ghost predicate NestedTrace(fields: seq<FieldDesc>, children: seq<Result<Option<Schema>>>, seen: seq<Tables>, visited: nat, r: Result<Schema>)
      requires ConfigValid()
    {
      |children| == |fields| && |seen| == |fields| + 1 && visited <= |fields| &&
      r == NestedPrefix(fields, children, container, instantiable, |fields|) &&
      r == NestedPrefix(fields, children, container, instantiable, visited) &&
      (r.Ok? ==> visited == |fields|) &&
      forall k :: 0 <= k < visited ==> ChildFound(fields[k], children[k], seen[k], seen[k + 1])
    }

    /** The child recorded for a field whose type has `@MsOperator`, with
        `before` and `after` the tables around the field. A failure is a
        registration exception. A non-empty schema `get` finds first is the
        child. Otherwise the type was registered, unless that failed. A
        found child is what `get` gives on `after`, and `get` finds the type
        there. */
    ghost predicate ChildFound(f: FieldDesc, child: Result<Option<Schema>>, before: Tables, after: Tables)
      requires ConfigValid()
    {
      Mapped(f) && f.fieldType.operator.Some? ==>
        var id := f.fieldType.operator.value.value;
        var first := LookupIn(before, id);
        (child.Err? ==> RegistrationError(child.error)) &&
        (first.Some? && !first.value.IsEmpty() ==> child == Ok(first)) &&
        ((first.None? || first.value.IsEmpty()) && child.Ok? ==> id in after.mapping || id in after.complex) &&
        (child.Ok? ==> child.value == VisibleIn(after, id) && FindableIn(after, id))
    }

    /** `addMappingComplex(Class)`: depth first, then the duplicate check,
        then `classCache`, then the nested field loop. A field whose type
        has `@MsOperator` takes that type's schema from `get`, registering
        the type first when `get` finds nothing or an empty schema. */
    method AddMappingComplex(t: TypeDesc) returns (r: Result<bool>)
      requires Valid() && t.operator.Some?
      modifies this
      ensures Valid() && Grows()
      ensures var op := t.operator.value;
        DepthLevel(op, |op.subClazz|, 2).None? ==> r == Err(NullPointer) && unchanged(this)
      ensures var op := t.operator.value;
        DepthLevel(op, |op.subClazz|, 2).Some? && op.value in old(complexMappingCache) ==>
          r == Err(IllegalAccess(op.value, [t.name, old(classCache)[op.value].name])) && unchanged(this)
      ensures ComplexOutcome(t, r)
      ensures r.Err? ==> RegistrationError(r.error)
      ensures r.Err? && !r.error.NullPointer? ==> t.operator.value.value in classCache
      ensures !DepthFails(t) ==> t.operator.value.value in classCache
      decreases t, 3
    {
      var operator := t.operator.value;
      var id := operator.value;
      var depthLevel := GetDepthLevel(operator, 2);
      if depthLevel.None? {
        return Err(NullPointer);
      }
      DepthAtLeastStart(operator, 2);
      if id in complexMappingCache {
        return Err(IllegalAccess(id, [t.name, classCache[id].name]));
      }
      classCache := classCache[id := t];
      var mappingItem, children, seen, visited := NestedFields(t);
      if mappingItem.Err? {
        return Err(mappingItem.error);
      }
      complexMappingCache := complexMappingCache[id := ComplexBo(depthLevel.value, mappingItem.value)];
      assert NestedTrace(t.fields, children, seen, visited, Ok(complexMappingCache[id].structure));
      return Ok(true);
    }

    /** The field loop of `addMappingComplex(Class)`: it computes the fold of
        the nested Information of every field, for the `children` the
        lookups of the field types produced, each stated against the tables
        `seen` around its field. */
    method NestedFields(t: TypeDesc) returns (r: Result<Schema>, ghost children: seq<Result<Option<Schema>>>,
                                              ghost seen: seq<Tables>, ghost visited: nat)
      requires Valid()
      modifies this
      ensures Valid() && Grows()
      ensures NestedTrace(t.fields, children, seen, visited, r)
      ensures seen[0] == old(Snapshot()) && seen[|t.fields|] == Snapshot()
      ensures r.Err? ==> RegistrationError(r.error)
      decreases t, 2
    {
      children := seq(|t.fields|, _ => Err(NullPointer));
      ghost var now := Snapshot();
      seen := seq(|t.fields| + 1, _ => now);
      var mappingItem: Schema := Empty();
      for k := 0 to |t.fields|
        invariant Valid() && Grows()
        invariant |children| == |t.fields| && |seen| == |t.fields| + 1
        invariant seen[0] == old(Snapshot())
        invariant forall j :: k <= j <= |t.fields| ==> seen[j] == Snapshot()
        invariant NestedPrefix(t.fields, children, container, instantiable, k) == Ok(mappingItem)
        invariant forall j :: 0 <= j < k ==> ChildFound(t.fields[j], children[j], seen[j], seen[j + 1])
      {
        var field := t.fields[k];
        if field.ignored || field.item.None? {
          NestedStep(t.fields, children, k, children[k], container, instantiable);
          assert children[k := children[k]] == children;
          continue;
        }
        var next;
        next, children, seen := NestedVisit(t, k, mappingItem, children, seen);
        if next.Err? {
          NestedErrorSticks(t.fields, children, k + 1, container, instantiable);
          return next, children, seen, k + 1;
        }
        mappingItem := next.value;
      }
      return Ok(mappingItem), children, seen, |t.fields|;
    }

    /** Field `k` of the nested loop, a mapped one: its Information extends
        the fold, and its child and the tables after it extend the trace. */
    method NestedVisit(t: TypeDesc, k: nat, mappingItem: Schema, ghost children: seq<Result<Option<Schema>>>, ghost seen: seq<Tables>)
      returns (r: Result<Schema>, ghost nextChildren: seq<Result<Option<Schema>>>, ghost nextSeen: seq<Tables>)
      requires Valid() && k < |t.fields| && Mapped(t.fields[k])
      requires |children| == |t.fields| && |seen| == |t.fields| + 1
      requires NestedPrefix(t.fields, children, container, instantiable, k) == Ok(mappingItem)
      requires forall j :: k <= j <= |t.fields| ==> seen[j] == Snapshot()
      requires forall j :: 0 <= j < k ==> ChildFound(t.fields[j], children[j], seen[j], seen[j + 1])
      modifies this
      ensures Valid() && Grows()
      ensures |nextChildren| == |t.fields| && |nextSeen| == |t.fields| + 1 && nextSeen[0] == seen[0]
      ensures forall j :: k < j <= |t.fields| ==> nextSeen[j] == Snapshot()
      ensures r == NestedPrefix(t.fields, nextChildren, container, instantiable, k + 1)
      ensures forall j :: 0 <= j <= k ==> ChildFound(t.fields[j], nextChildren[j], nextSeen[j], nextSeen[j + 1])
      ensures r.Err? ==> RegistrationError(r.error)
      decreases t, 1
    {
      var field := t.fields[k];
      assert field in t.fields;
      var information, child := MappedField(t, field);
      NestedStep(t.fields, children, k, child, container, instantiable);
      ghost var now := Snapshot();
      TraceExtends(t.fields, children, seen, k, child, now);
      nextChildren := children[k := child];
      nextSeen := seen[..k + 1] + seq(|t.fields| - k, _ => now);
      r := if information.Err? then Err(information.error) else Ok(mappingItem.Put(field.name, information.value));
    }

    /** Recording field `k`'s child and the tables after it keeps the
        trace of the fields before it and the tables before it. */
    lemma TraceExtends(fields: seq<FieldDesc>, children: seq<Result<Option<Schema>>>, seen: seq<Tables>, k: nat,
                       child: Result<Option<Schema>>, after: Tables)
      requires ConfigValid()
      requires |children| == |fields| && |seen| == |fields| + 1 && k < |fields|
      requires forall j :: 0 <= j < k ==> ChildFound(fields[j], children[j], seen[j], seen[j + 1])
      requires ChildFound(fields[k], child, seen[k], after)
      ensures var next := seen[..k + 1] + seq(|fields| - k, _ => after);
        |next| == |fields| + 1 && next[0] == seen[0] &&
        (forall j :: k < j <= |fields| ==> next[j] == after) &&
        forall j :: 0 <= j <= k ==> ChildFound(fields[j], children[k := child][j], next[j], next[j + 1])
    {
      var next := seen[..k + 1] + seq(|fields| - k, _ => after);
      forall j | 0 <= j <= k
        ensures ChildFound(fields[j], children[k := child][j], next[j], next[j + 1])
      {
        assert next[j] == seen[j];
        if j < k {
          assert next[j + 1] == seen[j + 1];
        } else {
          assert next[j + 1] == after;
        }
      }
    }

    /** The nested loop's body for a mapped field: a field whose type has
        `@MsOperator` goes to `NestedField`, any other to `FieldStep`. */
    method MappedField(t: TypeDesc, field: FieldDesc) returns (info: Result<Information>, ghost child: Result<Option<Schema>>)
      requires Valid() && Mapped(field) && field in t.fields
      modifies this
      ensures Valid() && Grows()
      ensures info == NestedInformation(field, child, container, instantiable)
      ensures ChildFound(field, child, old(Snapshot()), Snapshot())
      ensures info.Err? ==> RegistrationError(info.error)
      decreases t, 0
    {
      if field.fieldType.operator.Some? {
        info, child := NestedField(field);
      } else {
        info := FieldStep(field);
        child := Err(NullPointer);
      }
    }

    /** The nested loop's body for a field whose type has `@MsOperator`: the
        type's schema is looked up with `get`, and when that finds nothing
        or an empty schema the type is registered first and looked up again.
        The field keeps its raw display name. */
    method NestedField(f: FieldDesc) returns (info: Result<Information>, ghost child: Result<Option<Schema>>)
      requires Valid() && Mapped(f) && f.fieldType.operator.Some?
      modifies this
      ensures Valid() && Grows()
      ensures info == NestedInformation(f, child, container, instantiable)
      ensures info.Err? <==> child.Err?
      ensures ChildFound(f, child, old(Snapshot()), Snapshot())
      decreases f.fieldType, 5
    {
      var fieldType := f.fieldType;
      var value := GetByClass(fieldType);
      if value.None? || value.value.IsEmpty() {
        var added := AddMapping(fieldType);
        if added.Err? {
          return Err(added.error), Err(added.error);
        }
        value := GetByClass(fieldType);
      }
      info := Ok(Information(f.item.value.value, None, false, None, false, Some(fieldType), value));
      child := Ok(value);
    }

    /** `init`: reload the document, then register every listed type that
        has `@MsOperator`. A missing container method or a duplicate id is
        logged and skipped; any other exception escapes. `failed` is the
        index of the type whose registration escaped, `|types|` when none
        did: such a type has sub-types, and either its depth computation
        threw or its id is in `classCache`; a type whose depth computation
        throws always stops `init`. */
    method Init(types: seq<TypeDesc>) returns (r: Result<()>, ghost failed: nat)
      requires Valid()
      modifies this
      ensures Valid() && Grows()
      ensures var reloaded := Reloaded(old(DocTables()), old(mappingCache.Keys));
        reloaded.classCache.Keys <= classCache.Keys && reloaded.temp.Keys <= temporaryMappingCache.Keys
      ensures failed <= |types| && (r.Ok? <==> failed == |types|)
      ensures forall j :: 0 <= j < failed && types[j].operator.Some? ==> types[j].operator.value.value in classCache
      ensures forall j :: 0 <= j < failed ==> !DepthFails(types[j])
      ensures r.Err? ==> r.error == NullPointer && ScanFailure(types[failed])
    {
      Reload();
      ghost var reloaded := DocTables();
      for k := 0 to |types|
        invariant Valid() && Grows()
        invariant reloaded.classCache.Keys <= classCache.Keys && reloaded.temp.Keys <= temporaryMappingCache.Keys
        invariant forall j :: 0 <= j < k && types[j].operator.Some? ==> types[j].operator.value.value in classCache
        invariant forall j :: 0 <= j < k ==> !DepthFails(types[j])
      {
        var registered := RegisterScanned(types[k]);
        if registered.Err? {
          return registered, k;
        }
      }
      return Ok(()), |types|;
    }

    /** What is known of the type whose registration escaped `init`: it
        has `@MsOperator` and sub-types (a flat registration throws only
        what `init` catches), and either its depth computation threw or its
        id is in `classCache`. A type with sub-types that registers cleanly
        meets the second case too. */
    predicate ScanFailure(t: TypeDesc)
      reads this
    {
      t.operator.Some? && t.operator.value.subClazz != [] &&
      (DepthFails(t) || t.operator.value.value in classCache)
    }

    /** One scanned class in `init`: a class with `@MsOperator` is
        registered, and `NoSuchMethodException` and `IllegalAccessException`
        are caught; only `NullPointerException` escapes. */
    method RegisterScanned(clazz: TypeDesc) returns (r: Result<()>)
      requires Valid()
      modifies this
      ensures Valid() && Grows()
      ensures r.Err? ==> r.error == NullPointer && ScanFailure(clazz)
      ensures r.Ok? && clazz.operator.Some? ==> clazz.operator.value.value in classCache
      ensures DepthFails(clazz) ==> r == Err(NullPointer)
    {
      if clazz.operator.Some? {
        var added := AddMapping(clazz);
        if added.Err? && !added.error.NoSuchMethod? && !added.error.IllegalAccess? {
          return Err(added.error);
        }
      }
      return Ok(());
    }

    // -------------------------------------------------------------------------
    // match

    /** The schemas `match` searches: `mappingCache`, overlaid in hot mode by
        the temporary tier. Nested schemas are never searched. */
    function Searched(): (r: map<string, Schema>)
      reads this
      ensures r.Keys == if hotDeploySign then mappingCache.Keys + temporaryMappingCache.Keys else mappingCache.Keys
      ensures forall id :: id in r ==> r[id] == if hotDeploySign && id in temporaryMappingCache then temporaryMappingCache[id] else mappingCache[id]
    {
      if hotDeploySign then mappingCache + temporaryMappingCache else mappingCache
    }

    /** Every searched schema is well formed. */
    ghost predicate SearchedValid()
      reads this
    {
      forall id :: id in Searched() ==> Searched()[id].Valid()
    }

    /** `match`: reload in hot mode, then pick among the ids whose searched
        schema covers the titles, as `Pick` does. */
    method Match(titles: seq<string>, isEg: bool) returns (r: Option<string>)
      requires Valid()
      modifies this
      ensures Valid() && Grows()
      ensures DocTables() == if hotDeploySign then Reloaded(old(DocTables()), mappingCache.Keys) else old(DocTables())
      ensures mappingCache == old(mappingCache) && complexMappingCache == old(complexMappingCache)
      ensures instanceCache == old(instanceCache)
      ensures SearchedValid()
      ensures Picked(r, QualifiersOf(Searched(), titles, isEg), classCache.Keys)
    {
      if hotDeploySign {
        Reload();
      }
      r := Pick(Searched(), titles, isEg, classCache.Keys);
    }
  }

  /** The ids of `allRewords` whose schema covers the titles. */
  function QualifiersOf(allRewords: map<string, Schema>, titles: seq<string>, isEg: bool): (r: set<string>)
    requires forall id :: id in allRewords ==> allRewords[id].Valid()
    ensures forall id :: id in r <==> id in allRewords && Covers(titles, allRewords[id], isEg)
  {
    set id | id in allRewords && Covers(titles, allRewords[id], isEg)
  }

  /** What `match` answers for the qualifier set `q`: the tie-break applied
      to some duplicate-free listing of `q`. Hence no qualifier gives
      `null`; the answer is always a qualifier; a single qualifier is
      returned as is; and whenever some qualifier has no backing type, the
      answer has none either. */
  ghost predicate Picked(r: Option<string>, q: set<string>, classKeys: set<string>) {
    (exists keys ::
      (forall i, j :: 0 <= i < j < |keys| ==> keys[i] != keys[j]) &&
      (forall id :: id in keys <==> id in q) && r == Choose(keys, classKeys)) &&
    (r.None? <==> q == {}) &&
    (r.Some? ==> r.value in q) &&
    (forall id :: q == {id} ==> r == Some(id)) &&
    ((exists id :: id in q && id !in classKeys) ==> r.Some? && r.value !in classKeys)
  }

  /** The loop and the tie-break of `match`: the qualifying ids are
      collected, then one is returned directly, several are sorted with the
      comparator and the first taken, none gives `null`. */
  method Pick(allRewords: map<string, Schema>, titles: seq<string>, isEg: bool, classKeys: set<string>) returns (r: Option<string>)
    requires forall id :: id in allRewords ==> allRewords[id].Valid()
    ensures Picked(r, QualifiersOf(allRewords, titles, isEg), classKeys)
  {
    var keys := CollectQualifiers(allRewords, titles, isEg);
    if |keys| == 1 {
      r := Some(keys[0]);
    } else if |keys| > 1 {
      var sorted := SortSmall(keys, classKeys);
      r := Some(sorted[0]);
    } else {
      r := None;
    }
    assert r == Choose(keys, classKeys);
    QualifierChoice(keys, QualifiersOf(allRewords, titles, isEg), classKeys);
  }

  /** The loop of `match`: every id of `allRewords` is visited once, in an
      order the model leaves open, and kept when its schema covers the
      titles. */
  method CollectQualifiers(allRewords: map<string, Schema>, titles: seq<string>, isEg: bool) returns (keys: seq<string>)
    requires forall id :: id in allRewords ==> allRewords[id].Valid()
    ensures forall i, j :: 0 <= i < j < |keys| ==> keys[i] != keys[j]
    ensures forall id :: id in keys <==> id in allRewords && Covers(titles, allRewords[id], isEg)
  {
    keys := [];
    var remaining := allRewords.Keys;
    while remaining != {}
      invariant remaining <= allRewords.Keys
      invariant forall id :: id in keys <==> id in allRewords && id !in remaining && Covers(titles, allRewords[id], isEg)
      invariant forall i, j :: 0 <= i < j < |keys| ==> keys[i] != keys[j]
      decreases remaining
    {
      var key :| key in remaining;
      var value := allRewords[key];
      var datum := Datum(value, isEg);
      var count := CountContained(titles, datum);
      CountContainedAll(titles, datum);
      remaining := remaining - {key};
      if count != |titles| {
        continue;
      }
      keys := keys + [key];
    }
  }

  /** What the tie-break guarantees about the qualifier set `q` that a
      duplicate-free `keys` lists. */
  lemma QualifierChoice(keys: seq<string>, q: set<string>, classKeys: set<string>)
    requires forall i, j :: 0 <= i < j < |keys| ==> keys[i] != keys[j]
    requires forall id :: id in keys <==> id in q
    ensures Picked(Choose(keys, classKeys), q, classKeys)
  {
    ChooseSpec(keys, classKeys);
    SingleQualifier(keys, q);
    if keys == [] {
      assert forall id :: id !in q;
    }
  }

  lemma EmptyWhenNoElement(s: seq<string>)
    ensures (forall x :: x !in s) ==> s == []
  {
    if s != [] {
      assert s[0] in s;
    }
  }

  /** A duplicate-free sequence holding exactly one id is that id alone. */
  lemma SingleQualifier(keys: seq<string>, q: set<string>)
    requires forall i, j :: 0 <= i < j < |keys| ==> keys[i] != keys[j]
    requires forall id :: id in keys <==> id in q
    ensures forall id :: q == {id} ==> keys == [id]
  {
    forall id | q == {id}
      ensures keys == [id]
    {
      assert id in keys;
      assert keys[0] in q;
      var rest := keys[1..];
      assert forall j :: 0 <= j < |rest| ==> rest[j] == keys[j + 1];
      assert forall x :: x in rest ==> x in q && x != keys[0];
      EmptyWhenNoElement(rest);
      assert keys == [keys[0]] + rest;
    }
  }
}
