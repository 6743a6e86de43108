/** `addMapping(Map)`: registering schemas from the parsed configuration
    document. Each entry is an id and an ordered map from field keys to
    descriptor texts. A `className` key names the backing class and is
    removed; a `\className` key stands for a field literally called
    `className`; a descriptor `X$$m` is display name `X` bound to container
    method `m`, and `\$$` escapes the delimiter. In hot mode every entry is
    put into the temporary tier; in cold mode nothing is stored and an id
    already registered by a class is refused. */
module ConfigDocs {
  import opened Wrappers
  import opened JavaStrings
  import opened LinkedMaps
  import opened Descriptors

  const ClassLabel: string := "className"
  const EscapedClassLabel: string := "\\className"

  /** A parsed descriptor text: the display name and the bound method. */
  datatype Descriptor = Descriptor(name: string, methodName: Option<string>)

  function ParseDescriptor(text: string): Descriptor {
    var index := CheckIsContain(text);
    if index == -1 then Descriptor(Unescape(text), None)
    else Descriptor(text[..index], Some(text[index + 2..]))
  }

  /** `X$$m` is display name `X` bound to method `m`, when `X` has no `$`
      and does not end with a backslash. */
  lemma DescriptorWithMethod(x: string, m: string)
    requires '$' !in x
    requires x == [] || x[|x| - 1] != '\\'
    ensures ParseDescriptor(x + "$$" + m) == Descriptor(x, Some(m))
  {
    var text := x + "$$" + m;
    CheckIsContainSpec(text);
    assert UnescapedSignAt(text, |x|);
    forall i | 0 <= i < |x|
      ensures !UnescapedSignAt(text, i)
    {
      assert text[i] == x[i];
    }
    assert text[..|x|] == x;
    assert text[|x| + 2..] == m;
  }

  lemma {:induction false} UnescapePlainPrefix(x: string, rest: string)
    requires '$' !in x
    requires rest == [] || rest[0] != '$'
    ensures Unescape(x + rest) == x + Unescape(rest)
  {
    if x != [] {
      var s := x + rest;
      assert s[1..] == x[1..] + rest;
      assert |s| >= 2 ==> s[1] != '$' by {
        if |x| >= 2 {
          assert s[1] == x[1];
        } else if |s| >= 2 {
          assert s[1] == rest[0];
        }
      }
      var u := Unescape(rest);
      calc {
        Unescape(s);
        [s[0]] + Unescape(s[1..]);
        [x[0]] + Unescape(x[1..] + rest);
        { UnescapePlainPrefix(x[1..], rest); }
        [x[0]] + (x[1..] + u);
        { assert x == [x[0]] + x[1..]; }
        x + u;
      }
    } else {
      assert x + rest == rest;
    }
  }

  /** A text without `$` is its own display name and binds no method. */
  lemma DescriptorPlain(text: string)
    requires '$' !in text
    ensures ParseDescriptor(text) == Descriptor(text, None)
  {
    assert forall i :: 0 <= i < |text| ==> !UnescapedSignAt(text, i);
    CheckIsContainSpec(text);
    UnescapePlainPrefix(text, "");
    assert text + "" == text;
  }

  /** `X\$$Y` is the display name `X$$Y` and binds no method. */
  lemma DescriptorEscapedSign(x: string, y: string)
    requires '$' !in x && '$' !in y
    ensures ParseDescriptor(x + "\\$$" + y) == Descriptor(x + "$$" + y, None)
  {
    var text := x + "\\$$" + y;
    CheckIsContainSpec(text);
    forall i | 0 <= i < |text|
      ensures !UnescapedSignAt(text, i)
    {
      if i < |x| {
        assert text[i] == x[i];
      } else if i == |x| {
        assert text[i] == '\\';
      } else if i == |x| + 1 {
        assert text[i - 1] == '\\';
      } else if i == |x| + 2 {
        if i + 1 < |text| {
          assert text[i + 1] == y[0];
        }
      } else {
        assert text[i] == y[i - |x| - 3];
      }
    }
    assert text == x + ("\\$$" + y);
    UnescapePlainPrefix(x, "\\$$" + y);
    assert ("\\$$" + y)[3..] == y;
    UnescapePlainPrefix(y, "");
    assert y + "" == y;
    assert x + ("$$" + y) == x + "$$" + y;
  }

  /** The key a field is stored under: `\className` becomes `className`. */
  function StoredKey(k: string): string {
    if k == EscapedClassLabel then ClassLabel else k
  }

  function StoredKeys(ks: seq<string>): (r: seq<string>)
    ensures |r| == |ks| && forall i :: 0 <= i < |ks| ==> r[i] == StoredKey(ks[i])
  {
    seq(|ks|, i requires 0 <= i < |ks| => StoredKey(ks[i]))
  }

  /** The Information of one configured field. A bound method must exist in
      the container; with a backing class the key must name one of its
      declared fields, whose type is recorded. */
  function ConfigInformation(key: string, text: string, pojo: Option<TypeDesc>, container: set<string>): Result<Information> {
    var d := ParseDescriptor(text);
    if d.methodName.Some? && d.methodName.value !in container then Err(NoSuchMethod([d.methodName.value]))
    else if pojo.None? then Ok(Information(d.name, d.methodName, d.methodName.Some?, None, false, None, None))
    else
      match FieldNamed(pojo.value, key)
      case None => Err(NoSuchField(key))
      case Some(f) => Ok(Information(d.name, d.methodName, d.methodName.Some?, None, false, Some(f.fieldType), None))
  }

  /** The Information of every configured key, in document order. */
  function FieldInfos(fields: LinkedMap<string, string>, pojo: Option<TypeDesc>, container: set<string>): (r: seq<Result<Information>>)
    requires fields.Valid()
    ensures |r| == |fields.keys|
  {
    InfosOf(fields, fields.keys, pojo, container)
  }

  function InfosOf(fields: LinkedMap<string, string>, ks: seq<string>, pojo: Option<TypeDesc>, container: set<string>): (r: seq<Result<Information>>)
    requires forall k :: k in ks ==> k in fields.values
    ensures |r| == |ks|
  {
    if ks == [] then []
    else [ConfigInformation(ks[0], fields.values[ks[0]], pojo, container)] + InfosOf(fields, ks[1..], pojo, container)
  }

  lemma {:induction false} InfosOfAt(fields: LinkedMap<string, string>, ks: seq<string>, pojo: Option<TypeDesc>, container: set<string>, i: nat)
    requires forall k :: k in ks ==> k in fields.values
    requires i < |ks|
    ensures InfosOf(fields, ks, pojo, container)[i] == ConfigInformation(ks[i], fields.values[ks[i]], pojo, container)
  {
    if i > 0 {
      InfosOfAt(fields, ks[1..], pojo, container, i - 1);
    }
  }

  lemma FieldInfosAt(fields: LinkedMap<string, string>, pojo: Option<TypeDesc>, container: set<string>)
    requires fields.Valid()
    ensures forall i :: 0 <= i < |fields.keys| ==>
      FieldInfos(fields, pojo, container)[i] == ConfigInformation(fields.keys[i], fields.values[fields.keys[i]], pojo, container)
  {
    forall i | 0 <= i < |fields.keys|
      ensures FieldInfos(fields, pojo, container)[i] == ConfigInformation(fields.keys[i], fields.values[fields.keys[i]], pojo, container)
    {
      InfosOfAt(fields, fields.keys, pojo, container, i);
    }
  }

  /** The field loop of one entry: each key, renamed, is put with its
      Information; the first exception ends it. */
  function ParseFields(fields: LinkedMap<string, string>, pojo: Option<TypeDesc>, container: set<string>): Result<Schema>
    requires fields.Valid()
  {
    ParsedPrefix(fields, pojo, container, |fields.keys|)
  }

  lemma ParseFieldsValid(fields: LinkedMap<string, string>, pojo: Option<TypeDesc>, container: set<string>)
    requires fields.Valid()
    ensures ParseFields(fields, pojo, container).Ok? ==> ParseFields(fields, pojo, container).value.Valid()
  {
    PutAllValid(StoredKeys(fields.keys), FieldInfos(fields, pojo, container), |fields.keys|);
  }

  /** The puts of the first `n` configured keys. */
  function ParsedPrefix(fields: LinkedMap<string, string>, pojo: Option<TypeDesc>, container: set<string>, n: nat): Result<Schema>
    requires fields.Valid() && n <= |fields.keys|
  {
    PutAll(StoredKeys(fields.keys), FieldInfos(fields, pojo, container), n)
  }


  lemma StoredKeysDistinct(ks: seq<string>)
    requires forall i, j :: 0 <= i < j < |ks| ==> ks[i] != ks[j]
    requires ClassLabel !in ks
    ensures forall i, j :: 0 <= i < j < |ks| ==> StoredKeys(ks)[i] != StoredKeys(ks)[j]
  {
    forall i, j | 0 <= i < j < |ks|
      ensures StoredKey(ks[i]) != StoredKey(ks[j])
    {
      assert ks[i] != ClassLabel && ks[j] != ClassLabel;
    }
  }

  /** Once `className` has been removed, the parsed schema has the
      document's keys in the document's order, with `\className` renamed to
      `className`. */
  lemma ParseFieldsKeys(fields: LinkedMap<string, string>, pojo: Option<TypeDesc>, container: set<string>)
    requires fields.Valid() && ClassLabel !in fields.keys
    requires ParseFields(fields, pojo, container).Ok?
    ensures ParseFields(fields, pojo, container).value.keys == StoredKeys(fields.keys)
  {
    var ks := StoredKeys(fields.keys);
    PutAllKeys(ks, FieldInfos(fields, pojo, container), |ks|);
    assert ks[..|ks|] == ks;
    StoredKeysDistinct(fields.keys);
    FirstOccurrencesOfDistinct(ks);
  }

  /** ... and each key holds the Information its descriptor text gives. */
  lemma ParseFieldsEntries(fields: LinkedMap<string, string>, pojo: Option<TypeDesc>, container: set<string>)
    requires fields.Valid() && ClassLabel !in fields.keys
    requires ParseFields(fields, pojo, container).Ok?
    ensures forall i :: 0 <= i < |fields.keys| ==>
      StoredKey(fields.keys[i]) in ParseFields(fields, pojo, container).value.values &&
      ConfigInformation(fields.keys[i], fields.values[fields.keys[i]], pojo, container) ==
        Ok(ParseFields(fields, pojo, container).value.values[StoredKey(fields.keys[i])])
  {
    StoredKeysDistinct(fields.keys);
    PutAllValues(StoredKeys(fields.keys), FieldInfos(fields, pojo, container), |fields.keys|);
    FieldInfosAt(fields, pojo, container);
  }

  /** Parsing fails exactly when some descriptor names a missing method or
      some key names no field of the backing class; the first such key, in
      document order, decides the error. */
  lemma ParseFieldsError(fields: LinkedMap<string, string>, pojo: Option<TypeDesc>, container: set<string>)
    requires fields.Valid()
    ensures ParseFields(fields, pojo, container).Err? <==>
      exists i :: 0 <= i < |fields.keys| && ConfigInformation(fields.keys[i], fields.values[fields.keys[i]], pojo, container).Err?
    ensures ParseFields(fields, pojo, container).Err? ==>
      exists i :: 0 <= i < |fields.keys| &&
        (forall j :: 0 <= j < i ==> ConfigInformation(fields.keys[j], fields.values[fields.keys[j]], pojo, container).Ok?) &&
        ConfigInformation(fields.keys[i], fields.values[fields.keys[i]], pojo, container) == Err(ParseFields(fields, pojo, container).error)
  {
    PutAllError(StoredKeys(fields.keys), FieldInfos(fields, pojo, container), |fields.keys|);
    FieldInfosAt(fields, pojo, container);
  }

  // ---------------------------------------------------------------------------
  // applying the document to the registry

  /** The tables `addMapping(Map)` writes: `classCache` and
      `temporaryMappingCache`. */
  datatype DocState = DocState(classCache: map<string, TypeDesc>, temp: map<string, Schema>)

  /** The tables after a call, and what the call returned or threw. */
  datatype Applied = Applied(state: DocState, result: Result<bool>)

  /** What the registry contributes: the hot-deploy flag, the transform
      container's methods, and `Class.forName` as a table. */
  datatype Env = Env(hot: bool, container: set<string>, classpath: map<string, TypeDesc>)

  /** The backing class named by a `className` key, if any. */
  function EntryPojo(fields: LinkedMap<string, string>, classpath: map<string, TypeDesc>): Result<Option<TypeDesc>>
    requires fields.Valid()
  {
    if ClassLabel !in fields.values then Ok(None)
    else if fields.values[ClassLabel] in classpath then Ok(Some(classpath[fields.values[ClassLabel]]))
    else Err(ClassNotFound(fields.values[ClassLabel]))
  }

  /** The fields left once `className` has been removed. */
  function EntryFields(fields: LinkedMap<string, string>): (r: LinkedMap<string, string>)
    requires fields.Valid()
    ensures r.Valid() && ClassLabel !in r.keys
  {
    if ClassLabel in fields.values then fields.Remove(ClassLabel) else fields
  }

  /** The schema one entry describes. */
  function EntrySchema(fields: LinkedMap<string, string>, env: Env): Result<Schema>
    requires fields.Valid()
  {
    var pojo :- EntryPojo(fields, env.classpath);
    var rest := EntryFields(fields);
    ParseFields(rest, pojo, env.container)
  }

  /** What one entry writes, given its backing class and its schema: the
      class is recorded first, then the schema goes to the temporary tier
      (hot) or is checked against `registered`, the ids of `mappingCache`,
      and dropped (cold). */
  function Store(st: DocState, id: string, pojo: Result<Option<TypeDesc>>, schema: Result<Schema>, hot: bool, registered: set<string>): Applied {
    match pojo
    case Err(e) => Applied(st, Err(e))
    case Ok(p) =>
      var st1 := if p.Some? then st.(classCache := st.classCache[id := p.value]) else st;
      match schema
      case Err(e) => Applied(st1, Err(e))
      case Ok(item) =>
        if hot then Applied(st1.(temp := st1.temp[id := item]), Ok(true))
        else if id in registered then Applied(st1, Err(IllegalAccess(id, if p.Some? then [p.value.name] else [])))
        else Applied(st1, Ok(true))
  }

  /** The backing class of every entry, in document order. */
  function EntryPojos(doc: ConfigDoc, classpath: map<string, TypeDesc>): (r: seq<Result<Option<TypeDesc>>>)
    requires DocValid(doc)
    ensures |r| == |doc.keys|
  {
    EntryPojosOf(doc, doc.keys, classpath)
  }

  function EntryPojosOf(doc: ConfigDoc, ids: seq<string>, classpath: map<string, TypeDesc>): (r: seq<Result<Option<TypeDesc>>>)
    requires DocValid(doc) && forall id :: id in ids ==> id in doc.values
    ensures |r| == |ids|
  {
    if ids == [] then [] else [EntryPojo(doc.values[ids[0]], classpath)] + EntryPojosOf(doc, ids[1..], classpath)
  }

  /** The schema of every entry, in document order. */
  function EntrySchemas(doc: ConfigDoc, env: Env): (r: seq<Result<Schema>>)
    requires DocValid(doc)
    ensures |r| == |doc.keys|
  {
    EntrySchemasOf(doc, doc.keys, env)
  }

  function EntrySchemasOf(doc: ConfigDoc, ids: seq<string>, env: Env): (r: seq<Result<Schema>>)
    requires DocValid(doc) && forall id :: id in ids ==> id in doc.values
    ensures |r| == |ids|
  {
    if ids == [] then [] else [EntrySchema(doc.values[ids[0]], env)] + EntrySchemasOf(doc, ids[1..], env)
  }

  lemma {:induction false} EntriesOfAt(doc: ConfigDoc, ids: seq<string>, env: Env, i: nat)
    requires DocValid(doc) && forall id :: id in ids ==> id in doc.values
    requires i < |ids|
    ensures EntryPojosOf(doc, ids, env.classpath)[i] == EntryPojo(doc.values[ids[i]], env.classpath)
    ensures EntrySchemasOf(doc, ids, env)[i] == EntrySchema(doc.values[ids[i]], env)
  {
    if i > 0 {
      EntriesOfAt(doc, ids[1..], env, i - 1);
    }
  }

  /** Entry `i` of both sequences is what the `i`-th entry of the document
      yields. */
  lemma EntriesAt(doc: ConfigDoc, env: Env, i: nat)
    requires DocValid(doc) && i < |doc.keys|
    ensures EntryPojos(doc, env.classpath)[i] == EntryPojo(doc.values[doc.keys[i]], env.classpath)
    ensures EntrySchemas(doc, env)[i] == EntrySchema(doc.values[doc.keys[i]], env)
  {
    EntriesOfAt(doc, doc.keys, env, i);
  }

  /** The entry loop over the first `n` entries, given each entry's id,
      class and schema; an exception ends it and leaves the writes made so
      far. */
  function ApplyEntries(st: DocState, ids: seq<string>, pojos: seq<Result<Option<TypeDesc>>>, schemas: seq<Result<Schema>>,
                        n: nat, hot: bool, registered: set<string>): Applied
    requires |pojos| == |ids| && |schemas| == |ids| && n <= |ids|
  {
    if n == 0 then Applied(st, Ok(true))
    else
      var a := ApplyEntries(st, ids, pojos, schemas, n - 1, hot, registered);
      if a.result.Err? then a
      else Store(a.state, ids[n - 1], pojos[n - 1], schemas[n - 1], hot, registered)
  }

  /** `addMapping(Map)`: an empty document returns false and writes
      nothing. */
  function ApplyDoc(st: DocState, doc: ConfigDoc, env: Env, registered: set<string>): Applied
    requires DocValid(doc)
  {
    if doc.IsEmpty() then Applied(st, Ok(false))
    else ApplyEntries(st, doc.keys, EntryPojos(doc, env.classpath), EntrySchemas(doc, env), |doc.keys|, env.hot, registered)
  }

  const NoWrites: DocState := DocState(map[], map[])

  /** `st` with the writes `w` on top. */
  function Overlay(st: DocState, w: DocState): DocState {
    DocState(st.classCache + w.classCache, st.temp + w.temp)
  }

  lemma OverlayNothing(st: DocState)
    ensures Overlay(st, NoWrites) == st
  {
    assert st.classCache + map[] == st.classCache;
    assert st.temp + map[] == st.temp;
  }

  lemma OverlayAssociative(a: DocState, b: DocState, c: DocState)
    ensures Overlay(Overlay(a, b), c) == Overlay(a, Overlay(b, c))
  {
    assert (a.classCache + b.classCache) + c.classCache == a.classCache + (b.classCache + c.classCache);
    assert (a.temp + b.temp) + c.temp == a.temp + (b.temp + c.temp);
  }

  lemma OverlayTwice(a: DocState, w: DocState)
    ensures Overlay(Overlay(a, w), w) == Overlay(a, w)
  {
    assert (a.classCache + w.classCache) + w.classCache == a.classCache + w.classCache;
    assert (a.temp + w.temp) + w.temp == a.temp + w.temp;
  }

  lemma StoreOverlay(st: DocState, id: string, pojo: Result<Option<TypeDesc>>, schema: Result<Schema>, hot: bool, registered: set<string>)
    ensures Store(st, id, pojo, schema, hot, registered).state == Overlay(st, Store(NoWrites, id, pojo, schema, hot, registered).state)
    ensures Store(st, id, pojo, schema, hot, registered).result == Store(NoWrites, id, pojo, schema, hot, registered).result
    ensures Store(NoWrites, id, pojo, schema, hot, registered).state.classCache.Keys <= {id}
    ensures Store(NoWrites, id, pojo, schema, hot, registered).state.temp.Keys <= {id}
    ensures !hot ==> Store(NoWrites, id, pojo, schema, hot, registered).state.temp == map[]
  {
    OverlayNothing(st);
    if pojo.Ok? && pojo.value.Some? {
      assert st.classCache[id := pojo.value.value] == st.classCache + map[][id := pojo.value.value];
    }
    if schema.Ok? {
      var st1 := Store(st, id, pojo, Err(NullPointer), hot, registered).state;
      assert st1.temp == st.temp;
      assert st1.temp[id := schema.value] == st1.temp + map[][id := schema.value];
    }
  }

  /** The writes of the entry loop do not depend on the tables it starts
      from: the result is the starting tables overlaid by fixed writes. */
  lemma {:induction false} EntriesOverlay(st: DocState, ids: seq<string>, pojos: seq<Result<Option<TypeDesc>>>, schemas: seq<Result<Schema>>,
                                          n: nat, hot: bool, registered: set<string>)
    requires |pojos| == |ids| && |schemas| == |ids| && n <= |ids|
    ensures ApplyEntries(st, ids, pojos, schemas, n, hot, registered).state ==
      Overlay(st, ApplyEntries(NoWrites, ids, pojos, schemas, n, hot, registered).state)
    ensures ApplyEntries(st, ids, pojos, schemas, n, hot, registered).result ==
      ApplyEntries(NoWrites, ids, pojos, schemas, n, hot, registered).result
  {
    if n == 0 {
      OverlayNothing(st);
    } else {
      EntriesOverlay(st, ids, pojos, schemas, n - 1, hot, registered);
      var w := ApplyEntries(NoWrites, ids, pojos, schemas, n - 1, hot, registered);
      if w.result.Ok? {
        var id := ids[n - 1];
        StoreOverlay(Overlay(st, w.state), id, pojos[n - 1], schemas[n - 1], hot, registered);
        StoreOverlay(w.state, id, pojos[n - 1], schemas[n - 1], hot, registered);
        var e := Store(NoWrites, id, pojos[n - 1], schemas[n - 1], hot, registered).state;
        OverlayAssociative(st, w.state, e);
      }
    }
  }

  /** Those writes are all under ids of the entries visited, and cold mode
      writes nothing to the temporary tier. */
  lemma {:induction false} EntriesWrites(ids: seq<string>, pojos: seq<Result<Option<TypeDesc>>>, schemas: seq<Result<Schema>>,
                                         n: nat, hot: bool, registered: set<string>)
    requires |pojos| == |ids| && |schemas| == |ids| && n <= |ids|
    ensures ApplyEntries(NoWrites, ids, pojos, schemas, n, hot, registered).state.classCache.Keys <= set i | 0 <= i < n :: ids[i]
    ensures ApplyEntries(NoWrites, ids, pojos, schemas, n, hot, registered).state.temp.Keys <= set i | 0 <= i < n :: ids[i]
    ensures !hot ==> ApplyEntries(NoWrites, ids, pojos, schemas, n, hot, registered).state.temp == map[]
  {
    if n > 0 {
      EntriesWrites(ids, pojos, schemas, n - 1, hot, registered);
      var w := ApplyEntries(NoWrites, ids, pojos, schemas, n - 1, hot, registered);
      if w.result.Ok? {
        StoreOverlay(w.state, ids[n - 1], pojos[n - 1], schemas[n - 1], hot, registered);
      }
    }
  }

  /** The entry loop over the first `n` entries of `doc`. */
  function DocPrefix(st: DocState, doc: ConfigDoc, env: Env, n: nat, registered: set<string>): Applied
    requires DocValid(doc) && n <= |doc.keys|
  {
    ApplyEntries(st, doc.keys, EntryPojos(doc, env.classpath), EntrySchemas(doc, env), n, env.hot, registered)
  }

  /** One more entry: what its class and its fields give is stored. */
  lemma DocStep(st: DocState, doc: ConfigDoc, env: Env, k: nat, registered: set<string>)
    requires DocValid(doc) && k < |doc.keys|
    requires DocPrefix(st, doc, env, k, registered).result.Ok?
    ensures doc.values[doc.keys[k]].Valid()
    ensures DocPrefix(st, doc, env, k + 1, registered) ==
      Store(DocPrefix(st, doc, env, k, registered).state, doc.keys[k],
            EntryPojo(doc.values[doc.keys[k]], env.classpath), EntrySchema(doc.values[doc.keys[k]], env), env.hot, registered)
  {
    EntriesAt(doc, env, k);
  }

  /** After an exception the rest of the document changes nothing. */
  lemma DocErrorSticks(st: DocState, doc: ConfigDoc, env: Env, k: nat, registered: set<string>)
    requires DocValid(doc) && k <= |doc.keys|
    requires DocPrefix(st, doc, env, k, registered).result.Err?
    ensures DocPrefix(st, doc, env, |doc.keys|, registered) == DocPrefix(st, doc, env, k, registered)
  {
    EntriesErrorSticks(st, doc.keys, EntryPojos(doc, env.classpath), EntrySchemas(doc, env), k, |doc.keys|, env.hot, registered);
  }

  /** Once an entry has thrown, later entries change nothing. */
  lemma {:induction false} EntriesErrorSticks(st: DocState, ids: seq<string>, pojos: seq<Result<Option<TypeDesc>>>, schemas: seq<Result<Schema>>,
                                              m: nat, n: nat, hot: bool, registered: set<string>)
    requires |pojos| == |ids| && |schemas| == |ids| && m <= n <= |ids|
    requires ApplyEntries(st, ids, pojos, schemas, m, hot, registered).result.Err?
    ensures ApplyEntries(st, ids, pojos, schemas, n, hot, registered) == ApplyEntries(st, ids, pojos, schemas, m, hot, registered)
    decreases n
  {
    if m < n {
      EntriesErrorSticks(st, ids, pojos, schemas, m, n - 1, hot, registered);
    }
  }

  /** Reloading the same document twice is reloading it once. */
  lemma ApplyDocIdempotent(st: DocState, doc: ConfigDoc, env: Env, registered: set<string>)
    requires DocValid(doc)
    ensures ApplyDoc(ApplyDoc(st, doc, env, registered).state, doc, env, registered) == ApplyDoc(st, doc, env, registered)
  {
    if !doc.IsEmpty() {
      var n := |doc.keys|;
      var pojos := EntryPojos(doc, env.classpath);
      var schemas := EntrySchemas(doc, env);
      var once := ApplyEntries(st, doc.keys, pojos, schemas, n, env.hot, registered);
      EntriesOverlay(st, doc.keys, pojos, schemas, n, env.hot, registered);
      EntriesOverlay(once.state, doc.keys, pojos, schemas, n, env.hot, registered);
      OverlayTwice(st, ApplyEntries(NoWrites, doc.keys, pojos, schemas, n, env.hot, registered).state);
    }
  }

  /** Nothing is ever removed: every id the tables held before is still
      there, and an id the document does not mention keeps its class and
      its temporary schema. In cold mode the temporary tier is untouched. */
  lemma ApplyDocFrame(st: DocState, doc: ConfigDoc, env: Env, registered: set<string>)
    requires DocValid(doc)
    ensures var r := ApplyDoc(st, doc, env, registered).state;
      st.classCache.Keys <= r.classCache.Keys && st.temp.Keys <= r.temp.Keys &&
      (forall x :: x in st.classCache && x !in doc.values ==> r.classCache[x] == st.classCache[x]) &&
      (forall x :: x in st.temp && x !in doc.values ==> r.temp[x] == st.temp[x]) &&
      (!env.hot ==> r.temp == st.temp)
  {
    if !doc.IsEmpty() {
      EntriesFrame(st, doc.keys, EntryPojos(doc, env.classpath), EntrySchemas(doc, env), env.hot, registered);
    }
  }

  /** The same for a whole entry loop, in terms of the ids it visits. */
  lemma EntriesFrame(st: DocState, ids: seq<string>, pojos: seq<Result<Option<TypeDesc>>>, schemas: seq<Result<Schema>>,
                     hot: bool, registered: set<string>)
    requires |pojos| == |ids| && |schemas| == |ids|
    ensures var r := ApplyEntries(st, ids, pojos, schemas, |ids|, hot, registered).state;
      st.classCache.Keys <= r.classCache.Keys && st.temp.Keys <= r.temp.Keys &&
      (forall x :: x in st.classCache && x !in ids ==> r.classCache[x] == st.classCache[x]) &&
      (forall x :: x in st.temp && x !in ids ==> r.temp[x] == st.temp[x]) &&
      (!hot ==> r.temp == st.temp)
  {
    EntriesOverlay(st, ids, pojos, schemas, |ids|, hot, registered);
    EntriesWrites(ids, pojos, schemas, |ids|, hot, registered);
    assert st.temp + map[] == st.temp;
  }


  lemma StoreOk(st: DocState, id: string, pojo: Result<Option<TypeDesc>>, schema: Result<Schema>, hot: bool, registered: set<string>)
    requires Store(st, id, pojo, schema, hot, registered).result.Ok?
    ensures pojo.Ok? && schema.Ok?
    ensures var r := Store(st, id, pojo, schema, hot, registered).state;
      (pojo.value.Some? ==> id in r.classCache && r.classCache[id] == pojo.value.value) &&
      (hot ==> id in r.temp && r.temp[id] == schema.value) &&
      (!hot ==> id !in registered)
    ensures var r := Store(st, id, pojo, schema, hot, registered).state;
      (forall x :: x in st.classCache && x != id ==> x in r.classCache && r.classCache[x] == st.classCache[x]) &&
      (forall x :: x in st.temp && x != id ==> x in r.temp && r.temp[x] == st.temp[x])
  {
  }

  /** A run without exception has, for every entry: a class and a schema,
      its class recorded in `classCache` under its id, and in hot mode its
      schema stored under its id in the temporary tier; in cold mode no
      entry's id is registered. */
  lemma {:induction false} EntriesStored(st: DocState, ids: seq<string>, pojos: seq<Result<Option<TypeDesc>>>, schemas: seq<Result<Schema>>,
                                         n: nat, hot: bool, registered: set<string>)
    requires |pojos| == |ids| && |schemas| == |ids| && n <= |ids|
    requires forall i, j :: 0 <= i < j < |ids| ==> ids[i] != ids[j]
    requires ApplyEntries(st, ids, pojos, schemas, n, hot, registered).result.Ok?
    ensures forall i :: 0 <= i < n ==> pojos[i].Ok? && schemas[i].Ok?
    ensures forall i :: 0 <= i < n && pojos[i].Ok? && pojos[i].value.Some? ==>
      var r := ApplyEntries(st, ids, pojos, schemas, n, hot, registered).state;
      ids[i] in r.classCache && r.classCache[ids[i]] == pojos[i].value.value
    ensures hot ==> forall i :: 0 <= i < n && schemas[i].Ok? ==>
      var r := ApplyEntries(st, ids, pojos, schemas, n, hot, registered).state;
      ids[i] in r.temp && r.temp[ids[i]] == schemas[i].value
    ensures !hot ==> forall i :: 0 <= i < n ==> ids[i] !in registered
  {
    if n > 0 {
      var a := ApplyEntries(st, ids, pojos, schemas, n - 1, hot, registered);
      EntriesStored(st, ids, pojos, schemas, n - 1, hot, registered);
      StoreOk(a.state, ids[n - 1], pojos[n - 1], schemas[n - 1], hot, registered);
    }
  }

  /** The same for the whole document: every `className` entry names a
      class on the classpath, which is recorded under the entry's id; in hot
      mode every entry's schema is stored under its id. */
  lemma ApplyDocStored(st: DocState, doc: ConfigDoc, env: Env, registered: set<string>)
    requires DocValid(doc)
    requires ApplyDoc(st, doc, env, registered).result.Ok?
    ensures forall id :: id in doc.values ==> EntryStored(ApplyDoc(st, doc, env, registered).state, id, doc.values[id], env, registered)
  {
    forall id | id in doc.values
      ensures EntryStored(ApplyDoc(st, doc, env, registered).state, id, doc.values[id], env, registered)
    {
      assert id in doc.keys;
      var i :| 0 <= i < |doc.keys| && doc.keys[i] == id;
      ApplyDocStoredAt(st, doc, env, registered, i);
    }
  }

  /** What a run without exception leaves for one entry: the class its
      `className` names is recorded under its id; in hot mode its schema is
      stored under its id; in cold mode its id is not registered. */
  ghost predicate EntryStored(r: DocState, id: string, fields: LinkedMap<string, string>, env: Env, registered: set<string>)
    requires fields.Valid()
  {
    (ClassLabel in fields.values ==>
      fields.values[ClassLabel] in env.classpath &&
      id in r.classCache && r.classCache[id] == env.classpath[fields.values[ClassLabel]]) &&
    (env.hot ==> id in r.temp && EntrySchema(fields, env) == Ok(r.temp[id])) &&
    (!env.hot ==> id !in registered)
  }

  lemma ApplyDocStoredAt(st: DocState, doc: ConfigDoc, env: Env, registered: set<string>, i: nat)
    requires DocValid(doc) && i < |doc.keys|
    requires ApplyDoc(st, doc, env, registered).result.Ok?
    ensures EntryStored(ApplyDoc(st, doc, env, registered).state, doc.keys[i], doc.values[doc.keys[i]], env, registered)
  {
    EntriesStored(st, doc.keys, EntryPojos(doc, env.classpath), EntrySchemas(doc, env), |doc.keys|, env.hot, registered);
    EntriesAt(doc, env, i);
  }

}
