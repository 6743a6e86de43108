# msio: schema registry and simple spreadsheet decoder

msio maps rows of a spreadsheet onto records, using the header row. A
**schema** maps each field key to an `Information`: a display name, a
bound transform method or a converter, a field type and, for a nested
field, the child schema.

`MsIoContainer` builds and stores schemas in these tables:
- `mappingCache` holds the flat schemas of annotated classes.
- `complexMappingCache` holds the nested schemas, each with a depth.
- `classCache` maps an id to its backing class.
- `instanceCache` holds the converter instances.
- `temporaryMappingCache` is the hot tier, filled from the configuration
  document when hot deployment is on.

`MsIoContainer` also matches a header row against the stored schemas.
`ClassUtils` supplies memoised reflection:
- method lookup and invocation;
- getters and setters derived from field names;
- projection of a mapping onto a header set;
- dotted-key value walks.

`ExcelFactory.SimpleExcelBean` decodes one page of a workbook into maps or
objects. `FileInterceptItem.filter` decides whether an uploaded file is
accepted.

The project is split into modules:

| module | file | models |
|---|---|---|
| `Wrappers` | wrappers.dfy | `Option`, `Result`, and the exceptions the code throws. |
| `JavaStrings` | java_strings.dfy | `lastIndexOf`, regex `split(".")` and `replaceAll(".", "")`, literal `split("\\.")`, the accessor-name capitalisation, and the `$$` sign search and escape. |
| `LinkedMaps` | linked_maps.dfy | `LinkedHashMap` as an insertion-ordered value. |
| `Descriptors` | descriptors.dfy | Classes, fields and annotations as descriptors (`TypeDesc`, `FieldDesc`, `MsItem`, `MsOperator`), plus `Information` and schemas. |
| `Depth` | depth.dfy | `getDepthLevel(MsOperator, int)`. |
| `FlatSchemas` | flat_schemas.dfy | The field loop of `addMapping(Class)`. |
| `ConfigDocs` | config_docs.dfy | `addMapping(Map)`, described by functions. |
| `HeaderMatch` | header_match.dfy | The covering test and the sort-based tie-break of `match`. |
| `Container` | container.dfy | The `MsIoContainer` class and its imperative operations. |
| `Classes` | classes.dfy | `ClassUtils`: the reflection caches as a class, and `getMapping` and `getValueByInvoke`. |
| `Excel` | excel.dfy | `SimpleExcelBean`: the page checks, header inversion, row decoding and the row loop. |
| `FileIntercept` | file_intercept.dfy | `FileInterceptItem.filter`. |

Reflection is replaced by data:
- A class is a `TypeDesc`: its name, simple name, `@MsOperator`, declared
  fields and public method signatures.
- `Class.forName` is a map from class names to descriptors (`classpath`).
- The transform container is the set of its method names.
- The converter classes that can be instantiated form a set.
- A thrown exception is an `Err`, and `null` is `None`.

## Model

| member | source | states |
|---|---|---|
| Container.MsIoContainer.constructor | src/main/java/com/hellozq/msio/config/MsIoContainer.java:79-82 | A new registry keeps its environment and has every table empty; it satisfies the registry invariant. |
| Container.MsIoContainer.Init | src/main/java/com/hellozq/msio/config/MsIoContainer.java:88-108 | Reloads the document first, and the tables keep at least what that reload gives. Then each listed class with `@MsOperator` is registered in turn. `NoSuchMethod`, `Instantiation` and `IllegalAccess` are caught; a `NullPointer` escapes and ends the loop. It also returns the index of the class whose registration escaped, or the list's length when none did; the call succeeds iff none did. Every annotated class before that index has its id in `classCache`, and none of them has a failing depth computation. The failing class has sub-types, and either its depth computation threw or its id is in `classCache`. So a class whose depth computation throws always ends `init`. Tables only grow. |
| Container.MsIoContainer.RegisterScanned | src/main/java/com/hellozq/msio/config/MsIoContainer.java:99-106 | A class with `@MsOperator` is registered, and `NoSuchMethod` and `IllegalAccess` are caught. Only `NullPointer` escapes, and only for a class with sub-types whose depth computation threw or whose id is in `classCache`. A failing depth computation always escapes. Otherwise an annotated class's id ends up in `classCache`. |
| Container.MsIoContainer.Match | src/main/java/com/hellozq/msio/config/MsIoContainer.java:116-150 | In hot mode the document is reloaded first. The searched schemas are `mappingCache` overlaid by the hot tier. The answer is `null` exactly when no schema covers the titles, the only qualifier when there is one, and otherwise a qualifier, one without a backing class whenever such a qualifier exists. |
| Container.Pick | src/main/java/com/hellozq/msio/config/MsIoContainer.java:125-149 | The qualifier loop and tie-break over any schema table meet the `Picked` contract against the exact qualifier set. |
| Container.CollectQualifiers | src/main/java/com/hellozq/msio/config/MsIoContainer.java:125-140 | Collects each id exactly once, and exactly those whose schema's names contain every title. |
| Container.QualifiersOf | src/main/java/com/hellozq/msio/config/MsIoContainer.java:126-139 | An id qualifies iff its schema covers the titles. |
| Container.QualifierChoice | src/main/java/com/hellozq/msio/config/MsIoContainer.java:141-149 | Applying the tie-break to any duplicate-free listing of the qualifier set meets the `Picked` contract. |
| Container.SingleQualifier | src/main/java/com/hellozq/msio/config/MsIoContainer.java:141-142 | A listing of a one-element qualifier set is that element alone, so `keys.get(0)` is it. |
| HeaderMatch.CountContainedAll | src/main/java/com/hellozq/msio/config/MsIoContainer.java:135-136 | The filtered count equals the number of titles iff every title occurs in the datum. |
| HeaderMatch.DisplayNames | src/main/java/com/hellozq/msio/config/MsIoContainer.java:131 | The datum for display names is the `Information` names, in key order, one per key. |
| HeaderMatch.SortSmallFirst | src/main/java/com/hellozq/msio/config/MsIoContainer.java:146 | With at least two ids, the first element after sorting with the comparator is the last id after the first that has no backing class, and `keys[0]` when every later id has one. |
| HeaderMatch.SortSmallPermutes | src/main/java/com/hellozq/msio/config/MsIoContainer.java:146 | The sort is a permutation of the qualifying ids. |
| HeaderMatch.ChooseSpec | src/main/java/com/hellozq/msio/config/MsIoContainer.java:141-149 | The tie-break gives `null` iff there is no qualifier, and otherwise one of the qualifiers. A single qualifier is itself; an id without a backing class is preferred whenever one exists. |
| HeaderMatch.InsertAll | src/main/java/com/hellozq/msio/config/MsIoContainer.java:146 | Binary insertion keeps every element: the length and the multiset add up. |
| HeaderMatch.RunFrom | src/main/java/com/hellozq/msio/config/MsIoContainer.java:146 | The initial run extends as far as consecutive comparisons agree with the run's direction. |
| Container.MsIoContainer.DepthLevelOf | src/main/java/com/hellozq/msio/config/MsIoContainer.java:157-163 | Gives 0 for an id without a nested schema, otherwise its recorded depth. |
| Container.MsIoContainer.DepthLevelRange | src/main/java/com/hellozq/msio/config/MsIoContainer.java:157-163 | In a consistent registry the depth is 0 iff the id has no nested schema, and is at least 2 otherwise. |
| Container.MsIoContainer.GetClazz | src/main/java/com/hellozq/msio/config/MsIoContainer.java:170-175 | Gives `null` iff the id is `null`. Otherwise it gives the registered class, or `Map.class` for an id without one. |
| Container.MsIoContainer.GetByClass | src/main/java/com/hellozq/msio/config/MsIoContainer.java:182-188 | A class without `@MsOperator` gives an empty schema and triggers no reload. Otherwise the answer is `get` of its id, which is `Lookup` of the id in the tables before the call. |
| Container.MsIoContainer.Get | src/main/java/com/hellozq/msio/config/MsIoContainer.java:195-204 | A `null` id gives an empty schema. In hot mode the document is reloaded and the hot tier wins over the stored schemas; in cold mode only the stored schemas are read. The answer is `Lookup` of the id in the tables before the call. |
| Container.MsIoContainer.VisibleTiers | src/main/java/com/hellozq/msio/config/MsIoContainer.java:195-204 | Gives the tiers `get` consults, in order: hot tier (hot mode only), then nested schema, then flat schema. |
| Container.MsIoContainer.GetTemporary | src/main/java/com/hellozq/msio/config/MsIoContainer.java:211-214 | Reloads the document, then answers from the hot tier. |
| Container.MsIoContainer.GetCache | src/main/java/com/hellozq/msio/config/MsIoContainer.java:221-226 | A nested schema's structure shadows a flat schema of the same id. The answer is `null` iff the id has neither. |
| Container.MsIoContainer.NewInstance | src/main/java/com/hellozq/msio/config/MsIoContainer.java:234-244 | The converter instance is created once and cached. A class that cannot be instantiated gives `null` and is not cached. No other table changes. |
| Container.MsIoContainer.Reload | src/main/java/com/hellozq/msio/config/MsIoContainer.java:249-278 | `initJson` applies the document and swallows its exceptions. The tables become `Reloaded(old tables)`; the flat and nested schemas and the instances are untouched. |
| Container.MsIoContainer.ReloadedTwice | src/main/java/com/hellozq/msio/config/MsIoContainer.java:249-278 | Reloading twice leaves what reloading once leaves. |
| Depth.GetDepthLevel | src/main/java/com/hellozq/msio/config/MsIoContainer.java:286-296 | The loop computes `DepthLevel` over all sub-types. |
| Depth.DepthClosedForm | src/main/java/com/hellozq/msio/config/MsIoContainer.java:286-296 | The depth is the start value plus the number of complex types in the unfolded sub-type tree. It fails (`null` annotation) iff some visited sub-type lacks `@MsOperator`. |
| Depth.DepthAtLeastStart | src/main/java/com/hellozq/msio/config/MsIoContainer.java:286-296 | The result is never below the start value. |
| Depth.DepthOfShallow | src/main/java/com/hellozq/msio/config/MsIoContainer.java:286-296 | Sub-types without sub-types of their own leave the start value unchanged. |
| Depth.DepthSumsSiblings | src/main/java/com/hellozq/msio/config/MsIoContainer.java:289-292 | Two complex siblings, each one level deep, give 4 from a start of 2, not 3: `i` carries across siblings. |
| Depth.FailureSticks | src/main/java/com/hellozq/msio/config/MsIoContainer.java:287-294 | Once a sub-type without `@MsOperator` is met, the result stays failed. |
| Container.MsIoContainer.AddMappingComplex | src/main/java/com/hellozq/msio/config/MsIoContainer.java:303-365 | Computes the depth from 2. A duplicate nested id throws `IllegalAccess` naming both classes, with only the depth failure before it. Otherwise the class and the nested schema with its depth are stored; tables only grow. The nested schema is the fold of the field loop run from the tables with the class recorded. Each visited nested field's child is tied to the tables before and after that field, as `NestedFields` states, and the loop's last tables are the final ones except for the new nested schema. Every exception is `NullPointer`, `NoSuchMethod` or `IllegalAccess`, and once past the depth check the id's class is recorded. |
| Container.MsIoContainer.NestedFields | src/main/java/com/hellozq/msio/config/MsIoContainer.java:314-360 | The field loop computes the fold of each mapped field's `Information`, given the schema obtained for each nested field's type. The tables before and after each visited field are returned. For a nested field, a non-empty schema that `get` finds first is the child. Otherwise the type was registered, unless that threw. A found child is what `get` gives on the tables after the field, and `get` finds the type there. The loop stops early only at an exception. Every exception is `NullPointer`, `NoSuchMethod` or `IllegalAccess`. |
| Container.MsIoContainer.NestedField | src/main/java/com/hellozq/msio/config/MsIoContainer.java:328-339 | The field's `Information` fails iff its children fail. When `get` already gives a non-empty schema for the type, that schema is the children. Otherwise the type is registered first, and then has a flat or nested schema. Successful children are what `get` shows afterwards, and the type is findable. |
| Container.MsIoContainer.MappedField | src/main/java/com/hellozq/msio/config/MsIoContainer.java:326-359 | A mapped field gets the `Information` its annotation gives. For a nested type, the child meets the facts `NestedField` states, against the tables before and after the field. Every exception is `NullPointer`, `NoSuchMethod` or `IllegalAccess`. |
| Container.MsIoContainer.NestedVisit | src/main/java/com/hellozq/msio/config/MsIoContainer.java:317-359 | One mapped field of the nested loop extends the fold by its `Information`, or fails with its exception. Its child and the tables after it extend the trace, and earlier fields keep their facts. |
| Container.MsIoContainer.TraceExtends | src/main/java/com/hellozq/msio/config/MsIoContainer.java:317-359 | Recording one more field's child and the tables after it keeps the facts of every earlier field. |
| Container.NestedStep | src/main/java/com/hellozq/msio/config/MsIoContainer.java:317-360 | One more field extends the nested fold by that field's `Information`, or fails with its exception. |
| Container.NestedErrorSticks | src/main/java/com/hellozq/msio/config/MsIoContainer.java:317-360 | After an exception the rest of the nested loop changes nothing. |
| Container.MsIoContainer.AddMapping | src/main/java/com/hellozq/msio/config/MsIoContainer.java:373-420 | A class without `@MsOperator` throws `NullPointer` and changes nothing. A class with sub-types goes to `addMappingComplex`. A flat class meets `FlatOutcome`. Every exception is `NullPointer`, `NoSuchMethod` or `IllegalAccess`. On success the id has a flat or nested schema, and its class is recorded. A class whose depth computation throws gives `NullPointer` and changes nothing; any other annotated class ends up recorded in `classCache`. A flat class throws only `NoSuchMethod` or `IllegalAccess`. |
| Container.MsIoContainer.AddMappingFlat | src/main/java/com/hellozq/msio/config/MsIoContainer.java:379-419 | A duplicate flat id throws `IllegalAccess` naming the new and the old class. Otherwise the class is recorded, and the schema is stored iff the field loop succeeds. Every exception is `NoSuchMethod` or `IllegalAccess`, and the class is recorded either way. |
| Container.MsIoContainer.FlatFields | src/main/java/com/hellozq/msio/config/MsIoContainer.java:385-416 | The loop gives `FlatSchema` of the fields. It instantiates exactly the converters requested before the first exception. |
| Container.MsIoContainer.FlatField | src/main/java/com/hellozq/msio/config/MsIoContainer.java:389-415 | One turn of the field loop extends `FlatPrefix` by one field, and the converters instantiated by what `FlatRequested` adds. |
| Container.MsIoContainer.FieldStep | src/main/java/com/hellozq/msio/config/MsIoContainer.java:397-415 | A named method must exist in the container, else `NoSuchMethod`. Without one, the converter is instantiated. The display name defaults to the field name. |
| FlatSchemas.FlatSchemaKeys | src/main/java/com/hellozq/msio/config/MsIoContainer.java:389-416 | With distinct field names, the schema's keys are exactly the mapped fields' names, in declaration order. |
| FlatSchemas.FlatSchemaEntries | src/main/java/com/hellozq/msio/config/MsIoContainer.java:397-415 | Every mapped field is stored under its own name with the `Information` its annotation gives. |
| FlatSchemas.FlatSchemaError | src/main/java/com/hellozq/msio/config/MsIoContainer.java:399-407 | Registration fails iff some mapped field names a method the container lacks. The exception is the first such field's. |
| FlatSchemas.FlatStep | src/main/java/com/hellozq/msio/config/MsIoContainer.java:389-416 | One more field: an ignored or unannotated field is skipped; otherwise its `Information` is put, or its exception ends the loop. |
| FlatSchemas.FlatErrorSticks | src/main/java/com/hellozq/msio/config/MsIoContainer.java:404-407 | After an exception the rest of the loop changes neither the result nor the converters requested. |
| FlatSchemas.FoldKeys | src/main/java/com/hellozq/msio/config/MsIoContainer.java:389-416 | The fold's keys are the mapped names, each at its first occurrence. |
| FlatSchemas.FoldEntries | src/main/java/com/hellozq/msio/config/MsIoContainer.java:389-416 | With distinct names, each mapped field holds its own `Information`. |
| FlatSchemas.FoldError | src/main/java/com/hellozq/msio/config/MsIoContainer.java:389-416 | The fold fails iff some mapped field's `Information` is an exception, and fails with the first one. |
| FlatSchemas.FoldErrorSticks | src/main/java/com/hellozq/msio/config/MsIoContainer.java:389-416 | Once the fold has failed, later fields change nothing. |
| FlatSchemas.RequestedAfterError | src/main/java/com/hellozq/msio/config/MsIoContainer.java:404-410 | After an exception no further converter is requested. |
| FlatSchemas.MappedNamesDistinct | src/main/java/com/hellozq/msio/config/MsIoContainer.java:389-396 | Distinct field names give distinct mapped names. |
| Container.AddMappingComplexDoc | src/main/java/com/hellozq/msio/config/MsIoContainer.java:427-429 | The complex-document path registers nothing and returns false. |
| Container.MsIoContainer.AddMappingDoc | src/main/java/com/hellozq/msio/config/MsIoContainer.java:438-490 | The tables and the answer are `ApplyDoc` of the old tables. An empty document returns false. The flat and nested schemas and the instances are untouched; tables only grow. |
| Container.MsIoContainer.AddEntries | src/main/java/com/hellozq/msio/config/MsIoContainer.java:445-488 | The entry loop computes `DocPrefix` over all entries. |
| Container.MsIoContainer.AddEntry | src/main/java/com/hellozq/msio/config/MsIoContainer.java:446-487 | One entry extends `DocPrefix` by one. |
| Container.MsIoContainer.StoreEntry | src/main/java/com/hellozq/msio/config/MsIoContainer.java:451-487 | One entry writes what `Store` describes. The backing class is recorded first. Hot mode puts the schema into the hot tier. In cold mode an id that already has a flat schema throws `IllegalAccess` with the id and the entry's own class, and nothing is stored. |
| Container.ParseEntry | src/main/java/com/hellozq/msio/config/MsIoContainer.java:447-478 | An entry's backing class is `Class.forName` of its `className`, else `ClassNotFound`. Its schema is `EntrySchema`, well formed. |
| Container.BuildConfigSchema | src/main/java/com/hellozq/msio/config/MsIoContainer.java:456-478 | The field loop of an entry computes `ParseFields`. |
| Container.PutConfigKey | src/main/java/com/hellozq/msio/config/MsIoContainer.java:456-478 | One turn of that loop extends the parsed prefix by one key. |
| ConfigDocs.DescriptorWithMethod | src/main/java/com/hellozq/msio/config/MsIoContainer.java:460-466 | `X$$m` is display name `X` bound to method `m`. |
| ConfigDocs.DescriptorPlain | src/main/java/com/hellozq/msio/config/MsIoContainer.java:460-462 | A text without `$` is its own display name and binds nothing. |
| ConfigDocs.DescriptorEscapedSign | src/main/java/com/hellozq/msio/config/MsIoContainer.java:460-462 | `X\$$Y` is the display name `X$$Y` and binds nothing. |
| ConfigDocs.ParseFieldsKeys | src/main/java/com/hellozq/msio/config/MsIoContainer.java:456-478 | Once `className` is removed, the schema's keys are the document's keys in order, with `\className` renamed to `className`. |
| ConfigDocs.ParseFieldsEntries | src/main/java/com/hellozq/msio/config/MsIoContainer.java:457-477 | Each key holds the `Information` its descriptor text gives, with the declared field type when there is a backing class. |
| ConfigDocs.ParseFieldsError | src/main/java/com/hellozq/msio/config/MsIoContainer.java:466-470 | Parsing fails iff some descriptor names a missing method, or a key names no field of the backing class. The first such key's exception is thrown. |
| ConfigDocs.ApplyDocIdempotent | src/main/java/com/hellozq/msio/config/MsIoContainer.java:438-490 | Applying the same document twice is applying it once. |
| ConfigDocs.ApplyDocFrame | src/main/java/com/hellozq/msio/config/MsIoContainer.java:438-490 | Nothing is removed. Only ids of the document are written, and cold mode writes no schema. |
| ConfigDocs.ApplyDocStored | src/main/java/com/hellozq/msio/config/MsIoContainer.java:445-488 | After a run without exception, every entry's named class is recorded. In hot mode every entry's schema is in the hot tier; in cold mode no entry's id was registered. |
| ConfigDocs.DocStep | src/main/java/com/hellozq/msio/config/MsIoContainer.java:445-488 | One more entry stores what its class and its fields give. |
| ConfigDocs.DocErrorSticks | src/main/java/com/hellozq/msio/config/MsIoContainer.java:445-488 | After an exception the remaining entries change nothing. |
| ConfigDocs.EntriesOverlay | src/main/java/com/hellozq/msio/config/MsIoContainer.java:445-488 | What the entry loop writes does not depend on the tables it starts from. |
| ConfigDocs.EntriesWrites | src/main/java/com/hellozq/msio/config/MsIoContainer.java:453-481 | Writes go only under visited ids, and cold mode writes no hot schema. |
| ConfigDocs.StoreOverlay | src/main/java/com/hellozq/msio/config/MsIoContainer.java:451-487 | One entry's writes are an overlay under its own id only. |
| JavaStrings.CheckIsContainSpec | src/main/java/com/hellozq/msio/config/MsIoContainer.java:460 | The sign search gives -1 iff no unescaped `$$` occurs, and otherwise the first one. |
| JavaStrings.UnescapeEscape | src/main/java/com/hellozq/msio/config/MsIoContainer.java:462 | `replace("\\$$", "$$")` undoes escaping: unescape(escape(s)) == s. |
| JavaStrings.UnescapeIdentity | src/main/java/com/hellozq/msio/config/MsIoContainer.java:462 | Text without `\$$` is left unchanged. |
| JavaStrings.GetOrDefault | src/main/java/com/hellozq/msio/config/MsIoContainer.java:414 | The annotation value is used unless it is empty, in which case the field name is. |
| Classes.ClassUtils.GetMethodAccess | src/main/java/com/github/lisdocument/msio/utils/ClassUtils.java:37-43 | Gives the cached `MethodAccess` for the class name, built and cached on first use. |
| Classes.MemoSpec | src/main/java/com/github/lisdocument/msio/utils/ClassUtils.java:37-43 | Memoisation adds the class name, keeps other entries, and is idempotent. |
| Classes.ClassUtils.MethodKey | src/main/java/com/github/lisdocument/msio/utils/ClassUtils.java:54-61 | The key loop gives the argument classes, or `NullPointer` on a `null` argument, and the key `class:name!` followed by the class names. |
| Classes.ClassUtils.InvokeMethod | src/main/java/com/github/lisdocument/msio/utils/ClassUtils.java:53-74 | The answer and the new method cache are `Invoke` of the old cache. That includes the `IllegalArgument` that escapes when a cached method takes another number of arguments. |
| Classes.InvokeSpec | src/main/java/com/github/lisdocument/msio/utils/ClassUtils.java:62-73 | The method is looked up only when its key is missing, and is cached only when found. A missing method throws `NoSuchMethod`. `IllegalArgument` escapes iff the method used takes another number of arguments or refuses them. An invocation that fails with an access or target exception gives `null`. No other exception occurs. |
| Classes.ArgClassesSpec | src/main/java/com/github/lisdocument/msio/utils/ClassUtils.java:56-61 | The argument classes fail iff some argument is `null`, and otherwise are the arguments' class names in order. |
| Classes.NullStaysNull | src/main/java/com/github/lisdocument/msio/utils/ClassUtils.java:57-61 | A `null` argument anywhere makes the whole list fail with `NullPointer`. |
| Classes.CacheKeySeparates | src/main/java/com/github/lisdocument/msio/utils/ClassUtils.java:55-59 | Equal keys imply equal class names, method names and concatenated argument names. |
| Classes.CacheKeyMergesArguments | src/main/java/com/github/lisdocument/msio/utils/ClassUtils.java:55-59 | Different argument lists can share a key, because the names are concatenated without a separator. |
| Classes.MergedKeyThrows | src/main/java/com/github/lisdocument/msio/utils/ClassUtils.java:55-69 | After `m(a.B, c.D)` is cached, a call with one argument of class `a.Bc.D` reuses it, and `invoke` throws `IllegalArgument`, which escapes. |
| Classes.ClassUtils.GetFieldValue | src/main/java/com/github/lisdocument/msio/utils/ClassUtils.java:83-86 | Invokes the getter `get` + capitalised name, through the memoised access. |
| Classes.ClassUtils.SetFieldValue | src/main/java/com/github/lisdocument/msio/utils/ClassUtils.java:95-98 | The object comes back with the setter `set` + capitalised name recording the value. A setter whose parameter cannot hold a `String` throws `ClassCast`, because ReflectASM casts the argument. |
| Classes.FieldAccessorsSpec | src/main/java/com/github/lisdocument/msio/utils/ClassUtils.java:83-98 | Both accessors throw on an empty field name. Otherwise the getter fails iff the class lacks it. An existing setter throws `ClassCast` iff its parameter cannot hold a `String`. A successful set needs such a setter and changes only that setter's entry and the access cache. |
| JavaStrings.AccessorNameSpec | src/main/java/com/github/lisdocument/msio/utils/ClassUtils.java:84 | An accessor name is the prefix, the capitalised first character, then the rest. `substring` throws on an empty name. |
| JavaStrings.AccessorNameCollides | src/main/java/com/github/lisdocument/msio/utils/ClassUtils.java:84 | Two names share an accessor iff they differ at most in the case of their first letter. |
| Classes.GetMapping | src/main/java/com/github/lisdocument/msio/utils/ClassUtils.java:107-126 | Gives `null` iff no mapping covers the headers. Otherwise it gives the first covering mapping, in collection order, projected onto the headers. |
| Classes.ProjectEntries | src/main/java/com/github/lisdocument/msio/utils/ClassUtils.java:116-122 | The `forEach` computes the projection. |
| Classes.ProjectSpec | src/main/java/com/github/lisdocument/msio/utils/ClassUtils.java:116-122 | The projection's keys are exactly the headers, with the mapping's values, in the mapping's key order. |
| Classes.ClassUtils.GetValueByInvoke | src/main/java/com/github/lisdocument/msio/utils/ClassUtils.java:249-263 | The value is the walk over `key.split(".")` from the given object. |
| Classes.WalkNullSafe | src/main/java/com/github/lisdocument/msio/utils/ClassUtils.java:253-255 | A `null` met before a segment renders as `""`. |
| Classes.WalkKeepsCache | src/main/java/com/github/lisdocument/msio/utils/ClassUtils.java:252-261 | The walk only adds to the access cache. |
| Classes.GetValueOfPlainKey | src/main/java/com/github/lisdocument/msio/utils/ClassUtils.java:250-262 | A non-empty key gives no segment, so the answer is the value's own text. |
| JavaStrings.SplitDotOfPlainText | src/main/java/com/github/lisdocument/msio/utils/ClassUtils.java:250 | `split(".")` of a key without line terminators is `[]`, or `[""]` for the empty key. |
| Classes.PathKeyIgnored | src/main/java/com/github/lisdocument/msio/utils/ClassUtils.java:250-262 | The key `a.b` on nested maps gives the outer map's text as written, and the inner entry when cut at literal dots. |
| Classes.ValueByPathWalksSegments | src/main/java/com/github/lisdocument/msio/utils/ClassUtils.java:250-262 | A key joined from non-empty, dot-free segments, cut at literal dots, walks exactly those segments. |
| JavaStrings.SplitLiteralDotOfJoin | src/main/java/com/github/lisdocument/msio/utils/ClassUtils.java:250 | `split("\\.")` undoes joining non-empty, dot-free segments with dots. |
| Excel.SimpleExcelBean.constructor | src/main/java/com/hellozq/msio/unit/ExcelFactory.java:87-94 | Keeps the given class, paging flag, workbook and collaborators; `isChangeClass` starts false. |
| Excel.SheetAt | src/main/java/com/hellozq/msio/unit/ExcelFactory.java:107-110 | A page exists iff its index lies within the sheet count. |
| Excel.HeaderRow | src/main/java/com/hellozq/msio/unit/ExcelFactory.java:111-124 | Refuses more than one merged region, or one not starting at row 0. Otherwise the header is row 0, or the row after the region. |
| Excel.HeaderRowFirstUncovered | src/main/java/com/hellozq/msio/unit/ExcelFactory.java:113-124 | An accepted header row is the first row not covered by the merged title region. |
| Excel.Titles | src/main/java/com/hellozq/msio/unit/ExcelFactory.java:126-129 | The titles are the header row's texts; a missing or empty header row throws `NullPointer`. |
| Excel.LayoutSpec | src/main/java/com/hellozq/msio/unit/ExcelFactory.java:107-129 | The checks come in source order: page index, region count, region start, titles. Each gives its own exception. |
| Excel.SimpleExcelBean.ReadHeader | src/main/java/com/hellozq/msio/unit/ExcelFactory.java:107-129 | Computes `Layout` of the page. |
| Excel.SimpleExcelBean.ResolveMapping | src/main/java/com/hellozq/msio/unit/ExcelFactory.java:130-138 | Without a class (or with `isChangeClass`), the schema and the class are what `get` and `getClazz` give for one id, and that id meets `Picked` for the schemas `match` searches: `null` exactly when none covers the titles, otherwise a covering id chosen by the tie-break of `match`. With a class, the class is kept and the schema is `get(class)`: empty without `@MsOperator`, otherwise what `get` shows for its id. |
| Excel.InversionValid | src/main/java/com/hellozq/msio/unit/ExcelFactory.java:139-140 | The inversion is a well-formed map, empty iff the schema is empty. |
| Excel.InversionMaps | src/main/java/com/hellozq/msio/unit/ExcelFactory.java:139 | Each display name maps to a field key carrying that name, and every field's name is mapped. |
| Excel.InvertTitles | src/main/java/com/hellozq/msio/unit/ExcelFactory.java:140-142 | An empty inversion is filled with each title mapped to itself, one put per title. |
| Excel.SimpleExcelBean.ConversionMap | src/main/java/com/hellozq/msio/unit/ExcelFactory.java:163-170 | The row map is built column by column. |
| Excel.MapRowSpec | src/main/java/com/hellozq/msio/unit/ExcelFactory.java:163-170 | The keys are exactly the inverted titles (`null` for an unknown title). Each key holds the text of the last column with that key; a missing cell reads `""`. |
| Excel.SimpleExcelBean.ConversionColumn | src/main/java/com/hellozq/msio/unit/ExcelFactory.java:185-209 | One column of `conversionPojo` computes `PojoColumn`. A non-`String` field throws `NoSuchMethod` without a converter and `ClassCast` with one. |
| Excel.SimpleExcelBean.ConversionPojo | src/main/java/com/hellozq/msio/unit/ExcelFactory.java:181-211 | A fresh instance, then every column in turn, computing `PojoDecoded`. Only `String` fields are ever set; a non-`String` field throws `NoSuchMethod` or `ClassCast`. |
| Excel.ColumnNeedsInformation | src/main/java/com/hellozq/msio/unit/ExcelFactory.java:188-189 | A title without `Information`, or with no field type, throws `NullPointer`. |
| Excel.ColumnNeedsConverter | src/main/java/com/hellozq/msio/unit/ExcelFactory.java:192-205 | A non-`String` field whose converter exists under neither name throws `NoSuchMethod` naming both. The full-name fallback is always `fromStringto`. |
| Excel.ConverterCallThrows | src/main/java/com/hellozq/msio/unit/ExcelFactory.java:192-208 | A non-`String` field whose converter is found throws `ClassCast`: the converter is invoked with `String.class` and the text, and the `Class` is cast to `String`. |
| Excel.ColumnSetsText | src/main/java/com/hellozq/msio/unit/ExcelFactory.java:189-208 | A decoded column is a `String` field whose setter takes a `String`. Through the setter of its inverted title it sets the raw cell text. |
| Excel.PojoReplay | src/main/java/com/hellozq/msio/unit/ExcelFactory.java:181-211 | Decoding a row again from a cache that keeps the first decoding's entries gives the same object and changes nothing. |
| Excel.PojoErrorSticks | src/main/java/com/hellozq/msio/unit/ExcelFactory.java:184-210 | After a column throws, later columns change nothing. |
| Excel.PojoKeepsClass | src/main/java/com/hellozq/msio/unit/ExcelFactory.java:183-210 | Every decoded object is an instance of the requested class. |
| Excel.SimpleExcelBean.DecodeRows | src/main/java/com/hellozq/msio/unit/ExcelFactory.java:143-152 | The row loop computes `Rows` for `lastRowNum - rowIndex` iterations. |
| Excel.RowsSpec | src/main/java/com/hellozq/msio/unit/ExcelFactory.java:143-152 | An answer has one element per iteration, all of them equal. A map page's rows have exactly the inverted titles as keys; an object page's rows are instances of the requested class. An object page fails iff decoding the header row fails. |
| Excel.RowCount | src/main/java/com/hellozq/msio/unit/ExcelFactory.java:145 | The loop runs `lastRowNum - rowIndex` times, and not at all when that is not positive. |
| Excel.SimpleExcelBean.MatchMapping | src/main/java/com/hellozq/msio/unit/ExcelFactory.java:132-135 | The schema and the class are what `get` and `getClazz` give for the id `match` picked, and that id meets `Picked` for the covering ids among the searched schemas. |
| Excel.SimpleExcelBean.GetPageContent | src/main/java/com/hellozq/msio/unit/ExcelFactory.java:105-154 | A failed check is that exception, with nothing changed. Without a class, the schema and the class belong to an id that meets `Picked` for the header's titles; with a class, the schema is `get(class)`. A missing schema throws `NullPointer`. Otherwise the answer and the access cache are `PageRows` of the header and the schema: the row loop over the header row with `PageInversion`. |
| Excel.SimpleExcelBean.DecodePage | src/main/java/com/hellozq/msio/unit/ExcelFactory.java:139-152 | The inversion, filled from the titles when empty, then the row loop, compute `PageRows`; an answer has `RowCount` elements, all equal. |
| Excel.HeaderRowDecodedAsData | src/main/java/com/hellozq/msio/unit/ExcelFactory.java:143-152 | With a header `a` at row 0 and data `x` at row 1, the loop as written yields `{a=a}`, while the intended loop yields `{a=x}`. |
| Excel.DataRows | src/main/java/com/hellozq/msio/unit/ExcelFactory.java:143-152 | The data rows are those after the header, up to and including `lastRowNum`. |
| Excel.RowsIntendedSpec | src/main/java/com/hellozq/msio/unit/ExcelFactory.java:143-152 | The corrected loop gives one element per data row. A map row is decoded from its own row; an object is of the requested class. |
| FileIntercept.BaseName | src/main/java/com/hellozq/msio/bean/others/FileInterceptItem.java:68 | The base name is the text before the last dot. A name without a dot throws `StringIndexOutOfBounds`. |
| FileIntercept.Extension | src/main/java/com/hellozq/msio/bean/others/FileInterceptItem.java:74 | The extension is the text after the last dot, or the whole name when there is no dot. |
| FileIntercept.NameCheck | src/main/java/com/hellozq/msio/bean/others/FileInterceptItem.java:68-71 | The pattern check throws iff the name has no dot or the pattern is `null`. |
| FileIntercept.TypeCheck | src/main/java/com/hellozq/msio/bean/others/FileInterceptItem.java:74-77 | The type check throws iff the type is `null`, and otherwise passes iff it equals the extension. |
| FileIntercept.Filter | src/main/java/com/hellozq/msio/bean/others/FileInterceptItem.java:65-93 | As written, the name and type checks run only when their setting is empty. It throws iff the pattern is `null`, or is empty and the name has no dot, or the type is `null` and no pattern check rejected first. It accepts iff an empty pattern matches, an empty type equals the extension, the size is strictly inside the window and the custom filter accepts. |
| FileIntercept.CustomDecidesLast | src/main/java/com/hellozq/msio/bean/others/FileInterceptItem.java:79-92 | The custom filter decides only after every built-in check passes; a size outside the window is never accepted. |
| FileIntercept.ChecksSpec | src/main/java/com/hellozq/msio/bean/others/FileInterceptItem.java:65-93 | For any choice of guards, the chain throws iff a running check throws before a rejection, and accepts iff every running check passes, the size is in the window and the custom filter accepts. |
| FileIntercept.FilterSkipsConfiguredType | src/main/java/com/hellozq/msio/bean/others/FileInterceptItem.java:67-78 | A pattern `a` and type `pdf` accept `a.xls`: both configured checks are skipped. |
| FileIntercept.FilterThrowsOnDefaultPattern | src/main/java/com/hellozq/msio/bean/others/FileInterceptItem.java:67-69 | An item with no pattern throws `NullPointer` on `a.xls`. |
| FileIntercept.FilterThrowsOnMissingType | src/main/java/com/hellozq/msio/bean/others/FileInterceptItem.java:67-76 | An item with pattern `a` and no type throws `NullPointer` on `a.xls`: the type check runs on the null type. |
| FileIntercept.FilterIntended | src/main/java/com/hellozq/msio/bean/others/FileInterceptItem.java:65-93 | With the guards un-inverted, the filter throws iff a pattern is set and the name has no dot. |
| FileIntercept.FilterIntendedSpec | src/main/java/com/hellozq/msio/bean/others/FileInterceptItem.java:65-93 | A file is accepted iff the set pattern matches its base name, the set type equals its extension, its size lies in the window, and the custom filter accepts it. |

## Left out

- Reading the configuration document (`msio.json` from disk or the class path) and parsing JSON are not modelled. The parsed document is a constructor argument. An unreadable or malformed document leaves the tables unchanged, which `Reload` covers by applying nothing when there is no document.
- Package scanning (`ClassUtils.getClasses`) is not modelled. `Init` takes the scanned classes as a list.
- Concurrency is not modelled: `ConcurrentHashMap` and parallel streams are treated as sequential, and iteration order over `HashMap` key sets is an arbitrary order.
- Logging, `printStackTrace` and `System.out` are left out.
- Workbook parsing (Apache POI) is left out. A sheet is its merged regions, a map from row index to cell texts, and `getLastRowNum`.
- `MsUtils` is not part of this model. `getRowDataInString` is the row's cell texts. `getStringValueFromCell` is the cell text, `""` for a missing cell. `mapInversion` maps each display name to its field key, and is taken to throw `NullPointerException` for a null mapping; that is why `GetPageContent` throws `NullPointer` when no schema is found.
- `StringRegexUtils` is not part of this model. `checkIsContain(s, "$$")` is modelled as finding the first `$$` not preceded by a backslash. `getOrDefault` is modelled as the value unless empty.
- `Pattern.matches` is a parameter, and so is the user's custom file filter. Both are total functions.
- What a ReflectASM converter would return is not modelled. As written the converter call always throws `ClassCast` (`Excel.ConverterCallThrows`), so no value is ever returned.
- Classes.TakesString: with several one-argument methods of the setter's name, the model requires every one to accept a `String`. ReflectASM picks the first one in its own method order, which the model does not fix.
- `conversionPojo` has no `return` statement and does not declare what `newInstance` throws, so the source as written does not compile. The model takes the evidently meant `return obj` and lets `newInstance` of `null` throw `NullPointer`.
- `getPageContent` calls `match(titles)` with one argument, but `match` takes two. The model passes `isEg` as a parameter of `GetPageContent`.
- `dataCache` and `isTuring` are stored but never read by the modelled code, and `tableName` of `@MsOperator` is not used.
- Cyclic nested class references, which would make `getDepthLevel` and `addMappingComplex` recurse forever, are not modelled: a class graph is a finite tree of descriptors.
- Container.MsIoContainer.Match: the tie-break follows `java.util.TimSort` for fewer than 32 qualifying ids (initial run, then binary insertion). With 32 or more qualifying ids, TimSort's merging phase is not modelled and the same insertion path is applied.
- Container.MsIoContainer.NestedFields: its contract does not state how `instanceCache` changes, only that the registry invariant holds and tables grow.
- Container.MsIoContainer.AddMappingComplex: which converters were instantiated on the way is not stated.
- ConfigDocs.Store: when an entry names no class, the cold-mode `IllegalAccess` carries no class name. The source's message then names any class recorded for the id earlier. Leaving it out keeps an entry's outcome independent of the tables it starts from.
- Container.MsIoContainer.StoreEntry: the same message detail is left out, as in `ConfigDocs.Store`.
- Container.MsIoContainer.NestedField: when the type is registered first, the children are tied to `get` after registration through `VisibleIn` on the tables after the field, not through `LookupIn` on the tables before the second `get`. A hot-tier entry that the reload inside that `get` would add is therefore not stated.
- Container.MsIoContainer.Init: the contract gives the classes registered, the failing class and the exception. It does not give the schemas each registration stores, because those depend on every earlier registration. When the failing class's depth computation succeeds, the contract does not state that its registration threw at all: a class with sub-types that registers cleanly also meets what is said of the failing class. Whether a nested registration throws depends on every lookup the recursion makes, and that outcome is not characterised.
- Container.MsIoContainer.RegisterScanned: an escaping `NullPointer` is tied to registration having thrown only when the depth computation fails. For a class with sub-types whose depth computation succeeds, the contract does not say that the nested field loop threw, for the reason given on the Init line.
- JavaStrings.UpperAscii: `toUpperCase` is modelled for the ASCII letters only. Other characters are left as they are, so locale rules and length-changing mappings such as `ß` to `SS` are not modelled.
- JavaStrings.AccessorName: the capitalised first character is `UpperAscii` of it, so the accessor name is ASCII-only like `UpperAscii`.
- JavaStrings.AccessorNameSpec: its statement that the accessor's length is the prefix's plus the name's holds for the ASCII model only. With `ß` as the first character, the source's accessor is one character longer.
- JavaStrings.AccessorNameCollides: it decides collisions under ASCII capitalisation only. Two names whose first characters collide only under full Unicode case mapping are not covered.
- Container.MsIoContainer.AddMappingDoc: `information.remove("className")` also removes the key from the caller's parsed document. The model parses a copy and leaves the document unchanged, so a second application still sees `className`.
- ConfigDocs.ApplyDoc: the same removal from the caller's document is not modelled. `ConfigDocs.ApplyDocIdempotent` is about applying an unchanged document twice.

Some behaviour of the code is easy to misread. The model follows the code in each case:
- The `match` tie-break prefers an id WITHOUT a backing class, because the comparator sorts an id without a class first.
- The recorded depth carries `i` across siblings, so it sums over siblings (`Depth.DepthSumsSiblings`) rather than taking the maximum.
- In cold mode, configuration entries are checked for duplicates but never stored.
- A descriptor with an unescaped `$$` keeps any `\$$` before it unescaped, because unescaping happens only when there is no bound method.
- In `conversionPojo`, a non-`String` field never reaches its setter. Its converter is invoked with the two arguments `String.class` and the text, so the `Class` is cast to `String` and `ClassCast` is thrown.
- `setFieldValue` passes the text as it is, so a setter whose parameter is not a supertype of `String` throws `ClassCast`.

## Findings

| source | as written | input that shows it | evidently intended | confidence | as-written member | corrected member |
|---|---|---|---|---|---|---|
| src/main/java/com/hellozq/msio/bean/others/FileInterceptItem.java:67 | The name check runs when `regexName` is EMPTY: the `isEmpty` guard is inverted. | Item with pattern `a` and type `pdf`, file `a.xls` of size 10: accepted, with both checks skipped. | Run the check when a pattern is set. | high (not executed) | FileIntercept.Filter, FileIntercept.FilterSkipsConfiguredType | FileIntercept.FilterIntended, FileIntercept.FilterIntendedSpec |
| src/main/java/com/hellozq/msio/bean/others/FileInterceptItem.java:73 | The type check runs when `fileType` is EMPTY, and then calls `equals` on `null`. | Item with pattern `a` and no type, file `a.xls`: the type check runs and throws `NullPointerException`. | Run the check when a type is set. | high (not executed) | FileIntercept.Filter, FileIntercept.FilterThrowsOnMissingType | FileIntercept.FilterIntended, FileIntercept.FilterIntendedSpec |
| src/main/java/com/hellozq/msio/unit/ExcelFactory.java:143-152 | The row loop reads `getRow(rowIndex)` (the header) on every iteration, from `rowIndex` below `getLastRowNum()`. | Header `a` at row 0, data `x` at row 1, last row 1, class `Map`: the result is `[{a=a}]`. | Decode rows `rowIndex+1` up to and including `getLastRowNum()`, each its own row: `[{a=x}]`. | high (not executed) | Excel.SimpleExcelBean.GetPageContent, Excel.HeaderRowDecodedAsData | Excel.RowsIntended, Excel.RowsIntendedSpec |
| src/main/java/com/github/lisdocument/msio/utils/ClassUtils.java:250 | `key.split(".")` splits on the regex `.`, so a key without line terminators gives no segment at all. | Key `a.b` on a map whose `a` entry is a map with `b` = `x`: the result is the outer map's text. | Split on a literal dot (`split("\\.")`), walking `a` then `b`: the result is `x`. | high (not executed) | Classes.ClassUtils.GetValueByInvoke, Classes.PathKeyIgnored | Classes.ValueByPath, Classes.ValueByPathWalksSegments |
