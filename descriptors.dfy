/** The entities of the registry. Reflection is replaced by descriptors:
    a type is its name, its `@MsOperator` annotation (id, table name,
    sub-types), its declared fields and its public method signatures; a
    field carries its `@MsIgnore`, `@MsItem` and `@MsAutomatic` flags and
    its declared type. Descriptors are finite values, so the sub-type graph
    is acyclic by construction. */
module Descriptors {
  import opened Wrappers
  import opened LinkedMaps

  /** A public method: its name and the class names of its parameters. */
  datatype MethodSig = MethodSig(name: string, params: seq<string>)

  /** `@MsItem`: display name, container method name ("" when none), and
      the converter class to instantiate when there is no method. */
  datatype MsItem = MsItem(value: string, methodName: string, transFormOperator: string)

  /** `@MsOperator`: the schema id, the table name and the nested sub-types. */
  datatype MsOperator = MsOperator(value: string, tableName: string, subClazz: seq<TypeDesc>)

  datatype FieldDesc = FieldDesc(
    name: string,
    ignored: bool,            // carries @MsIgnore
    item: Option<MsItem>,     // its @MsItem, if any
    automatic: bool,          // carries @MsAutomatic
    fieldType: TypeDesc)

  datatype TypeDesc = TypeDesc(
    name: string,             // Class.getName()
    simpleName: string,       // Class.getSimpleName()
    operator: Option<MsOperator>,
    fields: seq<FieldDesc>,   // getDeclaredFields(), in declaration order
    methods: set<MethodSig>)

  /** A class is identified by its fully qualified name. */
  predicate IsStringClass(t: TypeDesc) {
    t.name == "java.lang.String"
  }

  predicate IsMapClass(t: TypeDesc) {
    t.name == "java.util.Map"
  }

  /** `Map.class`, the class `getClazz` answers for an id without one. */
  const MapClass: TypeDesc := TypeDesc("java.util.Map", "Map", None, [], {})

  /** `MsIoContainer.Information`: what one schema entry knows about a field. */
  datatype Information = Information(
    name: string,                       // display name
    methodName: Option<string>,         // bound container method
    invokesContainer: bool,             // invokeObject is the transform container
    operator: Option<string>,           // the cached converter instance, by class
    automatic: bool,
    fieldType: Option<TypeDesc>,
    children: Option<LinkedMap<string, Information>>)

  /** A schema: field key -> Information, in insertion order. */
  type Schema = LinkedMap<string, Information>

  /** `MsIoContainer.ComplexBo`. */
  datatype ComplexBo = ComplexBo(depthLevel: int, structure: Schema)

  /** The parsed configuration document: id -> (field key -> descriptor text). */
  type ConfigDoc = LinkedMap<string, LinkedMap<string, string>>

  ghost predicate DocValid(doc: ConfigDoc) {
    doc.Valid() && forall k :: k in doc.values ==> doc.values[k].Valid()
  }

  /** A field enters a schema when it has `@MsItem` and lacks `@MsIgnore`. */
  predicate Mapped(f: FieldDesc) {
    !f.ignored && f.item.Some?
  }

  /** The names of the mapped fields, in declaration order. */
  function MappedNames(fields: seq<FieldDesc>): (r: seq<string>)
    ensures |r| <= |fields|
  {
    if fields == [] then []
    else MappedNames(fields[..|fields| - 1]) + (if Mapped(fields[|fields| - 1]) then [fields[|fields| - 1].name] else [])
  }

  predicate DistinctFieldNames(fields: seq<FieldDesc>) {
    forall i, j :: 0 <= i < j < |fields| ==> fields[i].name != fields[j].name
  }

  /** `getDeclaredField(name)`: the declared field of that name. */
  function FieldNamed(t: TypeDesc, name: string): (r: Option<FieldDesc>)
    ensures r.Some? ==> r.value in t.fields && r.value.name == name
    ensures r.None? ==> forall f :: f in t.fields ==> f.name != name
  {
    FieldNamedIn(t.fields, name)
  }

  function FieldNamedIn(fields: seq<FieldDesc>, name: string): (r: Option<FieldDesc>)
    ensures r.Some? ==> r.value in fields && r.value.name == name
    ensures r.None? ==> forall f :: f in fields ==> f.name != name
  {
    if fields == [] then None
    else if fields[0].name == name then Some(fields[0])
    else FieldNamedIn(fields[1..], name)
  }
}
