/** The schema `addMapping(Class)` and `addMappingComplex(Class)` build from
    a type descriptor: one entry per declared field that carries `@MsItem`
    and lacks `@MsIgnore`, keyed by the field name, in declaration order.
    Both field loops are the same fold; they differ only in the Information
    each mapped field gets. The registry's loops (`MsIoContainer.AddMapping`
    and `MsIoContainer.AddMappingComplex`) are proved against `Fold`. */
module FlatSchemas {
  import opened Wrappers
  import opened JavaStrings
  import opened LinkedMaps
  import opened Descriptors

  /** A mapped field whose `methodName` names no method of the transform
      container: `getDeclaredMethod` throws. */
  predicate MissingMethod(f: FieldDesc, container: set<string>) {
    Mapped(f) && f.item.value.methodName != "" && f.item.value.methodName !in container
  }

  /** The `Information` the flat field loop builds for one mapped field. A
      non-empty `methodName` binds that container method; otherwise the
      cached converter instance of `transFormOperator` is stored, `None`
      when that class cannot be instantiated. A field without `@MsItem` is
      skipped by the loop before this is reached. */
  function FieldInformation(f: FieldDesc, container: set<string>, instantiable: set<string>): Result<Information> {
    match f.item
    case None => Err(NullPointer)
    case Some(a) =>
      var name := GetOrDefault(a.value, f.name);
      if a.methodName != "" then
        if a.methodName in container then
          Ok(Information(name, Some(a.methodName), true, None, f.automatic, Some(f.fieldType), None))
        else Err(NoSuchMethod([a.methodName]))
      else
        var converter := if a.transFormOperator in instantiable then Some(a.transFormOperator) else None;
        Ok(Information(name, None, false, converter, f.automatic, Some(f.fieldType), None))
  }

  /** The field loop over the first `n` fields, given the Information (or
      the exception) each field yields: unmapped fields are skipped, the
      first exception ends the loop. */
  function Fold(fields: seq<FieldDesc>, infos: seq<Result<Information>>, n: nat): (r: Result<Schema>)
    requires |infos| == |fields| && n <= |fields|
    ensures r.Ok? ==> r.value.Valid()
  {
    if n == 0 then Ok(Empty())
    else
      var item :- Fold(fields, infos, n - 1);
      if !Mapped(fields[n - 1]) then Ok(item)
      else
        var info :- infos[n - 1];
        Ok(item.Put(fields[n - 1].name, info))
  }

  /** What the flat loop computes for every field. */
  function FlatInfos(fields: seq<FieldDesc>, container: set<string>, instantiable: set<string>): (r: seq<Result<Information>>)
    ensures |r| == |fields|
  {
    if fields == [] then []
    else FlatInfos(fields[..|fields| - 1], container, instantiable) + [FieldInformation(fields[|fields| - 1], container, instantiable)]
  }

  lemma {:induction false} FlatInfosAt(fields: seq<FieldDesc>, container: set<string>, instantiable: set<string>, i: nat)
    requires i < |fields|
    ensures FlatInfos(fields, container, instantiable)[i] == FieldInformation(fields[i], container, instantiable)
  {
    if i < |fields| - 1 {
      FlatInfosAt(fields[..|fields| - 1], container, instantiable, i);
    }
  }

  /** The schema `addMapping(Class)` stores for a type's fields. */
  function FlatSchema(fields: seq<FieldDesc>, container: set<string>, instantiable: set<string>): (r: Result<Schema>)
    ensures r.Ok? ==> r.value.Valid()
  {
    Fold(fields, FlatInfos(fields, container, instantiable), |fields|)
  }

  /** Whether the loop asks `newInstance` for the field's converter: a mapped
      field without a method name, and, in the nested loop, only when the
      field's type is not itself a schema type. */
  predicate AsksConverter(f: FieldDesc, nested: bool) {
    Mapped(f) && f.item.value.methodName == "" && !(nested && f.fieldType.operator.Some?)
  }

  /** The converter classes `newInstance` is asked for while the loop visits
      the first `n` fields, up to the field that aborts it. */
  function Requested(fields: seq<FieldDesc>, infos: seq<Result<Information>>, n: nat, nested: bool): (r: set<string>)
    requires |infos| == |fields| && n <= |fields|
  {
    if n == 0 then {}
    else if Fold(fields, infos, n - 1).Ok? && AsksConverter(fields[n - 1], nested) then
      Requested(fields, infos, n - 1, nested) + {fields[n - 1].item.value.transFormOperator}
    else Requested(fields, infos, n - 1, nested)
  }

  /** Once the loop has thrown, later fields change nothing. */
  lemma {:induction false} FoldErrorSticks(fields: seq<FieldDesc>, infos: seq<Result<Information>>, m: nat, n: nat)
    requires |infos| == |fields| && m <= n <= |fields|
    requires Fold(fields, infos, m).Err?
    ensures Fold(fields, infos, n) == Fold(fields, infos, m)
    decreases n
  {
    if m < n {
      FoldErrorSticks(fields, infos, m, n - 1);
    }
  }

  /** Nor does it ask for more converters. */
  lemma {:induction false} RequestedAfterError(fields: seq<FieldDesc>, infos: seq<Result<Information>>, m: nat, n: nat, nested: bool)
    requires |infos| == |fields| && m <= n <= |fields|
    requires Fold(fields, infos, m).Err?
    ensures Requested(fields, infos, n, nested) == Requested(fields, infos, m, nested)
    decreases n
  {
    if m < n {
      RequestedAfterError(fields, infos, m, n - 1, nested);
      FoldErrorSticks(fields, infos, m, n - 1);
    }
  }

  /** The flat loop after its first `n` fields: the schema so far ... */
  function FlatPrefix(fields: seq<FieldDesc>, container: set<string>, instantiable: set<string>, n: nat): Result<Schema>
    requires n <= |fields|
  {
    Fold(fields, FlatInfos(fields, container, instantiable), n)
  }

  /** ... and the converters asked for so far. */
  function FlatRequested(fields: seq<FieldDesc>, container: set<string>, instantiable: set<string>, n: nat): set<string>
    requires n <= |fields|
  {
    Requested(fields, FlatInfos(fields, container, instantiable), n, false)
  }

  /** One more field: skipped when unmapped, otherwise its Information is put
      or its exception ends the loop. */
  lemma FlatStep(fields: seq<FieldDesc>, container: set<string>, instantiable: set<string>, k: nat)
    requires k < |fields| && FlatPrefix(fields, container, instantiable, k).Ok?
    ensures FlatPrefix(fields, container, instantiable, k + 1) ==
      if !Mapped(fields[k]) then FlatPrefix(fields, container, instantiable, k)
      else match FieldInformation(fields[k], container, instantiable)
        case Ok(info) => Ok(FlatPrefix(fields, container, instantiable, k).value.Put(fields[k].name, info))
        case Err(e) => Err(e)
    ensures FlatRequested(fields, container, instantiable, k + 1) ==
      FlatRequested(fields, container, instantiable, k) + (if AsksConverter(fields[k], false) then {fields[k].item.value.transFormOperator} else {})
  {
    FlatInfosAt(fields, container, instantiable, k);
  }

  /** After an exception the rest of the loop changes nothing. */
  lemma FlatErrorSticks(fields: seq<FieldDesc>, container: set<string>, instantiable: set<string>, k: nat)
    requires k <= |fields| && FlatPrefix(fields, container, instantiable, k).Err?
    ensures FlatPrefix(fields, container, instantiable, |fields|) == FlatPrefix(fields, container, instantiable, k)
    ensures FlatRequested(fields, container, instantiable, |fields|) == FlatRequested(fields, container, instantiable, k)
  {
    FoldErrorSticks(fields, FlatInfos(fields, container, instantiable), k, |fields|);
    RequestedAfterError(fields, FlatInfos(fields, container, instantiable), k, |fields|, false);
  }

  /** The fold over `n` fields reads the Information of those fields only. */
  lemma {:induction false} FoldPrefix(fields: seq<FieldDesc>, infos: seq<Result<Information>>, infos': seq<Result<Information>>, n: nat)
    requires |infos| == |fields| && |infos'| == |fields| && n <= |fields|
    requires forall i :: 0 <= i < n ==> infos[i] == infos'[i]
    ensures Fold(fields, infos, n) == Fold(fields, infos', n)
  {
    if n > 0 {
      FoldPrefix(fields, infos, infos', n - 1);
    }
  }


  /** The schema's keys are the mapped field names, each at its first
      occurrence, in declaration order; with distinct field names (always
      the case for a Java class) they are exactly the mapped names. */
  lemma {:induction false} FoldKeys(fields: seq<FieldDesc>, infos: seq<Result<Information>>, n: nat)
    requires |infos| == |fields| && n <= |fields|
    requires Fold(fields, infos, n).Ok?
    ensures Fold(fields, infos, n).value.keys == FirstOccurrences(MappedNames(fields[..n]))
  {
    if n > 0 {
      FoldKeys(fields, infos, n - 1);
      var item := Fold(fields, infos, n - 1).value;
      var names := MappedNames(fields[..n - 1]);
      var f := fields[n - 1];
      assert fields[..n][..n - 1] == fields[..n - 1];
      if Mapped(f) {
        assert MappedNames(fields[..n]) == names + [f.name];
        assert Fold(fields, infos, n).value == item.Put(f.name, infos[n - 1].value);
        PutKeys(item, names, f.name, infos[n - 1].value);
      } else {
        assert MappedNames(fields[..n]) == names;
      }
    }
  }

  lemma FlatSchemaKeys(fields: seq<FieldDesc>, container: set<string>, instantiable: set<string>)
    requires FlatSchema(fields, container, instantiable).Ok?
    requires DistinctFieldNames(fields)
    ensures FlatSchema(fields, container, instantiable).value.keys == MappedNames(fields)
  {
    FoldKeys(fields, FlatInfos(fields, container, instantiable), |fields|);
    assert fields[..|fields|] == fields;
    MappedNamesDistinct(fields);
    FirstOccurrencesOfDistinct(MappedNames(fields));
  }

  lemma {:induction false} MappedNamesMembers(fields: seq<FieldDesc>)
    ensures forall x :: x in MappedNames(fields) ==> exists i :: 0 <= i < |fields| && fields[i].name == x
  {
    if fields != [] {
      var prefix := fields[..|fields| - 1];
      MappedNamesMembers(prefix);
      forall x | x in MappedNames(fields)
        ensures exists i :: 0 <= i < |fields| && fields[i].name == x
      {
        if x in MappedNames(prefix) {
          var i :| 0 <= i < |prefix| && prefix[i].name == x;
          assert fields[i].name == x;
        } else {
          assert fields[|fields| - 1].name == x;
        }
      }
    }
  }

  lemma {:induction false} MappedNamesDistinct(fields: seq<FieldDesc>)
    requires DistinctFieldNames(fields)
    ensures forall i, j :: 0 <= i < j < |MappedNames(fields)| ==> MappedNames(fields)[i] != MappedNames(fields)[j]
  {
    if fields != [] {
      var prefix := fields[..|fields| - 1];
      MappedNamesDistinct(prefix);
      MappedNamesMembers(prefix);
      var last := fields[|fields| - 1];
      var names := MappedNames(prefix);
      forall x | x in names
        ensures x != last.name
      {
        var i :| 0 <= i < |prefix| && prefix[i].name == x;
        assert fields[i] == prefix[i];
      }
      if Mapped(last) {
        var all := names + [last.name];
        assert MappedNames(fields) == all;
        forall i, j | 0 <= i < j < |all|
          ensures all[i] != all[j]
        {
          if j == |names| {
            assert all[i] == names[i] && names[i] in names;
          } else {
            assert all[i] == names[i] && all[j] == names[j];
          }
        }
      }
    }
  }

  /** Every mapped field is stored under its own name with the Information
      computed for it. */
  lemma {:induction false} FoldEntries(fields: seq<FieldDesc>, infos: seq<Result<Information>>, n: nat)
    requires |infos| == |fields| && n <= |fields|
    requires Fold(fields, infos, n).Ok?
    requires DistinctFieldNames(fields)
    ensures forall i :: 0 <= i < n && Mapped(fields[i]) ==>
      fields[i].name in Fold(fields, infos, n).value.values &&
      infos[i] == Ok(Fold(fields, infos, n).value.values[fields[i].name])
  {
    if n > 0 {
      FoldEntries(fields, infos, n - 1);
      forall i | 0 <= i < n - 1 && Mapped(fields[i])
        ensures fields[i].name != fields[n - 1].name
      {
      }
    }
  }

  lemma FlatSchemaEntries(fields: seq<FieldDesc>, container: set<string>, instantiable: set<string>)
    requires FlatSchema(fields, container, instantiable).Ok?
    requires DistinctFieldNames(fields)
    ensures forall i :: 0 <= i < |fields| && Mapped(fields[i]) ==>
      fields[i].name in FlatSchema(fields, container, instantiable).value.values &&
      FieldInformation(fields[i], container, instantiable) == Ok(FlatSchema(fields, container, instantiable).value.values[fields[i].name])
  {
    FoldEntries(fields, FlatInfos(fields, container, instantiable), |fields|);
    forall i | 0 <= i < |fields|
      ensures FlatInfos(fields, container, instantiable)[i] == FieldInformation(fields[i], container, instantiable)
    {
      FlatInfosAt(fields, container, instantiable, i);
    }
  }

  /** The loop fails exactly when some mapped field yields an exception, and
      the error is that of the first such field. */
  lemma {:induction false} FoldError(fields: seq<FieldDesc>, infos: seq<Result<Information>>, n: nat)
    requires |infos| == |fields| && n <= |fields|
    ensures Fold(fields, infos, n).Err? <==> exists i :: 0 <= i < n && Mapped(fields[i]) && infos[i].Err?
    ensures Fold(fields, infos, n).Err? ==>
      exists i :: 0 <= i < n && Mapped(fields[i]) && infos[i].Err? &&
        (forall j :: 0 <= j < i && Mapped(fields[j]) ==> infos[j].Ok?) &&
        Fold(fields, infos, n).error == infos[i].error
  {
    if n > 0 {
      FoldError(fields, infos, n - 1);
    }
  }

  /** Flat registration fails exactly when some mapped field names a missing
      container method, and the error names the first such method. */
  lemma FlatSchemaError(fields: seq<FieldDesc>, container: set<string>, instantiable: set<string>)
    ensures FlatSchema(fields, container, instantiable).Err? <==>
      exists i :: 0 <= i < |fields| && MissingMethod(fields[i], container)
    ensures FlatSchema(fields, container, instantiable).Err? ==>
      exists i :: 0 <= i < |fields| && MissingMethod(fields[i], container) &&
        (forall j :: 0 <= j < i ==> !MissingMethod(fields[j], container)) &&
        FlatSchema(fields, container, instantiable).error == NoSuchMethod([fields[i].item.value.methodName])
  {
    var infos := FlatInfos(fields, container, instantiable);
    FoldError(fields, infos, |fields|);
    forall i | 0 <= i < |fields|
      ensures infos[i] == FieldInformation(fields[i], container, instantiable)
    {
      FlatInfosAt(fields, container, instantiable, i);
    }
    assert forall i :: 0 <= i < |fields| && Mapped(fields[i]) ==> (infos[i].Err? <==> MissingMethod(fields[i], container));
  }
}
