/** `ClassUtils`: the memoised reflection helpers and the two lookups over
    plain data. Reflection is abstract: ReflectASM's `MethodAccess` of a
    class is its name and method signatures, `getMethod` is a lookup in
    those signatures, and what an invoked method does is a parameter. The
    two static caches are the fields of one `ClassUtils` object. */
module Classes {
  import opened Wrappers
  import opened JavaStrings
  import opened LinkedMaps
  import opened Descriptors

  /** ReflectASM's `MethodAccess`: the class it was built for and the
      signatures of its methods. */
  datatype MethodAccess = MethodAccess(className: string, methods: set<MethodSig>)

  /** `MethodAccess.get(clazz)`. */
  function MethodAccessOf(t: TypeDesc): MethodAccess {
    MethodAccess(t.name, t.methods)
  }

  /** ReflectASM's `getIndex(name, argumentCount)` succeeds: some method of
      that name takes that many arguments. */
  predicate HasMethod(a: MethodAccess, name: string, arity: nat) {
    exists sig :: sig in a.methods && sig.name == name && |sig.params| == arity
  }

  /** The classes a `String` argument can be cast to. */
  const StringSupertypes: set<string> := {"java.lang.String", "java.lang.Object", "java.lang.CharSequence",
    "java.lang.Comparable", "java.io.Serializable", "java.lang.constant.Constable", "java.lang.constant.ConstantDesc"}

  /** ReflectASM's generated `invoke` casts each argument to the parameter
      type of the method it picked: a `String` passes to the one-argument
      method `name` only when that parameter is a supertype of `String`. */
  predicate TakesString(a: MethodAccess, name: string) {
    forall sig :: sig in a.methods && sig.name == name && |sig.params| == 1 ==> sig.params[0] in StringSupertypes
  }

  /** What `getMethodAccess(t)` answers from the cache `cache`: the entry
      cached under the class name, else a freshly built one. */
  function Access(cache: map<string, MethodAccess>, t: TypeDesc): MethodAccess {
    if t.name in cache then cache[t.name] else MethodAccessOf(t)
  }

  /** The cache after `getMethodAccess(t)`. */
  function Memo(cache: map<string, MethodAccess>, t: TypeDesc): map<string, MethodAccess> {
    if t.name in cache then cache else cache[t.name := MethodAccessOf(t)]
  }

  /** Memoisation: afterwards the cache holds the class name, bound to the
      answer; a second call answers the same and builds nothing; no entry
      is replaced. */
  lemma MemoSpec(cache: map<string, MethodAccess>, t: TypeDesc)
    ensures Memo(cache, t).Keys == cache.Keys + {t.name}
    ensures Memo(cache, t)[t.name] == Access(cache, t)
    ensures Access(Memo(cache, t), t) == Access(cache, t)
    ensures Memo(Memo(cache, t), t) == Memo(cache, t)
    ensures forall n :: n in cache ==> Memo(cache, t)[n] == cache[n]
  {
  }

  // ---------------------------------------------------------------------------
  // invokeMethod

  /** `java.lang.reflect.Method`: the declaring class and the signature. */
  datatype MethodRef = MethodRef(declaringClass: string, sig: MethodSig)

  /** How `Method.invoke` ended: it returned a value (`None` for `null`),
      threw one of the two exceptions `invokeMethod` catches, or threw
      `IllegalArgumentException` (an argument of the wrong type), which
      escapes. */
  datatype Invocation<V> = Returned(value: Option<V>) | IllegalAccessThrown | InvocationTargetThrown | IllegalArgumentThrown

  /** The argument class names, appended one after the other. */
  function Concat(names: seq<string>): string {
    if names == [] then "" else Concat(names[..|names| - 1]) + names[|names| - 1]
  }

  /** The `invokeMethod` cache key: class name, `:`, method name, `!`, then
      each argument's class name with no separator. */
  function CacheKey(className: string, functionName: string, argClasses: seq<string>): string {
    className + ":" + functionName + "!" + Concat(argClasses)
  }

  /** The index of the first `d` in `s`, `|s|` when there is none. */
  function FirstIndex(s: string, d: char): nat {
    if s == [] || s[0] == d then 0 else 1 + FirstIndex(s[1..], d)
  }

  lemma {:induction false} FirstIndexAfter(x: string, y: string, d: char)
    requires d !in x
    ensures FirstIndex(x + [d] + y, d) == |x|
  {
    if x != [] {
      assert (x + [d] + y)[1..] == x[1..] + [d] + y;
      FirstIndexAfter(x[1..], y, d);
    }
  }

  /** Cutting at the first occurrence of a delimiter is unambiguous. */
  lemma CutAtFirst(x1: string, y1: string, x2: string, y2: string, d: char)
    requires d !in x1 && d !in x2
    requires x1 + [d] + y1 == x2 + [d] + y2
    ensures x1 == x2 && y1 == y2
  {
    FirstIndexAfter(x1, y1, d);
    FirstIndexAfter(x2, y2, d);
    var s := x1 + [d] + y1;
    assert x1 == s[..|x1|];
    assert y1 == s[|x1| + 1..];
  }

  /** A class name holds no `:` and a method name no `!`, so the key
      determines the class, the method name and the concatenated argument
      class names. */
  lemma CacheKeySeparates(c1: string, f1: string, p1: seq<string>, c2: string, f2: string, p2: seq<string>)
    requires ':' !in c1 && ':' !in c2 && '!' !in f1 && '!' !in f2
    requires CacheKey(c1, f1, p1) == CacheKey(c2, f2, p2)
    ensures c1 == c2 && f1 == f2 && Concat(p1) == Concat(p2)
  {
    var q1, q2 := Concat(p1), Concat(p2);
    assert CacheKey(c1, f1, p1) == c1 + [':'] + (f1 + ['!'] + q1);
    assert CacheKey(c2, f2, p2) == c2 + [':'] + (f2 + ['!'] + q2);
    CutAtFirst(c1, f1 + ['!'] + q1, c2, f2 + ['!'] + q2, ':');
    CutAtFirst(f1, q1, f2, q2, '!');
  }

  /** The argument list itself is not determined: one argument of class
      `a.Bc.D` and two of classes `a.B` and `c.D` share a key, so a Method
      cached for one call is reused for the other. */
  lemma CacheKeyMergesArguments()
    ensures CacheKey("C", "m", ["a.B", "c.D"]) == CacheKey("C", "m", ["a.Bc.D"])
  {
    assert Concat(["a.B", "c.D"]) == Concat(["a.B"]) + "c.D";
    assert ["a.B", "c.D"][..1] == ["a.B"];
    assert Concat(["a.B"]) == "a.B" by { assert ["a.B"][..0] == []; }
    assert Concat(["a.Bc.D"]) == "a.Bc.D" by { assert ["a.Bc.D"][..0] == []; }
  }

  /** `clazz.getMethod(functionName, classes)`: the public method with
      exactly that name and those parameter classes. */
  function Lookup(clazz: TypeDesc, functionName: string, argClasses: seq<string>): Result<MethodRef> {
    if MethodSig(functionName, argClasses) in clazz.methods then Ok(MethodRef(clazz.name, MethodSig(functionName, argClasses)))
    else Err(NoSuchMethod([functionName]))
  }

  /** The class names of the arguments; `getClass()` on a `null` argument
      throws. */
  function ArgClasses(params: seq<Option<TypeDesc>>): Result<seq<string>> {
    if params == [] then Ok([])
    else
      var front :- ArgClasses(params[..|params| - 1]);
      if params[|params| - 1].None? then Err(NullPointer) else Ok(front + [params[|params| - 1].value.name])
  }

  /** The class names fail exactly when an argument is `null`, with a
      `NullPointerException`; otherwise they are the arguments' class
      names, in order. */
  lemma {:induction false} ArgClassesSpec(params: seq<Option<TypeDesc>>)
    ensures ArgClasses(params).Err? <==> exists i :: 0 <= i < |params| && params[i].None?
    ensures ArgClasses(params).Err? ==> ArgClasses(params).error == NullPointer
    ensures ArgClasses(params).Ok? ==> (|ArgClasses(params).value| == |params| &&
      forall i :: 0 <= i < |params| ==> ArgClasses(params).value[i] == params[i].value.name)
  {
    if params != [] {
      var front := params[..|params| - 1];
      ArgClassesSpec(front);
      assert forall i :: 0 <= i < |front| ==> front[i] == params[i];
    }
  }

  /** `method.invoke(obj, params)` for arguments of the classes
      `argClasses`: a method taking another number of parameters throws
      `IllegalArgumentException`, as does an argument the method refuses;
      an access or target exception is caught and gives `null`. */
  function Invoked<V>(m: MethodRef, argClasses: seq<string>, functionName: string, invoke: MethodRef -> Invocation<V>): Result<Option<V>> {
    if |m.sig.params| != |argClasses| then Err(IllegalArgument(functionName))
    else match invoke(m)
      case Returned(v) => Ok(v)
      case IllegalArgumentThrown => Err(IllegalArgument(functionName))
      case _ => Ok(None)
  }

  /** `invokeMethod` from the method cache `cache`: the answer and the new
      cache. */
  function Invoke<V>(cache: map<string, MethodRef>, objClass: TypeDesc, functionName: string,
                     params: seq<Option<TypeDesc>>, invoke: MethodRef -> Invocation<V>): (Result<Option<V>>, map<string, MethodRef>)
  {
    match ArgClasses(params)
    case Err(e) => (Err(e), cache)
    case Ok(names) =>
      var key := CacheKey(objClass.name, functionName, names);
      if key in cache then (Invoked(cache[key], names, functionName, invoke), cache)
      else match Lookup(objClass, functionName, names)
        case Err(e) => (Err(e), cache)
        case Ok(m) => (Invoked(m, names, functionName, invoke), cache[key := m])
  }

  /** The method is looked up only when its key is missing and is then
      cached under that key; a cached method is used as it is. A failed
      lookup propagates `NoSuchMethodException` and caches nothing. A
      cached method taking another number of arguments throws
      `IllegalArgumentException`; a freshly found one never does for that
      reason. An invocation that throws an access or target exception
      answers `null`. */
  lemma InvokeSpec<V>(cache: map<string, MethodRef>, objClass: TypeDesc, functionName: string,
                      params: seq<Option<TypeDesc>>, invoke: MethodRef -> Invocation<V>)
    requires ArgClasses(params).Ok?
    ensures var key := CacheKey(objClass.name, functionName, ArgClasses(params).value);
      var (r, after) := Invoke(cache, objClass, functionName, params, invoke);
      && (key in cache ==> after == cache)
      && (key !in cache && MethodSig(functionName, ArgClasses(params).value) !in objClass.methods ==>
            after == cache && r == Err(NoSuchMethod([functionName])))
      && (key !in cache && MethodSig(functionName, ArgClasses(params).value) in objClass.methods ==>
            after == cache[key := MethodRef(objClass.name, MethodSig(functionName, ArgClasses(params).value))] &&
            after[key].sig.name == functionName && after[key].sig.params == ArgClasses(params).value)
      && (r == Err(IllegalArgument(functionName)) <==>
            key in after && (|after[key].sig.params| != |params| || invoke(after[key]).IllegalArgumentThrown?))
      && (key in cache && |cache[key].sig.params| != |params| ==> r == Err(IllegalArgument(functionName)))
      && (r.Ok? ==> key in after && |after[key].sig.params| == |params|
                                 && (invoke(after[key]).Returned? ==> r.value == invoke(after[key]).value)
                                 && (!invoke(after[key]).Returned? ==> r.value.None? && !invoke(after[key]).IllegalArgumentThrown?))
      && (r.Err? ==> r.error == NoSuchMethod([functionName]) || r.error == IllegalArgument(functionName))
  {
    ArgClassesSpec(params);
  }

  /** The merged key of `CacheKeyMergesArguments` in use: once the
      two-argument method `m(a.B, c.D)` is cached, a call with one argument
      of class `a.Bc.D` reuses it and `Method.invoke` throws
      `IllegalArgumentException`, which `invokeMethod` does not catch. */
  lemma MergedKeyThrows<V>(invoke: MethodRef -> Invocation<V>)
    ensures var c := TypeDesc("C", "C", None, [], {MethodSig("m", ["a.B", "c.D"])});
      var two := Invoke(map[], c, "m", [Some(TypeDesc("a.B", "B", None, [], {})), Some(TypeDesc("c.D", "D", None, [], {}))], invoke);
      var one := Invoke(two.1, c, "m", [Some(TypeDesc("a.Bc.D", "D", None, [], {}))], invoke);
      && two.1 == map[CacheKey("C", "m", ["a.B", "c.D"]) := MethodRef("C", MethodSig("m", ["a.B", "c.D"]))]
      && one == (Err(IllegalArgument("m")), two.1)
  {
    var b, d, bd := TypeDesc("a.B", "B", None, [], {}), TypeDesc("c.D", "D", None, [], {}), TypeDesc("a.Bc.D", "D", None, [], {});
    var two, one := [Some(b), Some(d)], [Some(bd)];
    ArgClassesSpec(two);
    ArgClassesSpec(one);
    assert two[0].Some? && two[1].Some? && one[0].Some?;
    assert ArgClasses(two).value == ["a.B", "c.D"];
    assert ArgClasses(one).value == ["a.Bc.D"];
    CacheKeyMergesArguments();
  }

  // ---------------------------------------------------------------------------
  // getFieldValue / setFieldValue

  /** A Java object as `getValueByInvoke` sees it: `null`, a `Map` with its
      entries, or another object with its class and what its getters
      return; `text` is its `toString()`. */
  datatype Obj = Null | MapObj(entries: map<string, Obj>, text: string) | Bean(clazz: TypeDesc, getters: map<string, Obj>, text: string)

  /** `String.valueOf`-like rendering used at the end of the walk: `""` for
      `null`, else `toString()`. */
  function ToText(o: Obj): string {
    if o.Null? then "" else o.text
  }

  /** What the getter `getter` returns on `o`; a getter that is not listed
      returns `null`. */
  function GetterResult(o: Obj, getter: string): Obj {
    if o.Bean? && getter in o.getters then o.getters[getter] else Null
  }

  /** `getFieldValue(fieldName, o, clazz)` from the cache `cache`: the
      getter name is derived first (an empty field name throws), then the
      class's MethodAccess is fetched and memoised, then the getter is
      invoked by name; ReflectASM throws `IllegalArgumentException` when
      the class has no such method. */
  function FieldValue(fieldName: string, o: Obj, clazz: TypeDesc, cache: map<string, MethodAccess>): (Result<Obj>, map<string, MethodAccess>)
  {
    match AccessorName("get", fieldName)
    case Err(e) => (Err(e), cache)
    case Ok(getter) =>
      var a := Access(cache, clazz);
      (if HasMethod(a, getter, 0) then Ok(GetterResult(o, getter)) else Err(IllegalArgument(getter)), Memo(cache, clazz))
  }

  /** The object a row is decoded into: its class and, per setter, the last
      argument it received. */
  datatype Pojo = Pojo(className: string, setters: map<string, string>)

  /** `setFieldValue(fieldValue, fieldName, o, clazz)` from the cache
      `cache`: a `null` field name throws, an empty one too; otherwise the
      setter is invoked by name with the string as its one argument, which
      ReflectASM casts to the setter's parameter type. */
  function FieldAssigned(fieldValue: string, fieldName: Option<string>, o: Pojo, clazz: TypeDesc,
                         cache: map<string, MethodAccess>): (Result<Pojo>, map<string, MethodAccess>)
  {
    if fieldName.None? then (Err(NullPointer), cache)
    else match AccessorName("set", fieldName.value)
      case Err(e) => (Err(e), cache)
      case Ok(setter) =>
        var a := Access(cache, clazz);
        (if !HasMethod(a, setter, 1) then Err(IllegalArgument(setter))
         else if !TakesString(a, setter) then Err(ClassCast)
         else Ok(o.(setters := o.setters[setter := fieldValue])), Memo(cache, clazz))
  }

  /** The accessors of a field: both calls fail on an empty field name and
      memoise the class; a set fails with `ClassCastException` when the
      setter's parameter cannot hold a `String`; a successful set records
      exactly the value under the setter `set` + capitalised name and
      leaves the other setters. */
  lemma FieldAccessorsSpec(fieldValue: string, fieldName: string, o: Obj, p: Pojo, clazz: TypeDesc, cache: map<string, MethodAccess>)
    ensures FieldValue(fieldName, o, clazz, cache).0.Err? <==>
      fieldName == "" || !HasMethod(Access(cache, clazz), AccessorName("get", fieldName).value, 0)
    ensures fieldName == "" ==> FieldValue(fieldName, o, clazz, cache) == (Err(StringIndexOutOfBounds), cache)
    ensures fieldName != "" ==> FieldValue(fieldName, o, clazz, cache).1 == Memo(cache, clazz)
    ensures var (r, after) := FieldAssigned(fieldValue, Some(fieldName), p, clazz, cache);
      fieldName != "" && HasMethod(Access(cache, clazz), AccessorName("set", fieldName).value, 1) ==>
        (r == Err(ClassCast) <==> !TakesString(Access(cache, clazz), AccessorName("set", fieldName).value))
    ensures var (r, after) := FieldAssigned(fieldValue, Some(fieldName), p, clazz, cache);
      r.Ok? ==> (fieldName != "" &&
        HasMethod(Access(cache, clazz), "set" + [UpperAscii(fieldName[0])] + fieldName[1..], 1) &&
        TakesString(Access(cache, clazz), "set" + [UpperAscii(fieldName[0])] + fieldName[1..]) &&
        r.value.className == p.className &&
        r.value.setters.Keys == p.setters.Keys + {"set" + [UpperAscii(fieldName[0])] + fieldName[1..]} &&
        r.value.setters["set" + [UpperAscii(fieldName[0])] + fieldName[1..]] == fieldValue &&
        (forall s :: s in p.setters && s != "set" + [UpperAscii(fieldName[0])] + fieldName[1..] ==> r.value.setters[s] == p.setters[s]) &&
        after == Memo(cache, clazz))
  {
  }

  // ---------------------------------------------------------------------------
  // getMapping

  /** Every header is a key of the mapping. */
  predicate CoversHeaders(headLine: set<string>, m: LinkedMap<string, string>) {
    forall s :: s in headLine ==> s in m.values
  }

  /** `a` occurs before `b` in `s`. */
  ghost predicate Before(s: seq<string>, a: string, b: string) {
    exists i, j :: 0 <= i < j < |s| && s[i] == a && s[j] == b
  }

  lemma BeforeSnoc(s: seq<string>, x: string, a: string, b: string)
    ensures Before(s + [x], a, b) <==> Before(s, a, b) || (b == x && a in s)
  {
    var t := s + [x];
    if Before(t, a, b) {
      var i, j :| 0 <= i < j < |t| && t[i] == a && t[j] == b;
      if j < |s| {
        assert s[i] == a && s[j] == b;
      } else {
        assert s[i] == a;
      }
    }
    if Before(s, a, b) {
      var i, j :| 0 <= i < j < |s| && s[i] == a && s[j] == b;
      assert t[i] == a && t[j] == b;
    }
    if b == x && a in s {
      var i :| 0 <= i < |s| && s[i] == a;
      assert t[i] == a && t[|s|] == b;
    }
  }

  /** The entries the `forEach` of `getMapping` has copied after the first
      `n` keys of `m`: each header met is put with its value. */
  function ProjectPrefix(m: LinkedMap<string, string>, headLine: set<string>, n: nat): LinkedMap<string, string>
    requires m.Valid() && n <= |m.keys|
  {
    if n == 0 then Empty()
    else
      var p := ProjectPrefix(m, headLine, n - 1);
      var k := m.keys[n - 1];
      if k in headLine then p.Put(k, m.values[k]) else p
  }

  /** The copy after `n` keys is a well-formed map holding exactly the
      headers among those keys, with the mapping's values, in the mapping's
      order. */
  lemma ProjectPrefixSpec(m: LinkedMap<string, string>, headLine: set<string>, n: nat)
    requires m.Valid() && n <= |m.keys|
    ensures ProjectPrefix(m, headLine, n).Valid()
    ensures forall k :: k in ProjectPrefix(m, headLine, n).values <==> k in headLine && k in m.keys[..n]
    ensures forall k :: k in ProjectPrefix(m, headLine, n).values ==> ProjectPrefix(m, headLine, n).values[k] == m.values[k]
    ensures forall a, b :: Before(ProjectPrefix(m, headLine, n).keys, a, b) <==> a in headLine && b in headLine && Before(m.keys[..n], a, b)
  {
    ProjectPrefixEntries(m, headLine, n);
    ProjectPrefixOrder(m, headLine, n);
  }

  lemma {:induction false} ProjectPrefixEntries(m: LinkedMap<string, string>, headLine: set<string>, n: nat)
    requires m.Valid() && n <= |m.keys|
    ensures ProjectPrefix(m, headLine, n).Valid()
    ensures forall k :: k in ProjectPrefix(m, headLine, n).values <==> k in headLine && k in m.keys[..n]
    ensures forall k :: k in ProjectPrefix(m, headLine, n).values ==> ProjectPrefix(m, headLine, n).values[k] == m.values[k]
  {
    if n > 0 {
      ProjectPrefixEntries(m, headLine, n - 1);
      assert m.keys[..n] == m.keys[..n - 1] + [m.keys[n - 1]];
    }
  }

  lemma {:induction false} ProjectPrefixOrder(m: LinkedMap<string, string>, headLine: set<string>, n: nat)
    requires m.Valid() && n <= |m.keys|
    ensures forall a, b :: Before(ProjectPrefix(m, headLine, n).keys, a, b) <==> a in headLine && b in headLine && Before(m.keys[..n], a, b)
  {
    if n > 0 {
      ProjectPrefixOrder(m, headLine, n - 1);
      ProjectPrefixEntries(m, headLine, n - 1);
      var p := ProjectPrefix(m, headLine, n - 1);
      var k := m.keys[n - 1];
      assert m.keys[..n] == m.keys[..n - 1] + [k];
      assert k !in m.keys[..n - 1];
      assert k !in p.values;
      forall a, b
        ensures Before(ProjectPrefix(m, headLine, n).keys, a, b) <==> a in headLine && b in headLine && Before(m.keys[..n], a, b)
      {
        BeforeSnoc(m.keys[..n - 1], k, a, b);
        if k in headLine {
          BeforeSnoc(p.keys, k, a, b);
        }
      }
    }
  }

  /** The projection of a covering mapping onto the headers: exactly the
      headers as keys, the mapping's values, and the mapping's key order. */
  lemma ProjectSpec(m: LinkedMap<string, string>, headLine: set<string>)
    requires m.Valid() && CoversHeaders(headLine, m)
    ensures ProjectPrefix(m, headLine, |m.keys|).Valid()
    ensures ProjectPrefix(m, headLine, |m.keys|).values.Keys == headLine
    ensures forall k :: k in headLine ==> ProjectPrefix(m, headLine, |m.keys|).values[k] == m.values[k]
    ensures forall a, b :: Before(ProjectPrefix(m, headLine, |m.keys|).keys, a, b) <==> a in headLine && b in headLine && Before(m.keys, a, b)
  {
    ProjectPrefixSpec(m, headLine, |m.keys|);
    assert m.keys[..|m.keys|] == m.keys;
  }

  /** The `forEach` of `getMapping`: the headers' entries, in the mapping's
      key order. */
  method ProjectEntries(value: LinkedMap<string, string>, headLine: set<string>) returns (finalResult: LinkedMap<string, string>)
    requires value.Valid()
    ensures finalResult == ProjectPrefix(value, headLine, |value.keys|)
  {
    finalResult := Empty();
    for i := 0 to |value.keys|
      invariant finalResult == ProjectPrefix(value, headLine, i)
    {
      var k := value.keys[i];
      if k in headLine {
        finalResult := finalResult.Put(k, value.values[k]);
      }
    }
  }

  /** `getMapping`: the first mapping, in collection order, whose keys
      include every header, projected onto the headers; `null` when none
      does. */
  method GetMapping(headLine: set<string>, jsonMappings: seq<LinkedMap<string, string>>) returns (r: Option<LinkedMap<string, string>>)
    requires forall i :: 0 <= i < |jsonMappings| ==> jsonMappings[i].Valid()
    ensures r.None? <==> forall i :: 0 <= i < |jsonMappings| ==> !CoversHeaders(headLine, jsonMappings[i])
    ensures r.Some? ==> exists i :: (0 <= i < |jsonMappings| && CoversHeaders(headLine, jsonMappings[i]) &&
      (forall j :: 0 <= j < i ==> !CoversHeaders(headLine, jsonMappings[j])) &&
      r.value == ProjectPrefix(jsonMappings[i], headLine, |jsonMappings[i].keys|))
  {
    for n := 0 to |jsonMappings|
      invariant forall j :: 0 <= j < n ==> !CoversHeaders(headLine, jsonMappings[j])
    {
      var value := jsonMappings[n];
      var sign := true;
      var rest := headLine;
      while rest != {}
        invariant rest <= headLine
        invariant sign <==> forall s :: s in headLine && s !in rest ==> s in value.values
        decreases rest
      {
        var s :| s in rest;
        if !value.ContainsKey(s) {
          sign := false;
        }
        rest := rest - {s};
      }
      if sign {
        var finalResult := ProjectEntries(value, headLine);
        return Some(finalResult);
      }
    }
    return None;
  }

  // ---------------------------------------------------------------------------
  // getValueByInvoke

  /** One segment of the walk from a non-null object: a `Map` is stepped by
      `get`, another object by its getter. */
  function Step(v: Obj, s: string, cache: map<string, MethodAccess>): (Result<Obj>, map<string, MethodAccess>)
    requires !v.Null?
  {
    match v
    case MapObj(entries, _) => (Ok(if s in entries then entries[s] else Null), cache)
    case Bean(clazz, _, _) => FieldValue(s, v, clazz, cache)
  }

  /** The loop of `getValueByInvoke` over `segments` from `v`: a `null`
      before a segment ends the walk with `""`; an exception ends it; after
      the last segment the value is rendered. */
  function Walk(segments: seq<string>, v: Obj, cache: map<string, MethodAccess>): (Result<string>, map<string, MethodAccess>)
  {
    if segments == [] then (Ok(ToText(v)), cache)
    else if v.Null? then (Ok(""), cache)
    else
      var (next, after) := Step(v, segments[0], cache);
      if next.Err? then (Err(next.error), after)
      else Walk(segments[1..], next.value, after)
  }

  /** The walk only memoises: cached entries are kept and every new key
      is the name of a class it stepped through. */
  lemma {:induction false} WalkKeepsCache(segments: seq<string>, v: Obj, cache: map<string, MethodAccess>)
    ensures cache.Keys <= Walk(segments, v, cache).1.Keys
    ensures forall n :: n in cache ==> Walk(segments, v, cache).1[n] == cache[n]
  {
    if segments != [] && !v.Null? {
      var (next, after) := Step(v, segments[0], cache);
      if next.Ok? {
        WalkKeepsCache(segments[1..], next.value, after);
      }
    }
  }

  /** A null value, wherever the walk meets it, renders as `""`. */
  lemma {:induction false} WalkNullSafe(segments: seq<string>, cache: map<string, MethodAccess>)
    ensures Walk(segments, Null, cache) == (Ok(""), cache)
  {
  }

  /** `split(".")` cuts a key without line terminators at every character:
      a non-empty key gives no segment, so the answer is the value's own
      text (`""` for `null`) and no getter runs. The empty key gives one
      empty segment: a map answers its `""` entry, another object throws on
      the empty getter name. */
  lemma GetValueOfPlainKey(key: string, v: Obj, cache: map<string, MethodAccess>)
    requires NoLineTerminator(key)
    ensures key != "" ==> Walk(SplitDot(key), v, cache) == (Ok(ToText(v)), cache)
    ensures key == "" && v.Bean? ==> Walk(SplitDot(key), v, cache) == (Err(StringIndexOutOfBounds), cache)
    ensures key == "" && v.MapObj? ==>
      Walk(SplitDot(key), v, cache) == (Ok(if "" in v.entries then ToText(v.entries[""]) else ""), cache)
  {
    SplitDotOfPlainText(key);
    if key == "" {
      assert SplitDot(key) == [""];
      assert SplitDot(key)[1..] == [];
    }
  }

  /** `getValueByInvoke` with the key cut at literal dots (`split("\\.")`),
      as the path syntax `a.b` evidently intends: the walk follows the
      segments the key spells out. */
  function ValueByPath(key: string, value: Obj, cache: map<string, MethodAccess>): (r: (Result<string>, map<string, MethodAccess>))
    ensures '.' !in key ==> r == Walk([key], value, cache)
  {
    Walk(SplitLiteralDot(key), value, cache)
  }

  /** A key joined from non-empty, dot-free segments walks exactly those
      segments, one getter or map lookup per segment. */
  lemma ValueByPathWalksSegments(segments: seq<string>, value: Obj, cache: map<string, MethodAccess>)
    requires segments != []
    requires forall k :: 0 <= k < |segments| ==> segments[k] != "" && '.' !in segments[k]
    ensures ValueByPath(JoinDot(segments), value, cache) == Walk(segments, value, cache)
  {
    SplitLiteralDotOfJoin(segments);
  }

  /** The key `a.b` on a map whose `a` entry is a map holding `b`: as
      written the key yields no segment and the outer map's own text comes
      back; cut at literal dots it reaches the inner entry. */
  lemma PathKeyIgnored()
    ensures var inner := MapObj(map["b" := MapObj(map[], "x")], "inner");
            var outer := MapObj(map["a" := inner], "outer");
            Walk(SplitDot("a.b"), outer, map[]) == (Ok("outer"), map[]) &&
            ValueByPath("a.b", outer, map[]) == (Ok("x"), map[])
  {
    var inner := MapObj(map["b" := MapObj(map[], "x")], "inner");
    var outer := MapObj(map["a" := inner], "outer");
    assert NoLineTerminator("a.b") by {
      forall i | 0 <= i < |"a.b"|
        ensures !IsLineTerminator("a.b"[i])
      {
      }
    }
    GetValueOfPlainKey("a.b", outer, map[]);
    assert JoinDot(["a", "b"]) == "a.b";
    ValueByPathWalksSegments(["a", "b"], outer, map[]);
    assert Walk(["a", "b"], outer, map[]) == Walk(["b"], inner, map[]);
  }

  class ClassUtils {
    var methodAccessCache: map<string, MethodAccess>
    var methodCache: map<string, MethodRef>

    constructor()
      ensures methodAccessCache == map[] && methodCache == map[]
    {
      methodAccessCache := map[];
      methodCache := map[];
    }

    /** `getMethodAccess`: built and cached under the class name on first
        use, answered from the cache afterwards. */
    method GetMethodAccess(clazz: TypeDesc) returns (r: MethodAccess)
      modifies this
      ensures r == Access(old(methodAccessCache), clazz)
      ensures methodAccessCache == Memo(old(methodAccessCache), clazz)
      ensures methodCache == old(methodCache)
    {
      var name := clazz.name;
      if name !in methodAccessCache {
        methodAccessCache := methodAccessCache[name := MethodAccessOf(clazz)];
      }
      r := methodAccessCache[name];
    }

    /** The key loop of `invokeMethod`: the key is built argument by
        argument, and a `null` argument throws on `getClass()`. */
    method MethodKey(objClass: TypeDesc, functionName: string, params: seq<Option<TypeDesc>>)
      returns (classes: Result<seq<string>>, key: string)
      ensures classes == ArgClasses(params)
      ensures classes.Ok? ==> key == CacheKey(objClass.name, functionName, classes.value)
    {
      key := objClass.name + ":" + functionName + "!";
      var names: seq<string> := [];
      for i := 0 to |params|
        invariant ArgClasses(params[..i]) == Ok(names)
        invariant key == CacheKey(objClass.name, functionName, names)
      {
        ArgClassesStep(params, i);
        if params[i].None? {
          NullStaysNull(params, i + 1);
          return Err(NullPointer), key;
        }
        var aClass := params[i].value.name;
        ConcatSnoc(names, aClass);
        key := key + aClass;
        names := names + [aClass];
      }
      assert params[..|params|] == params;
      classes := Ok(names);
    }

    /** `invokeMethod(obj, functionName, params)`, with `objClass` the
        class of `obj` and `invoke` what invoking a method on `obj` with
        `params` does. */
    method InvokeMethod<V>(objClass: TypeDesc, functionName: string, params: seq<Option<TypeDesc>>, invoke: MethodRef -> Invocation<V>)
      returns (r: Result<Option<V>>)
      modifies this
      ensures (r, methodCache) == Invoke(old(methodCache), objClass, functionName, params, invoke)
      ensures methodAccessCache == old(methodAccessCache)
    {
      var classes, key := MethodKey(objClass, functionName, params);
      if classes.Err? {
        return Err(classes.error);
      }
      if key !in methodCache {
        var found := Lookup(objClass, functionName, classes.value);
        if found.Err? {
          return Err(found.error);
        }
        methodCache := methodCache[key := found.value];
      }
      var m := methodCache[key];
      if |m.sig.params| != |classes.value| {
        return Err(IllegalArgument(functionName));
      }
      var outcome := invoke(m);
      if outcome.IllegalArgumentThrown? {
        return Err(IllegalArgument(functionName));
      }
      r := Ok(if outcome.Returned? then outcome.value else None);
    }

    /** `getFieldValue`. */
    method GetFieldValue(fieldName: string, o: Obj, clazz: TypeDesc) returns (r: Result<Obj>)
      modifies this
      ensures (r, methodAccessCache) == FieldValue(fieldName, o, clazz, old(methodAccessCache))
      ensures methodCache == old(methodCache)
    {
      var methodName := AccessorName("get", fieldName);
      if methodName.Err? {
        return Err(methodName.error);
      }
      var access := GetMethodAccess(clazz);
      if !HasMethod(access, methodName.value, 0) {
        return Err(IllegalArgument(methodName.value));
      }
      r := Ok(GetterResult(o, methodName.value));
    }

    /** `setFieldValue`: the object `o` comes back with the setter's
        argument recorded. */
    method SetFieldValue(fieldValue: string, fieldName: Option<string>, o: Pojo, clazz: TypeDesc) returns (r: Result<Pojo>)
      modifies this
      ensures (r, methodAccessCache) == FieldAssigned(fieldValue, fieldName, o, clazz, old(methodAccessCache))
      ensures methodCache == old(methodCache)
    {
      if fieldName.None? {
        return Err(NullPointer);
      }
      var methodName := AccessorName("set", fieldName.value);
      if methodName.Err? {
        return Err(methodName.error);
      }
      var access := GetMethodAccess(clazz);
      if !HasMethod(access, methodName.value, 1) {
        return Err(IllegalArgument(methodName.value));
      }
      if !TakesString(access, methodName.value) {
        return Err(ClassCast);
      }
      r := Ok(o.(setters := o.setters[methodName.value := fieldValue]));
    }

    /** `getValueByInvoke(key, value)`: the segments of `key.split(".")`
        are walked from `value`. */
    method GetValueByInvoke(key: string, value: Obj) returns (r: Result<string>)
      modifies this
      ensures (r, methodAccessCache) == Walk(SplitDot(key), value, old(methodAccessCache))
      ensures methodCache == old(methodCache)
    {
      var segments := SplitDot(key);
      var result := value;
      for k := 0 to |segments|
        invariant Walk(segments[k..], result, methodAccessCache) == Walk(segments, value, old(methodAccessCache))
        invariant methodCache == old(methodCache)
      {
        assert segments[k..][1..] == segments[k + 1..];
        var s := segments[k];
        if result.Null? {
          return Ok("");
        }
        if result.MapObj? {
          result := if s in result.entries then result.entries[s] else Null;
        } else {
          var next := GetFieldValue(s, result, result.clazz);
          if next.Err? {
            return Err(next.error);
          }
          result := next.value;
        }
      }
      assert segments[|segments|..] == [];
      return Ok(ToText(result));
    }
  }

  lemma ArgClassesStep(params: seq<Option<TypeDesc>>, i: nat)
    requires i < |params|
    ensures ArgClasses(params[..i + 1]) ==
      match ArgClasses(params[..i])
      case Err(e) => Err(e)
      case Ok(front) => if params[i].None? then Err(NullPointer) else Ok(front + [params[i].value.name])
  {
    assert params[..i + 1][..i] == params[..i];
  }

  lemma ConcatSnoc(names: seq<string>, a: string)
    ensures Concat(names + [a]) == Concat(names) + a
  {
    assert (names + [a])[..|names|] == names;
  }

  /** A `null` argument makes every longer argument list fail too. */
  lemma {:induction false} NullStaysNull(params: seq<Option<TypeDesc>>, n: nat)
    requires n <= |params| && ArgClasses(params[..n]).Err?
    ensures ArgClasses(params) == Err(NullPointer)
  {
    ArgClassesSpec(params[..n]);
    ArgClassesSpec(params);
    var i :| 0 <= i < n && params[..n][i].None?;
    assert params[i].None?;
  }
}
