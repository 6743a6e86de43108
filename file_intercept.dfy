/** The upload filter `FileInterceptItem.filter`: an optional base-name
    pattern, an optional extension, an optional open size window and an
    optional custom verdict, checked in that order. `Pattern.matches` is
    the parameter `matches` (pattern, input); the custom filter is a total
    function of the file. */
module FileIntercept {
  import opened Wrappers
  import opened JavaStrings

  /** An uploaded file: `getName()` and `getSize()`. */
  datatype FileItem = FileItem(name: string, size: int)

  /** The configured fields; `None` is `null`. `orderNo` only orders the
      filters of a chain. */
  datatype FileInterceptItem = FileInterceptItem(
    regexName: Option<string>,
    fileType: Option<string>,
    fileMaxSize: Option<int>,
    fileMinSize: Option<int>,
    orderNo: int,
    customize: Option<FileItem -> bool>)

  /** `StringUtils.isEmpty`: `null` or `""`. */
  predicate IsEmpty(s: Option<string>) {
    s.None? || s.value == ""
  }

  /** `name.substring(0, name.lastIndexOf("."))`: the text before the last
      dot; without a dot `substring(0, -1)` throws. */
  function BaseName(name: string): (r: Result<string>)
    ensures r.Err? <==> '.' !in name
    ensures r.Err? ==> r.error == StringIndexOutOfBounds
    ensures r.Ok? ==> name == r.value + "." + Extension(name)
  {
    var dot := LastIndexOf(name, '.');
    if dot < 0 then Err(StringIndexOutOfBounds)
    else
      assert name == name[..dot] + "." + name[dot + 1..];
      Ok(name[..dot])
  }

  /** `name.substring(name.lastIndexOf(".") + 1)`: the text after the last
      dot, the whole name when there is none. */
  function Extension(name: string): (r: string)
    ensures '.' !in r
    ensures |r| <= |name| && r == name[|name| - |r|..]
    ensures '.' !in name ==> r == name
    ensures '.' in name ==> name[|name| - |r| - 1] == '.'
  {
    var dot := LastIndexOf(name, '.');
    assert forall j :: dot < j < |name| ==> name[j] != '.';
    name[dot + 1..]
  }

  /** The body of the name check: the base name must match the pattern;
      `Pattern.matches(null, ...)` throws. */
  function NameCheck(regexName: Option<string>, name: string, matches: (string, string) -> bool): (r: Result<bool>)
    ensures r.Err? <==> '.' !in name || regexName.None?
  {
    var base :- BaseName(name);
    if regexName.None? then Err(NullPointer) else Ok(matches(regexName.value, base))
  }

  /** The body of the type check: `fileType.equals(type)`, which throws on
      a null `fileType`. */
  function TypeCheck(fileType: Option<string>, name: string): (r: Result<bool>)
    ensures r.Err? <==> fileType.None?
    ensures r.Ok? ==> (r.value <==> fileType.value == Extension(name))
  {
    if fileType.None? then Err(NullPointer) else Ok(fileType.value == Extension(name))
  }

  /** Both size bounds hold: strictly below the maximum and strictly above
      the minimum, each only when set. */
  predicate InWindow(item: FileInterceptItem, size: int) {
    (item.fileMaxSize.Some? ==> size < item.fileMaxSize.value) &&
    (item.fileMinSize.Some? ==> size > item.fileMinSize.value)
  }

  /** The chain of checks, with the name and type checks run when
      `nameRuns` and `typeRuns` hold: name, type, maximum, minimum, then the
      custom filter's verdict, each rejection ending the chain. */
  function Checks(item: FileInterceptItem, file: FileItem, matches: (string, string) -> bool,
                  nameRuns: bool, typeRuns: bool): (r: Result<bool>)
  {
    var nameOk :- if nameRuns then NameCheck(item.regexName, file.name, matches) else Ok(true);
    if !nameOk then Ok(false)
    else
      var typeOk :- if typeRuns then TypeCheck(item.fileType, file.name) else Ok(true);
      if !typeOk then Ok(false)
      else if item.fileMaxSize.Some? && file.size >= item.fileMaxSize.value then Ok(false)
      else if item.fileMinSize.Some? && file.size <= item.fileMinSize.value then Ok(false)
      else match item.customize
        case Some(decide) => Ok(decide(file))
        case None => Ok(true)
  }

  /** The chain for any choice of the guards: it throws exactly when a
      check that runs throws before some earlier check rejected, and it
      accepts exactly when every check that runs passes, the size lies in
      the window and the custom filter, if any, accepts. */
  lemma ChecksSpec(item: FileInterceptItem, file: FileItem, matches: (string, string) -> bool, nameRuns: bool, typeRuns: bool)
    ensures var r := Checks(item, file, matches, nameRuns, typeRuns);
      r.Err? <==> (nameRuns && (item.regexName.None? || '.' !in file.name)) ||
                  ((nameRuns ==> NameCheck(item.regexName, file.name, matches) == Ok(true)) && typeRuns && item.fileType.None?)
    ensures var r := Checks(item, file, matches, nameRuns, typeRuns);
      r.Err? ==> r.error == (if nameRuns && '.' !in file.name then StringIndexOutOfBounds else NullPointer)
    ensures Checks(item, file, matches, nameRuns, typeRuns) == Ok(true) <==>
      (nameRuns ==> item.regexName.Some? && BaseName(file.name).Ok? && matches(item.regexName.value, BaseName(file.name).value)) &&
      (typeRuns ==> item.fileType.Some? && item.fileType.value == Extension(file.name)) &&
      InWindow(item, file.size) &&
      (item.customize.Some? ==> item.customize.value(file))
  {
  }

  /** `filter` as written: the name check runs only when `regexName` is
      empty and the type check only when `fileType` is empty. It throws
      exactly when the pattern is `null` or, with an empty pattern, the name
      has no dot, or when the type is `null` and no pattern check rejected
      first. It accepts exactly when an empty pattern matches the base
      name, an empty type equals the extension, the size lies strictly
      inside the window and the custom filter, if any, accepts. With both
      a pattern and a type configured and nothing else, every file is
      accepted. */
  function Filter(item: FileInterceptItem, file: FileItem, matches: (string, string) -> bool): (r: Result<bool>)
    ensures r.Err? <==> (item.regexName.None? || (item.regexName == Some("") && '.' !in file.name) ||
      (item.fileType.None? && (item.regexName == Some("") ==> BaseName(file.name).Ok? && matches("", BaseName(file.name).value))))
    ensures r == Ok(true) <==>
      (item.regexName.Some? && (item.regexName.value == "" ==> BaseName(file.name).Ok? && matches("", BaseName(file.name).value))) &&
      (item.fileType.Some? && (item.fileType.value == "" ==> Extension(file.name) == "")) &&
      InWindow(item, file.size) &&
      (item.customize.Some? ==> item.customize.value(file))
    ensures r == Ok(true) ==> InWindow(item, file.size)
    ensures (!IsEmpty(item.regexName) && !IsEmpty(item.fileType) && item.fileMaxSize.None? &&
             item.fileMinSize.None? && item.customize.None?) ==> r == Ok(true)
    ensures item.regexName.None? ==> r.Err?
    ensures item.regexName.None? && '.' !in file.name ==> r == Err(StringIndexOutOfBounds)
    ensures item.regexName.None? && '.' in file.name ==> r == Err(NullPointer)
  {
    ChecksSpec(item, file, matches, IsEmpty(item.regexName), IsEmpty(item.fileType));
    Checks(item, file, matches, IsEmpty(item.regexName), IsEmpty(item.fileType))
  }

  /** Whatever the guards, the custom filter decides only once every
      earlier check has passed: when its verdict is not the answer, some
      earlier check threw or rejected. */
  lemma {:induction false} CustomDecidesLast(item: FileInterceptItem, file: FileItem, matches: (string, string) -> bool,
                                             nameRuns: bool, typeRuns: bool)
    requires item.customize.Some?
    ensures var r := Checks(item, file, matches, nameRuns, typeRuns);
      r.Err? || r == Ok(false) || item.customize.value(file)
    ensures var r := Checks(item, file, matches, nameRuns, typeRuns);
      r.Ok? && r.value != item.customize.value(file) ==> r == Ok(false) && item.customize.value(file)
    ensures !InWindow(item, file.size) ==> Checks(item, file, matches, nameRuns, typeRuns) != Ok(true)
  {
  }

  /** With a pattern and the type `pdf` configured, `filter` skips both
      the name and the type check, so `a.xls` is accepted although its
      extension is not `pdf`. */
  lemma FilterSkipsConfiguredType()
    ensures Filter(FileInterceptItem(Some("a"), Some("pdf"), None, None, 0, None), FileItem("a.xls", 10), (p, s) => p == s) == Ok(true)
    ensures Extension("a.xls") != "pdf"
  {
    assert LastIndexOf("a.xls", '.') == 1;
  }

  /** An item configured with a type and a maximum size but no pattern
      throws on `a.xls`: the name check runs, on the null pattern. */
  lemma FilterThrowsOnDefaultPattern()
    ensures Filter(FileInterceptItem(None, Some("xls"), Some(100), None, 0, None), FileItem("a.xls", 10), (p, s) => p == s) == Err(NullPointer)
  {
    assert '.' in "a.xls" by { assert "a.xls"[1] == '.'; }
  }

  /** An item with a pattern but no type throws on `a.xls`: the name check
      is skipped and the type check runs, calling `equals` on the null
      type. */
  lemma FilterThrowsOnMissingType()
    ensures Filter(FileInterceptItem(Some("a"), None, None, None, 0, None), FileItem("a.xls", 10), (p, s) => p == s) == Err(NullPointer)
  {
  }

  /** `filter` with the guards the field comments describe: the name check
      runs when a pattern is configured, the type check when a type is. */
  function FilterIntended(item: FileInterceptItem, file: FileItem, matches: (string, string) -> bool): (r: Result<bool>)
    ensures r.Err? <==> !IsEmpty(item.regexName) && '.' !in file.name
  {
    Checks(item, file, matches, !IsEmpty(item.regexName), !IsEmpty(item.fileType))
  }

  /** What the corrected filter accepts: a file is accepted exactly when
      its base name matches the configured pattern, its extension equals
      the configured type, its size lies inside the window, and the custom
      filter, if any, accepts it. */
  lemma FilterIntendedSpec(item: FileInterceptItem, file: FileItem, matches: (string, string) -> bool)
    ensures FilterIntended(item, file, matches) == Ok(true) <==>
      (!IsEmpty(item.regexName) ==> BaseName(file.name).Ok? && matches(item.regexName.value, BaseName(file.name).value)) &&
      (!IsEmpty(item.fileType) ==> item.fileType.value == Extension(file.name)) &&
      InWindow(item, file.size) &&
      (item.customize.Some? ==> item.customize.value(file))
  {
  }
}
