/** `ExcelFactory.SimpleExcelBean`: one page of a workbook decoded into a
    list of maps or objects. A sheet is abstract: its merged regions, the
    cell texts of its present rows by row index, and `getLastRowNum()`.
    The workbook is the list of its sheets. */
module Excel {
  import opened Wrappers
  import opened JavaStrings
  import opened LinkedMaps
  import opened Descriptors
  import opened Classes
  import opened Container

  /** A merged cell range, by its first and last row. */
  datatype Region = Region(firstRow: int, lastRow: int)

  /** A sheet: its merged regions, the texts of the cells of each present
      row, and the index of its last row. */
  datatype Sheet = Sheet(mergedRegions: seq<Region>, rows: map<int, seq<string>>, lastRowNum: int)

  /** What the checks of `getPageContent` settle before any data row is
      read: the sheet, the header row and its titles. */
  datatype Header = Header(sheet: Sheet, rowIndex: int, titles: seq<string>)

  /** The page check and `getSheetAt`: a page index at or past the sheet
      count throws `IndexOutOfSheetSizeException`; POI refuses a negative
      one. */
  function SheetAt(workbook: seq<Sheet>, pageIndex: int): (r: Result<Sheet>)
    ensures r.Ok? <==> 0 <= pageIndex < |workbook|
    ensures r.Ok? ==> r.value == workbook[pageIndex]
  {
    if |workbook| <= pageIndex then Err(IndexOutOfSheetSize(|workbook|, pageIndex))
    else if pageIndex < 0 then Err(SheetIndexOutOfRange(pageIndex))
    else Ok(workbook[pageIndex])
  }

  /** The header row of the simple layout: row 0 without merged regions,
      the row after a single merged title block that starts at row 0;
      several regions, or one starting lower, are refused. */
  function HeaderRow(sheet: Sheet): (r: Result<int>)
    ensures r.Err? <==> |sheet.mergedRegions| > 1 || (|sheet.mergedRegions| == 1 && sheet.mergedRegions[0].firstRow != 0)
  {
    var regionNum := |sheet.mergedRegions|;
    if regionNum > 1 then Err(UnsupportFormat(SeveralMergedRegions))
    else if regionNum == 1 then
      if sheet.mergedRegions[0].firstRow != 0 then Err(UnsupportFormat(MergedRegionNotAtTop))
      else Ok(sheet.mergedRegions[0].lastRow + 1)
    else Ok(0)
  }

  /** Row `row` lies inside one of the merged regions. */
  predicate Covered(sheet: Sheet, row: int) {
    exists g :: g in sheet.mergedRegions && g.firstRow <= row <= g.lastRow
  }

  /** Where the regions are proper ranges, an accepted layout puts the
      header on the first row no merged region covers. */
  lemma HeaderRowFirstUncovered(sheet: Sheet)
    requires forall g :: g in sheet.mergedRegions ==> 0 <= g.firstRow <= g.lastRow
    requires HeaderRow(sheet).Ok?
    ensures HeaderRow(sheet).value >= 0
    ensures !Covered(sheet, HeaderRow(sheet).value)
    ensures forall row :: 0 <= row < HeaderRow(sheet).value ==> Covered(sheet, row)
  {
    if |sheet.mergedRegions| == 1 {
      var g := sheet.mergedRegions[0];
      assert g in sheet.mergedRegions;
      assert forall h :: h in sheet.mergedRegions ==> h == g;
      forall row | 0 <= row < HeaderRow(sheet).value
        ensures Covered(sheet, row)
      {
        assert g.firstRow <= row <= g.lastRow;
      }
    }
  }

  /** `getRowDataInString` of the header row, checked: a missing or empty
      title row throws `NullPointerException`. */
  function Titles(sheet: Sheet, rowIndex: int): (r: Result<seq<string>>)
    ensures r.Ok? <==> rowIndex in sheet.rows && sheet.rows[rowIndex] != []
    ensures r.Err? ==> r.error == NullPointer
    ensures r.Ok? ==> r.value == sheet.rows[rowIndex]
  {
    if rowIndex !in sheet.rows || sheet.rows[rowIndex] == [] then Err(NullPointer) else Ok(sheet.rows[rowIndex])
  }

  /** The checks of `getPageContent`, in source order. */
  function Layout(workbook: seq<Sheet>, pageIndex: int): Result<Header> {
    var sheet :- SheetAt(workbook, pageIndex);
    var rowIndex :- HeaderRow(sheet);
    var titles :- Titles(sheet, rowIndex);
    Ok(Header(sheet, rowIndex, titles))
  }

  /** The outcomes of the checks: the page index comes first; then more
      than one merged region is refused whatever the rows hold; then a
      single region not at the top; then a missing or empty title row. An
      accepted page has its header at row 0 or right under the single
      region, and a non-empty title row. */
  lemma LayoutSpec(workbook: seq<Sheet>, pageIndex: int)
    ensures pageIndex >= |workbook| ==> Layout(workbook, pageIndex) == Err(IndexOutOfSheetSize(|workbook|, pageIndex))
    ensures 0 <= pageIndex < |workbook| && |workbook[pageIndex].mergedRegions| > 1 ==>
      Layout(workbook, pageIndex) == Err(UnsupportFormat(SeveralMergedRegions))
    ensures 0 <= pageIndex < |workbook| && |workbook[pageIndex].mergedRegions| == 1 && workbook[pageIndex].mergedRegions[0].firstRow != 0 ==>
      Layout(workbook, pageIndex) == Err(UnsupportFormat(MergedRegionNotAtTop))
    ensures Layout(workbook, pageIndex).Ok? ==>
      var h := Layout(workbook, pageIndex).value;
      && 0 <= pageIndex < |workbook| && h.sheet == workbook[pageIndex]
      && h.rowIndex == (if h.sheet.mergedRegions == [] then 0 else h.sheet.mergedRegions[0].lastRow + 1)
      && h.rowIndex in h.sheet.rows && h.titles == h.sheet.rows[h.rowIndex] && h.titles != []
    ensures 0 <= pageIndex < |workbook| && HeaderRow(workbook[pageIndex]).Ok? ==>
      (Layout(workbook, pageIndex).Err? <==> Titles(workbook[pageIndex], HeaderRow(workbook[pageIndex]).value).Err?)
  {
  }

  /** The number of data rows read: one per index from the header row up
      to, not including, `getLastRowNum()`. */
  function RowCount(rowIndex: int, lastRowNum: int): (r: nat)
    ensures r == 0 <==> lastRowNum <= rowIndex
    ensures r > 0 ==> r == lastRowNum - rowIndex
  {
    if lastRowNum > rowIndex then lastRowNum - rowIndex else 0
  }

  // ---------------------------------------------------------------------------
  // the inversion map

  /** `MsUtils.mapInversion` as read here: each field's display name
      mapped to its field key, in key order. */
  function InversionPrefix(mapping: Schema, n: nat): LinkedMap<string, string>
    requires n <= |mapping.keys|
  {
    if n == 0 then Empty()
    else
      var inv := InversionPrefix(mapping, n - 1);
      var key := mapping.keys[n - 1];
      if key in mapping.values then inv.Put(mapping.values[key].name, key) else inv
  }

  function Inversion(mapping: Schema): LinkedMap<string, string> {
    InversionPrefix(mapping, |mapping.keys|)
  }

  /** The inversion a page is decoded with: the schema's own, or, when
      that is empty, every title mapped to itself. */
  function PageInversion(mapping: Schema, titles: seq<string>): LinkedMap<string, string> {
    if Inversion(mapping).IsEmpty() then IdentityPrefix(titles, |titles|) else Inversion(mapping)
  }

  /** The titles mapped to themselves, put one by one. */
  function IdentityPrefix(titles: seq<string>, n: nat): LinkedMap<string, string>
    requires n <= |titles|
  {
    if n == 0 then Empty() else IdentityPrefix(titles, n - 1).Put(titles[n - 1], titles[n - 1])
  }

  /** The identity inversion maps exactly the titles, each to itself. */
  lemma {:induction false} IdentitySpec(titles: seq<string>, n: nat)
    requires n <= |titles|
    ensures IdentityPrefix(titles, n).Valid()
    ensures forall t :: t in IdentityPrefix(titles, n).values <==> t in titles[..n]
    ensures forall t :: t in IdentityPrefix(titles, n).values ==> IdentityPrefix(titles, n).values[t] == t
  {
    if n > 0 {
      IdentitySpec(titles, n - 1);
      assert titles[..n] == titles[..n - 1] + [titles[n - 1]];
    }
  }

  /** The inversion is a well-formed linked map, empty exactly when no
      field has been read. */
  lemma {:induction false} InversionValid(mapping: Schema, n: nat)
    requires mapping.Valid() && n <= |mapping.keys|
    ensures InversionPrefix(mapping, n).Valid()
    ensures InversionPrefix(mapping, n).IsEmpty() <==> n == 0
  {
    if n > 0 {
      InversionValid(mapping, n - 1);
      var key := mapping.keys[n - 1];
      assert key in mapping.values;
      var inv := InversionPrefix(mapping, n);
      assert mapping.values[key].name in inv.values;
    }
  }

  /** The inversion maps each display name to a field carrying that
      name, and holds the display name of every field read. */
  lemma {:induction false} InversionMaps(mapping: Schema, n: nat)
    requires mapping.Valid() && n <= |mapping.keys|
    ensures forall t :: t in InversionPrefix(mapping, n).values ==>
      InversionPrefix(mapping, n).values[t] in mapping.values && mapping.values[InversionPrefix(mapping, n).values[t]].name == t
    ensures forall i :: 0 <= i < n ==> mapping.values[mapping.keys[i]].name in InversionPrefix(mapping, n).values
  {
    if n > 0 {
      InversionMaps(mapping, n - 1);
      var prev := InversionPrefix(mapping, n - 1);
      var key := mapping.keys[n - 1];
      assert key in mapping.values;
      var name := mapping.values[key].name;
      assert InversionPrefix(mapping, n).values == prev.values[name := key];
    }
  }

  /** The `forEach` filling an empty inversion: each title maps to itself. */
  method InvertTitles(titles: seq<string>) returns (inversion: LinkedMap<string, string>)
    ensures inversion.Valid()
    ensures forall t :: t in inversion.values <==> t in titles
    ensures forall t :: t in inversion.values ==> inversion.values[t] == t
    ensures inversion == IdentityPrefix(titles, |titles|)
  {
    inversion := Empty();
    for i := 0 to |titles|
      invariant inversion == IdentityPrefix(titles, i)
    {
      inversion := inversion.Put(titles[i], titles[i]);
    }
    IdentitySpec(titles, |titles|);
    assert titles[..|titles|] == titles;
  }

  // ---------------------------------------------------------------------------
  // conversionMap

  /** The text of cell `i`; a cell the row does not have reads as `""`. */
  function CellText(row: seq<string>, i: nat): string {
    if i < |row| then row[i] else ""
  }

  /** The key `conversionMap` writes for column `i`: the inverted title,
      `null` when the inversion lacks it. */
  function ColumnKey(inversion: LinkedMap<string, string>, titles: seq<string>, i: nat): Option<string>
    requires i < |titles|
  {
    inversion.Get(titles[i])
  }

  /** The map after the first `n` columns. */
  function MapRowPrefix(row: seq<string>, inversion: LinkedMap<string, string>, titles: seq<string>, n: nat): map<Option<string>, string>
    requires n <= |titles|
  {
    if n == 0 then map[]
    else MapRowPrefix(row, inversion, titles, n - 1)[ColumnKey(inversion, titles, n - 1) := CellText(row, n - 1)]
  }

  /** The decoded map has one key per inverted title, and under each key
      the text of the LAST column with that key: a later column with the
      same inverted name overwrites an earlier one. */
  lemma {:induction false} MapRowSpec(row: seq<string>, inversion: LinkedMap<string, string>, titles: seq<string>, n: nat)
    requires n <= |titles|
    ensures forall key :: key in MapRowPrefix(row, inversion, titles, n) <==>
      exists i :: 0 <= i < n && ColumnKey(inversion, titles, i) == key
    ensures forall i :: 0 <= i < n && (forall j :: i < j < n ==> ColumnKey(inversion, titles, j) != ColumnKey(inversion, titles, i)) ==>
      MapRowPrefix(row, inversion, titles, n)[ColumnKey(inversion, titles, i)] == CellText(row, i)
  {
    MapRowKeys(row, inversion, titles, n);
    MapRowValues(row, inversion, titles, n);
  }

  lemma {:induction false} MapRowKeys(row: seq<string>, inversion: LinkedMap<string, string>, titles: seq<string>, n: nat)
    requires n <= |titles|
    ensures forall key :: key in MapRowPrefix(row, inversion, titles, n) <==>
      exists i :: 0 <= i < n && ColumnKey(inversion, titles, i) == key
  {
    if n > 0 {
      MapRowKeys(row, inversion, titles, n - 1);
      forall key
        ensures key in MapRowPrefix(row, inversion, titles, n) <==> exists i :: 0 <= i < n && ColumnKey(inversion, titles, i) == key
      {
        if key != ColumnKey(inversion, titles, n - 1) && exists i :: 0 <= i < n && ColumnKey(inversion, titles, i) == key {
          var i :| 0 <= i < n && ColumnKey(inversion, titles, i) == key;
          assert i < n - 1;
        }
      }
    }
  }

  lemma {:induction false} MapRowValues(row: seq<string>, inversion: LinkedMap<string, string>, titles: seq<string>, n: nat)
    requires n <= |titles|
    ensures forall i :: 0 <= i < n && (forall j :: i < j < n ==> ColumnKey(inversion, titles, j) != ColumnKey(inversion, titles, i)) ==>
      ColumnKey(inversion, titles, i) in MapRowPrefix(row, inversion, titles, n) &&
      MapRowPrefix(row, inversion, titles, n)[ColumnKey(inversion, titles, i)] == CellText(row, i)
  {
    if n > 0 {
      MapRowValues(row, inversion, titles, n - 1);
      forall i | 0 <= i < n && (forall j :: i < j < n ==> ColumnKey(inversion, titles, j) != ColumnKey(inversion, titles, i))
        ensures ColumnKey(inversion, titles, i) in MapRowPrefix(row, inversion, titles, n)
        ensures MapRowPrefix(row, inversion, titles, n)[ColumnKey(inversion, titles, i)] == CellText(row, i)
      {
        if i < n - 1 {
          assert ColumnKey(inversion, titles, n - 1) != ColumnKey(inversion, titles, i);
        }
      }
    }
  }

  // ---------------------------------------------------------------------------
  // conversionPojo

  const StringClassName: string := "java.lang.String"

  /** ReflectASM's `getIndex(name, String.class)` succeeds. */
  predicate HasConverter(a: MethodAccess, name: string) {
    MethodSig(name, [StringClassName]) in a.methods
  }

  /** Column `i` of `conversionPojo` on the object `pojo`, from the cache
      `cache`: the title's Information must exist and have a type; a
      `String` field is set to the text; any other field needs a converter
      `fromStringto` + simple name, else `fromStringto` + the name with
      every regex `.` removed, else `NoSuchMethodException` naming both.
      A converter that is found is invoked with the two arguments
      `String.class` and the text, and ReflectASM casts the first of them,
      a `Class`, to the converter's `String` parameter: the call throws
      `ClassCastException` and the field is never set. */
  function PojoColumn(row: seq<string>, inversion: LinkedMap<string, string>, titles: seq<string>, auto: Schema,
                      clazz: TypeDesc, conv: TypeDesc, i: nat, pojo: Pojo, cache: map<string, MethodAccess>)
    : (Result<Pojo>, map<string, MethodAccess>)
    requires i < |titles|
  {
    var value := CellText(row, i);
    var egTitle := inversion.Get(titles[i]);
    match auto.Get(titles[i])
    case None => (Err(NullPointer), cache)
    case Some(information) =>
      if information.fieldType.Some? && IsStringClass(information.fieldType.value) then
        FieldAssigned(value, egTitle, pojo, clazz, cache)
      else if information.fieldType.None? then (Err(NullPointer), cache)
      else
        var fieldType := information.fieldType.value;
        var simpleName := "fromStringto" + fieldType.simpleName;
        var methodAccess := Access(cache, conv);
        var flexName := "fromStringto" + ReplaceAllDot(fieldType.name);
        if !HasConverter(methodAccess, simpleName) && !HasConverter(methodAccess, flexName) then
          (Err(NoSuchMethod([simpleName, flexName])), Memo(cache, conv))
        else (Err(ClassCast), Memo(cache, conv))
  }

  /** The object after the first `n` columns, from a fresh instance. */
  function PojoPrefix(row: seq<string>, inversion: LinkedMap<string, string>, titles: seq<string>, auto: Schema,
                      clazz: TypeDesc, conv: TypeDesc, n: nat, cache: map<string, MethodAccess>)
    : (Result<Pojo>, map<string, MethodAccess>)
    requires n <= |titles|
  {
    if n == 0 then (Ok(Pojo(clazz.name, map[])), cache)
    else
      var (p, after) := PojoPrefix(row, inversion, titles, auto, clazz, conv, n - 1, cache);
      if p.Err? then (p, after)
      else PojoColumn(row, inversion, titles, auto, clazz, conv, n - 1, p.value, after)
  }

  /** `conversionPojo`: `newInstance` on a null class throws, otherwise
      every column is decoded in turn. */
  function PojoDecoded(row: seq<string>, inversion: LinkedMap<string, string>, titles: seq<string>, auto: Schema,
                       clazz: Option<TypeDesc>, conv: TypeDesc, cache: map<string, MethodAccess>)
    : (Result<Pojo>, map<string, MethodAccess>)
  {
    if clazz.None? then (Err(NullPointer), cache)
    else PojoPrefix(row, inversion, titles, auto, clazz.value, conv, |titles|, cache)
  }

  /** A title without Information throws `NullPointerException`, and so
      does a non-`String` field without a type. */
  lemma ColumnNeedsInformation(row: seq<string>, inversion: LinkedMap<string, string>, titles: seq<string>, auto: Schema,
                               clazz: TypeDesc, conv: TypeDesc, i: nat, pojo: Pojo, cache: map<string, MethodAccess>)
    requires i < |titles|
    ensures titles[i] !in auto.values ==> PojoColumn(row, inversion, titles, auto, clazz, conv, i, pojo, cache) == (Err(NullPointer), cache)
    ensures titles[i] in auto.values && auto.values[titles[i]].fieldType.None? ==>
      PojoColumn(row, inversion, titles, auto, clazz, conv, i, pojo, cache) == (Err(NullPointer), cache)
  {
  }

  /** A non-`String` field whose converter exists under neither name
      throws `NoSuchMethodException` naming both; for a class name without
      line terminators the second name is just `fromStringto`. */
  lemma ColumnNeedsConverter(row: seq<string>, inversion: LinkedMap<string, string>, titles: seq<string>, auto: Schema,
                             clazz: TypeDesc, conv: TypeDesc, i: nat, pojo: Pojo, cache: map<string, MethodAccess>, fieldType: TypeDesc)
    requires i < |titles| && titles[i] in auto.values && auto.values[titles[i]].fieldType == Some(fieldType)
    requires !IsStringClass(fieldType) && NoLineTerminator(fieldType.name)
    requires !HasConverter(Access(cache, conv), "fromStringto" + fieldType.simpleName)
    requires !HasConverter(Access(cache, conv), "fromStringto")
    ensures PojoColumn(row, inversion, titles, auto, clazz, conv, i, pojo, cache) ==
      (Err(NoSuchMethod(["fromStringto" + fieldType.simpleName, "fromStringto"])), Memo(cache, conv))
  {
    ReplaceAllDotOfPlainText(fieldType.name);
    assert "fromStringto" + ReplaceAllDot(fieldType.name) == "fromStringto";
  }

  /** A non-`String` field whose converter is found throws
      `ClassCastException`: no such column is ever decoded. */
  lemma ConverterCallThrows(row: seq<string>, inversion: LinkedMap<string, string>, titles: seq<string>, auto: Schema,
                            clazz: TypeDesc, conv: TypeDesc, i: nat, pojo: Pojo, cache: map<string, MethodAccess>, fieldType: TypeDesc)
    requires i < |titles| && titles[i] in auto.values && auto.values[titles[i]].fieldType == Some(fieldType)
    requires !IsStringClass(fieldType)
    requires HasConverter(Access(cache, conv), "fromStringto" + fieldType.simpleName)
    ensures PojoColumn(row, inversion, titles, auto, clazz, conv, i, pojo, cache) == (Err(ClassCast), Memo(cache, conv))
  {
  }

  /** A decoded column is a `String` field whose setter takes a `String`;
      it sets, through the setter of its inverted title, the raw text of
      the cell. */
  lemma ColumnSetsText(row: seq<string>, inversion: LinkedMap<string, string>, titles: seq<string>, auto: Schema,
                       clazz: TypeDesc, conv: TypeDesc, i: nat, pojo: Pojo, cache: map<string, MethodAccess>)
    requires i < |titles|
    requires PojoColumn(row, inversion, titles, auto, clazz, conv, i, pojo, cache).0.Ok?
    ensures titles[i] in auto.values && auto.values[titles[i]].fieldType.Some? &&
      IsStringClass(auto.values[titles[i]].fieldType.value)
    ensures titles[i] in inversion.values && AccessorName("set", inversion.values[titles[i]]).Ok?
    ensures TakesString(Access(cache, clazz), AccessorName("set", inversion.values[titles[i]]).value)
    ensures PojoColumn(row, inversion, titles, auto, clazz, conv, i, pojo, cache).0.value ==
      pojo.(setters := pojo.setters[AccessorName("set", inversion.values[titles[i]]).value := CellText(row, i)])
  {
  }

  /** `e` keeps every entry of `c`. */
  predicate Extends(e: map<string, MethodAccess>, c: map<string, MethodAccess>) {
    forall n :: n in c ==> n in e && e[n] == c[n]
  }

  lemma FieldAssignedReplay(fieldValue: string, fieldName: Option<string>, o: Pojo, clazz: TypeDesc,
                            c: map<string, MethodAccess>, e: map<string, MethodAccess>)
    requires Extends(e, FieldAssigned(fieldValue, fieldName, o, clazz, c).1)
    ensures FieldAssigned(fieldValue, fieldName, o, clazz, e) == (FieldAssigned(fieldValue, fieldName, o, clazz, c).0, e)
    ensures Extends(FieldAssigned(fieldValue, fieldName, o, clazz, c).1, c)
  {
  }

  /** A column decoded again from any cache that keeps what the first
      decoding left answers the same and adds nothing. */
  lemma ColumnReplay(row: seq<string>, inversion: LinkedMap<string, string>, titles: seq<string>, auto: Schema,
                     clazz: TypeDesc, conv: TypeDesc, i: nat, pojo: Pojo, c: map<string, MethodAccess>, e: map<string, MethodAccess>)
    requires i < |titles|
    requires Extends(e, PojoColumn(row, inversion, titles, auto, clazz, conv, i, pojo, c).1)
    ensures PojoColumn(row, inversion, titles, auto, clazz, conv, i, pojo, e) == (PojoColumn(row, inversion, titles, auto, clazz, conv, i, pojo, c).0, e)
    ensures Extends(PojoColumn(row, inversion, titles, auto, clazz, conv, i, pojo, c).1, c)
  {
    var value := CellText(row, i);
    var egTitle := inversion.Get(titles[i]);
    if titles[i] in auto.values {
      var information := auto.values[titles[i]];
      if information.fieldType.Some? && IsStringClass(information.fieldType.value) {
        FieldAssignedReplay(value, egTitle, pojo, clazz, c, e);
      } else if information.fieldType.Some? {
        var fieldType := information.fieldType.value;
        assert Access(e, conv) == Access(c, conv);
        assert Memo(e, conv) == e;
      }
    }
  }

  /** Decoding the same row again from the cache the first decoding left
      answers the same and changes nothing: every row of the loop decodes
      alike. */
  lemma {:induction false} PojoReplay(row: seq<string>, inversion: LinkedMap<string, string>, titles: seq<string>, auto: Schema,
                                      clazz: TypeDesc, conv: TypeDesc, n: nat, c: map<string, MethodAccess>, e: map<string, MethodAccess>)
    requires n <= |titles|
    requires Extends(e, PojoPrefix(row, inversion, titles, auto, clazz, conv, n, c).1)
    ensures PojoPrefix(row, inversion, titles, auto, clazz, conv, n, e) == (PojoPrefix(row, inversion, titles, auto, clazz, conv, n, c).0, e)
    ensures Extends(PojoPrefix(row, inversion, titles, auto, clazz, conv, n, c).1, c)
  {
    if n > 0 {
      var (p, after) := PojoPrefix(row, inversion, titles, auto, clazz, conv, n - 1, c);
      if p.Ok? {
        ColumnReplay(row, inversion, titles, auto, clazz, conv, n - 1, p.value, after, e);
      }
      PojoReplay(row, inversion, titles, auto, clazz, conv, n - 1, c, e);
    }
  }

  lemma {:induction false} PojoErrorSticks(row: seq<string>, inversion: LinkedMap<string, string>, titles: seq<string>, auto: Schema,
                                           clazz: TypeDesc, conv: TypeDesc, k: nat, n: nat, cache: map<string, MethodAccess>)
    requires k <= n <= |titles|
    requires PojoPrefix(row, inversion, titles, auto, clazz, conv, k, cache).0.Err?
    ensures PojoPrefix(row, inversion, titles, auto, clazz, conv, n, cache) == PojoPrefix(row, inversion, titles, auto, clazz, conv, k, cache)
  {
    if k < n {
      PojoErrorSticks(row, inversion, titles, auto, clazz, conv, k, n - 1, cache);
    }
  }

  // ---------------------------------------------------------------------------
  // the row loop

  /** A decoded row. */
  datatype Decoded = MapRow(entries: map<Option<string>, string>) | PojoRow(pojo: Pojo)

  predicate IsMap(clazz: Option<TypeDesc>) {
    clazz.Some? && IsMapClass(clazz.value)
  }

  /** The row loop of `getPageContent` over `count` indices: each
      iteration decodes `row`, the header row, again. */
  function Rows(row: seq<string>, count: nat, inversion: LinkedMap<string, string>, titles: seq<string>, auto: Schema,
                clazz: Option<TypeDesc>, conv: TypeDesc, cache: map<string, MethodAccess>)
    : (Result<seq<Decoded>>, map<string, MethodAccess>)
  {
    if count == 0 then (Ok([]), cache)
    else if IsMap(clazz) then (Ok(seq(count, _ => MapRow(MapRowPrefix(row, inversion, titles, |titles|)))), cache)
    else
      var (p, after) := PojoDecoded(row, inversion, titles, auto, clazz, conv, cache);
      if p.Err? then (Err(p.error), after) else (Ok(seq(count, _ => PojoRow(p.value))), after)
  }

  /** The rows of a page with header `header`, decoded with `mapping`:
      the row loop over the header row, with `PageInversion` of the
      schema and the titles. */
  function PageRows(header: Header, mapping: Schema, clazz: Option<TypeDesc>, conv: TypeDesc, cache: map<string, MethodAccess>)
    : (Result<seq<Decoded>>, map<string, MethodAccess>)
  {
    Rows(header.titles, RowCount(header.rowIndex, header.sheet.lastRowNum), PageInversion(mapping, header.titles), header.titles,
         mapping, clazz, conv, cache)
  }

  /** Every decoded object is an instance of the class asked for. */
  lemma {:induction false} PojoKeepsClass(row: seq<string>, inversion: LinkedMap<string, string>, titles: seq<string>, auto: Schema,
                                          clazz: TypeDesc, conv: TypeDesc, n: nat, cache: map<string, MethodAccess>)
    requires n <= |titles|
    ensures PojoPrefix(row, inversion, titles, auto, clazz, conv, n, cache).0.Ok? ==>
      PojoPrefix(row, inversion, titles, auto, clazz, conv, n, cache).0.value.className == clazz.name
  {
    if n > 0 {
      PojoKeepsClass(row, inversion, titles, auto, clazz, conv, n - 1, cache);
    }
  }

  // ---------------------------------------------------------------------------
  // the row loop with the data rows

  /** Row `i` of the sheet; `getRow` gives `null` for a row not present. */
  function RowAt(sheet: Sheet, i: int): Option<seq<string>> {
    if i in sheet.rows then Some(sheet.rows[i]) else None
  }

  /** The rows under the header, `rowIndex + 1` up to and including
      `getLastRowNum()`: one per iteration of the row loop. */
  function DataRows(sheet: Sheet, rowIndex: int): (r: seq<Option<seq<string>>>)
    ensures |r| == RowCount(rowIndex, sheet.lastRowNum)
    ensures forall k :: 0 <= k < |r| ==> r[k] == RowAt(sheet, rowIndex + 1 + k)
  {
    seq(RowCount(rowIndex, sheet.lastRowNum), k => RowAt(sheet, rowIndex + 1 + k))
  }

  /** The row loop as intended: iteration `k` decodes data row `k`, and a
      missing row throws `NullPointerException` on `getCell`. */
  function RowsIntended(rows: seq<Option<seq<string>>>, inversion: LinkedMap<string, string>, titles: seq<string>, auto: Schema,
                        clazz: Option<TypeDesc>, conv: TypeDesc, cache: map<string, MethodAccess>)
    : (Result<seq<Decoded>>, map<string, MethodAccess>)
  {
    if rows == [] then (Ok([]), cache)
    else
      var (front, before) := RowsIntended(rows[..|rows| - 1], inversion, titles, auto, clazz, conv, cache);
      if front.Err? then (front, before)
      else match rows[|rows| - 1]
        case None => (Err(NullPointer), before)
        case Some(row) =>
          if IsMap(clazz) then (Ok(front.value + [MapRow(MapRowPrefix(row, inversion, titles, |titles|))]), before)
          else
            var (p, after) := PojoDecoded(row, inversion, titles, auto, clazz, conv, before);
            if p.Err? then (Err(p.error), after) else (Ok(front.value + [PojoRow(p.value)]), after)
  }

  /** What the intended loop answers: one element per data row, all rows
      present; a map row holds the texts of ITS row under the inverted
      titles; an object row is an instance of the class decoded from its
      row. */
  lemma {:induction false} RowsIntendedSpec(rows: seq<Option<seq<string>>>, inversion: LinkedMap<string, string>, titles: seq<string>,
                                            auto: Schema, clazz: Option<TypeDesc>, conv: TypeDesc, cache: map<string, MethodAccess>)
    ensures var r := RowsIntended(rows, inversion, titles, auto, clazz, conv, cache).0;
      r.Ok? ==> |r.value| == |rows| && forall k :: 0 <= k < |rows| ==> rows[k].Some?
    ensures var r := RowsIntended(rows, inversion, titles, auto, clazz, conv, cache).0;
      r.Ok? && IsMap(clazz) ==> forall k :: 0 <= k < |rows| ==>
        r.value[k] == MapRow(MapRowPrefix(rows[k].value, inversion, titles, |titles|))
    ensures var r := RowsIntended(rows, inversion, titles, auto, clazz, conv, cache).0;
      r.Ok? && !IsMap(clazz) ==> forall k :: 0 <= k < |rows| ==>
        r.value[k].PojoRow? && clazz.Some? && r.value[k].pojo.className == clazz.value.name &&
        exists c :: PojoDecoded(rows[k].value, inversion, titles, auto, clazz, conv, c).0 == Ok(r.value[k].pojo)
  {
    if rows != [] {
      var front := rows[..|rows| - 1];
      RowsIntendedSpec(front, inversion, titles, auto, clazz, conv, cache);
      var (f, before) := RowsIntended(front, inversion, titles, auto, clazz, conv, cache);
      var r := RowsIntended(rows, inversion, titles, auto, clazz, conv, cache).0;
      if r.Ok? {
        assert forall k :: 0 <= k < |front| ==> front[k] == rows[k];
        if !IsMap(clazz) && clazz.Some? {
          var last := rows[|rows| - 1].value;
          PojoKeepsClass(last, inversion, titles, auto, clazz.value, conv, |titles|, before);
          assert PojoDecoded(last, inversion, titles, auto, clazz, conv, before).0 == Ok(r.value[|rows| - 1].pojo);
        }
      }
    }
  }

  /** As written, the row loop decodes the header row on every iteration:
      under a header `a` at row 0 and a data row `x` at row 1, the page
      reads as `{a=a}`, where decoding the data row gives `{a=x}`. */
  lemma HeaderRowDecodedAsData(auto: Schema, conv: TypeDesc, cache: map<string, MethodAccess>)
    ensures var sheet := Sheet([], map[0 := ["a"], 1 := ["x"]], 1);
      var inversion := IdentityPrefix(["a"], 1);
      && Layout([sheet], 0) == Ok(Header(sheet, 0, ["a"]))
      && Rows(["a"], RowCount(0, sheet.lastRowNum), inversion, ["a"], auto, Some(MapClass), conv, cache).0 ==
           Ok([MapRow(map[Some("a") := "a"])])
      && RowsIntended(DataRows(sheet, 0), inversion, ["a"], auto, Some(MapClass), conv, cache).0 ==
           Ok([MapRow(map[Some("a") := "x"])])
  {
    var sheet := Sheet([], map[0 := ["a"], 1 := ["x"]], 1);
    var inversion := IdentityPrefix(["a"], 1);
    assert inversion.Get("a") == Some("a");
    assert DataRows(sheet, 0) == [Some(["x"])];
    assert MapRowPrefix(["a"], inversion, ["a"], 1) == map[Some("a") := "a"];
    assert MapRowPrefix(["x"], inversion, ["a"], 1) == map[Some("a") := "x"];
    assert IsMap(Some(MapClass));
    var asWritten := Rows(["a"], 1, inversion, ["a"], auto, Some(MapClass), conv, cache).0;
    assert asWritten.value == [MapRow(map[Some("a") := "a"])] by {
      assert |asWritten.value| == 1 && asWritten.value[0] == MapRow(map[Some("a") := "a"]);
    }
    assert [Some(["x"])][..0] == [];
    assert RowsIntended([], inversion, ["a"], auto, Some(MapClass), conv, cache) == (Ok([]), cache);
    assert RowsIntended([Some(["x"])], inversion, ["a"], auto, Some(MapClass), conv, cache).0 == Ok([] + [MapRow(map[Some("a") := "x"])]);
    assert [] + [MapRow(map[Some("a") := "x"])] == [MapRow(map[Some("a") := "x"])];
  }

  class SimpleExcelBean {
    var isTuring: bool
    var isChangeClass: bool
    var clazz: Option<TypeDesc>
    const workbook: seq<Sheet>
    const msIoContainer: MsIoContainer
    const formatConversion: TypeDesc   // the class of the `IFormatConversion` bean
    const utils: ClassUtils            // the static caches of `ClassUtils`

    constructor(generateClass: Option<TypeDesc>, isTuring: bool, workbook: seq<Sheet>,
                msIoContainer: MsIoContainer, formatConversion: TypeDesc, utils: ClassUtils)
      ensures this.clazz == generateClass && this.isTuring == isTuring && !isChangeClass
      ensures this.workbook == workbook && this.msIoContainer == msIoContainer
      ensures this.formatConversion == formatConversion && this.utils == utils
    {
      this.clazz := generateClass;
      this.isTuring := isTuring;
      this.isChangeClass := false;
      this.workbook := workbook;
      this.msIoContainer := msIoContainer;
      this.formatConversion := formatConversion;
      this.utils := utils;
    }

    /** `getPageSize`. */
    function PageSize(): int {
      |workbook|
    }

    /** `conversionMap`: column by column, the inverted title is mapped to
        the cell's text. */
    method ConversionMap(row: seq<string>, inversion: LinkedMap<string, string>, titles: seq<string>) returns (result: map<Option<string>, string>)
      ensures result == MapRowPrefix(row, inversion, titles, |titles|)
    {
      result := map[];
      for i := 0 to |titles|
        invariant result == MapRowPrefix(row, inversion, titles, i)
      {
        var value := CellText(row, i);
        result := result[inversion.Get(titles[i]) := value];
      }
    }

    /** One column of `conversionPojo`. */
    method ConversionColumn(row: seq<string>, inversion: LinkedMap<string, string>, titles: seq<string>, auto: Schema,
                            clazz: TypeDesc, i: nat, obj: Pojo) returns (r: Result<Pojo>)
      requires i < |titles|
      modifies utils
      ensures (r, utils.methodAccessCache) == PojoColumn(row, inversion, titles, auto, clazz, formatConversion, i, obj, old(utils.methodAccessCache))
      ensures utils.methodCache == old(utils.methodCache)
    {
      var value := CellText(row, i);
      var title := titles[i];
      var egTitle := inversion.Get(title);
      var information := auto.Get(title);
      if information.None? {
        return Err(NullPointer);
      }
      if information.value.fieldType.Some? && IsStringClass(information.value.fieldType.value) {
        r := utils.SetFieldValue(value, egTitle, obj, clazz);
        return;
      }
      if information.value.fieldType.None? {
        return Err(NullPointer);
      }
      var fieldType := information.value.fieldType.value;
      var simpleName := "fromStringto" + fieldType.simpleName;
      var methodAccess := utils.GetMethodAccess(formatConversion);
      if !HasConverter(methodAccess, simpleName) {
        var flexName := "fromStringto" + ReplaceAllDot(fieldType.name);
        if !HasConverter(methodAccess, flexName) {
          return Err(NoSuchMethod([simpleName, flexName]));
        }
      }
      r := Err(ClassCast);
    }

    /** `conversionPojo`: a fresh instance, then every column in turn. */
    method ConversionPojo(row: seq<string>, inversion: LinkedMap<string, string>, titles: seq<string>, clazz: Option<TypeDesc>, auto: Schema)
      returns (r: Result<Pojo>)
      modifies utils
      ensures (r, utils.methodAccessCache) == PojoDecoded(row, inversion, titles, auto, clazz, formatConversion, old(utils.methodAccessCache))
      ensures utils.methodCache == old(utils.methodCache)
    {
      if clazz.None? {
        return Err(NullPointer);
      }
      var obj := Pojo(clazz.value.name, map[]);
      for i := 0 to |titles|
        invariant PojoPrefix(row, inversion, titles, auto, clazz.value, formatConversion, i, old(utils.methodAccessCache)) ==
          (Ok(obj), utils.methodAccessCache)
        invariant utils.methodCache == old(utils.methodCache)
      {
        var next := ConversionColumn(row, inversion, titles, auto, clazz.value, i, obj);
        if next.Err? {
          PojoErrorSticks(row, inversion, titles, auto, clazz.value, formatConversion, i + 1, |titles|, old(utils.methodAccessCache));
          return next;
        }
        obj := next.value;
      }
      return Ok(obj);
    }

    /** The row loop: one element per index in `[rowIndex, lastRowNum)`,
        each decoded from `row`, the header row. */
    method DecodeRows(row: seq<string>, rowIndex: int, lastRowNum: int, inversion: LinkedMap<string, string>,
                      titles: seq<string>, auto: Schema, clazz: Option<TypeDesc>) returns (r: Result<seq<Decoded>>)
      modifies utils
      ensures (r, utils.methodAccessCache) ==
        Rows(row, RowCount(rowIndex, lastRowNum), inversion, titles, auto, clazz, formatConversion, old(utils.methodAccessCache))
      ensures utils.methodCache == old(utils.methodCache)
    {
      var list: seq<Decoded> := [];
      var i := rowIndex;
      while i < lastRowNum
        invariant rowIndex <= i && (i > rowIndex ==> i <= lastRowNum)
        invariant utils.methodCache == old(utils.methodCache)
        invariant i == rowIndex ==> list == [] && utils.methodAccessCache == old(utils.methodAccessCache)
        invariant i > rowIndex ==>
          Rows(row, i - rowIndex, inversion, titles, auto, clazz, formatConversion, old(utils.methodAccessCache)) == (Ok(list), utils.methodAccessCache)
        decreases lastRowNum - i
      {
        ghost var before := utils.methodAccessCache;
        var element;
        if IsMap(clazz) {
          var entries := ConversionMap(row, inversion, titles);
          element := MapRow(entries);
        } else {
          var pojo := ConversionPojo(row, inversion, titles, clazz, auto);
          if i > rowIndex && clazz.Some? {
            PojoReplay(row, inversion, titles, auto, clazz.value, formatConversion, |titles|, old(utils.methodAccessCache), before);
          }
          if pojo.Err? {
            return Err(pojo.error);
          }
          element := PojoRow(pojo.value);
        }
        RowsSnoc(row, i - rowIndex, inversion, titles, auto, clazz, formatConversion, old(utils.methodAccessCache), list, element,
                 utils.methodAccessCache);
        list := list + [element];
        i := i + 1;
      }
      return Ok(list);
    }

    /** The checks of `getPageContent`, in source order. */
    method ReadHeader(pageIndex: int) returns (r: Result<Header>)
      ensures r == Layout(workbook, pageIndex)
    {
      if PageSize() <= pageIndex {
        return Err(IndexOutOfSheetSize(PageSize(), pageIndex));
      }
      if pageIndex < 0 {
        return Err(SheetIndexOutOfRange(pageIndex));
      }
      var sheetNow := workbook[pageIndex];
      var regionNum := |sheetNow.mergedRegions|;
      var rowIndex := 0;
      if regionNum > 1 {
        return Err(UnsupportFormat(SeveralMergedRegions));
      }
      if regionNum == 1 {
        var mergedRegion := sheetNow.mergedRegions[0];
        if mergedRegion.firstRow != 0 {
          return Err(UnsupportFormat(MergedRegionNotAtTop));
        }
        rowIndex := mergedRegion.lastRow + 1;
      }
      if rowIndex !in sheetNow.rows || sheetNow.rows[rowIndex] == [] {
        return Err(NullPointer);
      }
      return Ok(Header(sheetNow, rowIndex, sheetNow.rows[rowIndex]));
    }

    /** The mapping of the page: without a class (or with `isChangeClass`)
        the container's `match` picks an id, whose mapping and class are
        taken; otherwise the mapping of the given class. */
    method ResolveMapping(titles: seq<string>, isEg: bool) returns (mapping: Option<Schema>)
      requires msIoContainer.Valid()
      modifies this, msIoContainer
      ensures msIoContainer.Valid()
      ensures old(clazz).Some? && !old(isChangeClass) ==> clazz == old(clazz)
      ensures old(clazz).Some? && !old(isChangeClass) && old(clazz).value.operator.None? ==> mapping == Some(Empty())
      ensures old(clazz).Some? && !old(isChangeClass) && old(clazz).value.operator.Some? ==>
        mapping == msIoContainer.Visible(Some(old(clazz).value.operator.value.value))
      ensures old(clazz).None? || old(isChangeClass) ==>
        (msIoContainer.SearchedValid() && exists matched :: MatchedBy(matched, titles, isEg, mapping, clazz))
      ensures isTuring == old(isTuring) && isChangeClass == old(isChangeClass)
    {
      if clazz.None? || isChangeClass {
        mapping := MatchMapping(titles, isEg);
      } else {
        mapping := msIoContainer.GetByClass(clazz.value);
      }
    }

    /** The `match` branch of `getPageContent`: the id `match` picks, its
        schema from `get` and its class from `getClazz`. */
    method MatchMapping(titles: seq<string>, isEg: bool) returns (mapping: Option<Schema>)
      requires msIoContainer.Valid()
      modifies this, msIoContainer
      ensures msIoContainer.Valid()
      ensures msIoContainer.SearchedValid() && exists matched :: MatchedBy(matched, titles, isEg, mapping, clazz)
      ensures isTuring == old(isTuring) && isChangeClass == old(isChangeClass)
    {
      var matched := msIoContainer.Match(titles, isEg);
      mapping := msIoContainer.Get(matched);
      if msIoContainer.hotDeploySign && matched.Some? {
        msIoContainer.ReloadedTwice(old(msIoContainer.DocTables()), msIoContainer.mappingCache.Keys);
      }
      clazz := msIoContainer.GetClazz(matched);
      assert MatchedBy(matched, titles, isEg, mapping, clazz);
    }

    /** `matched` is what `match` picked among the ids whose searched schema
        covers the titles (`null` exactly when none does), `mapping` is what
        `get` gives for it and `clazz` its class. */
    ghost predicate MatchedBy(matched: Option<string>, titles: seq<string>, isEg: bool, mapping: Option<Schema>, clazz: Option<TypeDesc>)
      requires msIoContainer.SearchedValid()
      reads msIoContainer
    {
      Picked(matched, QualifiersOf(msIoContainer.Searched(), titles, isEg), msIoContainer.classCache.Keys) &&
      mapping == msIoContainer.Visible(matched) && clazz == msIoContainer.GetClazz(matched)
    }

    /** The end of `getPageContent` once the header and the schema are
        known: the inversion, filled from the titles when empty, then the
        row loop. */
    method DecodePage(header: Header, mapping: Schema, clazz: Option<TypeDesc>) returns (r: Result<seq<Decoded>>)
      modifies utils
      ensures (r, utils.methodAccessCache) == PageRows(header, mapping, clazz, formatConversion, old(utils.methodAccessCache))
      ensures utils.methodCache == old(utils.methodCache)
      ensures r.Ok? ==> |r.value| == RowCount(header.rowIndex, header.sheet.lastRowNum)
      ensures r.Ok? ==> forall j, k :: 0 <= j < |r.value| && 0 <= k < |r.value| ==> r.value[j] == r.value[k]
    {
      var inversion := Inversion(mapping);
      if inversion.IsEmpty() {
        inversion := InvertTitles(header.titles);
      }
      r := DecodeRows(header.titles, header.rowIndex, header.sheet.lastRowNum, inversion, header.titles, mapping, clazz);
      RowsSpec(header.titles, RowCount(header.rowIndex, header.sheet.lastRowNum), inversion, header.titles, mapping, clazz,
               formatConversion, old(utils.methodAccessCache));
    }

    /** `getPageContent(pageIndex)`, with `isEg` the flag `match` takes.
        The checks of `Layout` come first and, when one fails, nothing is
        read or changed; the class is looked up by `match` only when none
        was given (or `isChangeClass` is set); the answer has one element
        per index in `[rowIndex, getLastRowNum())`, all decoded from the
        header row and hence all equal. `mapping` is the schema the page
        was decoded with; a missing one throws `NullPointerException` in
        `mapInversion`. */
    method GetPageContent(pageIndex: int, isEg: bool) returns (r: Result<seq<Decoded>>, ghost mapping: Option<Schema>)
      requires msIoContainer.Valid()
      modifies this, msIoContainer, utils
      ensures msIoContainer.Valid()
      ensures Layout(workbook, pageIndex).Err? ==>
        r == Err(Layout(workbook, pageIndex).error) && clazz == old(clazz) &&
        unchanged(msIoContainer) && unchanged(utils)
      ensures old(clazz).Some? && !old(isChangeClass) ==> clazz == old(clazz)
      ensures r.Ok? ==> (Layout(workbook, pageIndex).Ok? &&
        |r.value| == RowCount(Layout(workbook, pageIndex).value.rowIndex, Layout(workbook, pageIndex).value.sheet.lastRowNum))
      ensures r.Ok? ==> forall j, k :: 0 <= j < |r.value| && 0 <= k < |r.value| ==> r.value[j] == r.value[k]
      ensures isTuring == old(isTuring) && isChangeClass == old(isChangeClass)
      ensures Layout(workbook, pageIndex).Ok? && old(clazz).Some? && !old(isChangeClass) ==>
        mapping == (if old(clazz).value.operator.None? then Some(Empty())
                    else msIoContainer.Visible(Some(old(clazz).value.operator.value.value)))
      ensures Layout(workbook, pageIndex).Ok? && (old(clazz).None? || old(isChangeClass)) ==>
        (msIoContainer.SearchedValid() && exists matched :: MatchedBy(matched, Layout(workbook, pageIndex).value.titles, isEg, mapping, clazz))
      ensures Layout(workbook, pageIndex).Ok? && mapping.None? ==> r == Err(NullPointer) && unchanged(utils)
      ensures Layout(workbook, pageIndex).Ok? && mapping.Some? ==>
        (r, utils.methodAccessCache) == PageRows(Layout(workbook, pageIndex).value, mapping.value, clazz, formatConversion, old(utils.methodAccessCache))
    {
      var header := ReadHeader(pageIndex);
      if header.Err? {
        return Err(header.error), None;
      }
      ghost var matchedFirst := old(clazz).None? || old(isChangeClass);
      var found := ResolveMapping(header.value.titles, isEg);
      mapping := found;
      ghost var matched: Option<string> := None;
      if matchedFirst {
        matched :| MatchedBy(matched, header.value.titles, isEg, found, clazz);
      }
      if found.None? {
        return Err(NullPointer), mapping;
      }
      r := DecodePage(header.value, found.value, clazz);
      assert matchedFirst ==> MatchedBy(matched, header.value.titles, isEg, found, clazz);
    }
  }

  /** One more row of the loop: once the loop has produced `list`, the
      row it decodes next is what `Rows` appends. */
  lemma RowsSnoc(row: seq<string>, count: nat, inversion: LinkedMap<string, string>, titles: seq<string>, auto: Schema,
                 clazz: Option<TypeDesc>, conv: TypeDesc, cache: map<string, MethodAccess>, list: seq<Decoded>, element: Decoded,
                 after: map<string, MethodAccess>)
    requires count > 0 ==> Rows(row, count, inversion, titles, auto, clazz, conv, cache) == (Ok(list), after)
    requires count == 0 ==> list == []
    requires IsMap(clazz) ==> element == MapRow(MapRowPrefix(row, inversion, titles, |titles|)) && after == cache
    requires !IsMap(clazz) ==> element.PojoRow? && PojoDecoded(row, inversion, titles, auto, clazz, conv, cache) == (Ok(element.pojo), after)
    ensures Rows(row, count + 1, inversion, titles, auto, clazz, conv, cache) == (Ok(list + [element]), after)
  {
    var r := Rows(row, count + 1, inversion, titles, auto, clazz, conv, cache);
    assert r.0.value == list + [element] by {
      assert |list| == count;
      forall j | 0 <= j < count + 1
        ensures r.0.value[j] == (list + [element])[j]
      {
      }
    }
  }

  /** An answer of the row loop has one element per row index, all of them
      equal: for a map page the header row's own map, for an object page an
      instance of the class asked for; an object page fails exactly when
      decoding the header row fails. */
  lemma RowsSpec(row: seq<string>, count: nat, inversion: LinkedMap<string, string>, titles: seq<string>, auto: Schema,
                 clazz: Option<TypeDesc>, conv: TypeDesc, cache: map<string, MethodAccess>)
    ensures var r := Rows(row, count, inversion, titles, auto, clazz, conv, cache).0;
      r.Ok? ==> |r.value| == count && forall j, k :: 0 <= j < count && 0 <= k < count ==> r.value[j] == r.value[k]
    ensures count > 0 && !IsMap(clazz) ==>
      Rows(row, count, inversion, titles, auto, clazz, conv, cache).0.Err? == PojoDecoded(row, inversion, titles, auto, clazz, conv, cache).0.Err?
    ensures var r := Rows(row, count, inversion, titles, auto, clazz, conv, cache).0;
      r.Ok? && IsMap(clazz) ==> forall j :: 0 <= j < count ==>
        (r.value[j].MapRow? &&
         forall key :: key in r.value[j].entries <==> exists i :: 0 <= i < |titles| && ColumnKey(inversion, titles, i) == key)
    ensures var r := Rows(row, count, inversion, titles, auto, clazz, conv, cache).0;
      count > 0 && r.Ok? && !IsMap(clazz) ==> clazz.Some? && forall j :: 0 <= j < count ==> r.value[j].PojoRow? && r.value[j].pojo.className == clazz.value.name
  {
    MapRowKeys(row, inversion, titles, |titles|);
    if clazz.Some? {
      PojoKeepsClass(row, inversion, titles, auto, clazz.value, conv, |titles|, cache);
    }
  }
}
