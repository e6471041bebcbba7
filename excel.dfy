/**
 * The spreadsheet reader ExcelRD of najapy/common/excel.py.
 *
 * A sheet is a rectangular table of cell texts whose first row is the header.
 * The reader is told a field dictionary, from field names used by the code
 * to the header texts that label them; it matches header cells to fields by
 * their stripped text and extracts the data rows through that matching.
 * Dictionaries that the source builds in insertion order are sequences of
 * pairs here, with distinct keys.
 */
module Excel {
  import opened Wrappers
  import opened Text
  import opened Py

  /** The `{"row_num", "col_num", "cell_data"}` record `get_all_datas` stores per cell. */
  datatype Cell = Cell(rowNum: nat, colNum: nat, cellData: string)

  /** At least the header row, and every row as wide as the header. */
  predicate Rectangular(sheet: seq<seq<string>>) {
    |sheet| >= 1 && forall i :: 0 <= i < |sheet| ==> |sheet[i]| == |sheet[0]|
  }

  /** The pairs of a dictionary: no key occurs twice. */
  predicate DistinctKeys(d: seq<(Value, string)>) {
    forall i, j :: 0 <= i < j < |d| ==> d[i].0 != d[j].0
  }

  predicate DistinctNames(d: seq<(Value, string)>) {
    forall i, j :: 0 <= i < j < |d| ==> d[i].1 != d[j].1
  }

  // ---------------------------------------------------------------- field_name_dict

  /** `{value: key for key, value in d.items()}`: a later pair wins on a shared value. */
  function Inverted(d: seq<(Value, string)>): (r: map<string, Value>)
    ensures forall name :: name in r <==> exists i :: 0 <= i < |d| && d[i].1 == name
  {
    if d == [] then map[]
    else
      var prefix := d[..|d| - 1];
      assert forall i :: 0 <= i < |prefix| ==> prefix[i] == d[i];
      Inverted(prefix)[d[|d| - 1].1 := d[|d| - 1].0]
  }

  /** With distinct header texts, the inverted dictionary sends each text back to its field. */
  lemma {:induction false} InvertedInverse(d: seq<(Value, string)>, i: nat)
    requires DistinctNames(d) && i < |d|
    ensures Inverted(d)[d[i].1] == d[i].0
  {
    if i < |d| - 1 {
      var prefix := d[..|d| - 1];
      assert DistinctNames(prefix) by {
        forall a, b | 0 <= a < b < |prefix| ensures prefix[a].1 != prefix[b].1 {
          assert prefix[a] == d[a] && prefix[b] == d[b];
        }
      }
      InvertedInverse(prefix, i);
      assert prefix[i] == d[i];
    }
  }

  // ---------------------------------------------------------------- header matching

  /** The stripped text of each header cell. */
  function Labels(header: seq<string>): (r: seq<string>)
    ensures |r| == |header|
  {
    seq(|header|, j requires 0 <= j < |header| => Strip(header[j]))
  }

  /** The last column labelled `name`. */
  function LastIndex(labels: seq<string>, name: string): (r: Option<nat>)
    ensures r.Some? ==> && r.value < |labels| && labels[r.value] == name
                        && forall j :: r.value < j < |labels| ==> labels[j] != name
    ensures r.None? ==> name !in labels
  {
    if labels == [] then None
    else if labels[|labels| - 1] == name then Some(|labels| - 1)
    else
      var prefix := labels[..|labels| - 1];
      assert labels == prefix + [labels[|labels| - 1]];
      LastIndex(prefix, name)
  }

  /** A field is matched: its name is a string and some header label is its stripped text. */
  predicate Matched(labels: seq<string>, p: (Value, string))
    ensures Matched(labels, p) <==> p.0.Str? && exists j :: 0 <= j < |labels| && labels[j] == Strip(p.1)
  {
    p.0.Str? && LastIndex(labels, Strip(p.1)).Some?
  }

  /**
   * `_get_fields_col_relation_by_field_dict` over the header's labels: each
   * string field whose stripped text labels some column, mapped to the last
   * such column.
   */
  function Relation(labels: seq<string>, fields: seq<(Value, string)>): (r: map<string, nat>)
    ensures forall f :: f in r ==> r[f] < |labels|
  {
    if fields == [] then map[]
    else
      var p := fields[|fields| - 1];
      var base := Relation(labels, fields[..|fields| - 1]);
      if Matched(labels, p) then base[p.0.s := LastIndex(labels, Strip(p.1)).value] else base
  }

  /**
   * A field is in the relation exactly when some pair of the dictionary
   * names it and is matched, and then it maps to the last column labelled
   * with that pair's stripped text.
   */
  lemma {:induction false} RelationEntries(labels: seq<string>, fields: seq<(Value, string)>, f: string)
    ensures f in Relation(labels, fields) <==>
              exists i :: 0 <= i < |fields| && fields[i].0 == Str(f) && Matched(labels, fields[i])
    ensures f in Relation(labels, fields) ==>
              exists i :: 0 <= i < |fields| && fields[i].0 == Str(f) &&
                          LastIndex(labels, Strip(fields[i].1)) == Some(Relation(labels, fields)[f])
  {
    if fields != [] {
      var prefix := fields[..|fields| - 1];
      var p := fields[|fields| - 1];
      assert forall i :: 0 <= i < |prefix| ==> prefix[i] == fields[i];
      RelationEntries(labels, prefix, f);
      if Matched(labels, p) && p.0 == Str(f) {
        assert fields[|fields| - 1].0 == Str(f) && Matched(labels, fields[|fields| - 1]);
      }
    }
  }

  /**
   * The inner loop of `_get_fields_col_relation_by_field_dict`: every column
   * labelled `name` is recorded for `field` in turn, so the last one stays.
   */
  method RecordMatches(relation: map<string, nat>, labels: seq<string>, field: string, name: string)
    returns (r: map<string, nat>)
    ensures LastIndex(labels, name).Some? ==> r == relation[field := LastIndex(labels, name).value]
    ensures LastIndex(labels, name).None? ==> r == relation
  {
    r := relation;
    for j := 0 to |labels|
      invariant LastIndex(labels[..j], name).Some? ==> r == relation[field := LastIndex(labels[..j], name).value]
      invariant LastIndex(labels[..j], name).None? ==> r == relation
    {
      assert labels[..j + 1] == labels[..j] + [labels[j]];
      if name == labels[j] {
        r := r[field := j];
      }
    }
    assert labels[..|labels|] == labels;
  }

  /** How many pairs are matched. */
  function MatchedCount(labels: seq<string>, fields: seq<(Value, string)>): (n: nat)
    ensures n <= |fields|
    ensures n == |fields| <==> forall i :: 0 <= i < |fields| ==> Matched(labels, fields[i])
  {
    if fields == [] then 0
    else
      var prefix := fields[..|fields| - 1];
      assert forall i :: 0 <= i < |prefix| ==> prefix[i] == fields[i];
      MatchedCount(labels, prefix) + (if Matched(labels, fields[|fields| - 1]) then 1 else 0)
  }

  /** With distinct keys the relation has one entry per matched field. */
  lemma {:induction false} RelationSize(labels: seq<string>, fields: seq<(Value, string)>)
    requires DistinctKeys(fields)
    ensures |Relation(labels, fields)| == MatchedCount(labels, fields)
  {
    if fields != [] {
      var prefix := fields[..|fields| - 1];
      var p := fields[|fields| - 1];
      assert forall i :: 0 <= i < |prefix| ==> prefix[i] == fields[i];
      assert DistinctKeys(prefix);
      RelationSize(labels, prefix);
      if Matched(labels, p) {
        RelationEntries(labels, prefix, p.0.s);
      }
    }
  }

  /** With distinct keys, the relation covers the dictionary exactly when every field is matched. */
  lemma RelationComplete(labels: seq<string>, fields: seq<(Value, string)>)
    requires DistinctKeys(fields)
    ensures |Relation(labels, fields)| == |fields| <==> forall i :: 0 <= i < |fields| ==> Matched(labels, fields[i])
  {
    RelationSize(labels, fields);
  }

  // ---------------------------------------------------------------- rows

  /** One data row read through the relation: each field mapped to the text of its column. */
  function RowMap(row: seq<string>, relation: map<string, nat>): (r: map<string, string>)
    requires forall f :: f in relation ==> relation[f] < |row|
    ensures r.Keys == relation.Keys
    ensures forall f :: f in r ==> r[f] == row[relation[f]]
  {
    map f | f in relation :: row[relation[f]]
  }

  /** The key `get_all_datas` gives column `j`: its header's field, rendered, or the column number. */
  function DataKey(names: map<string, Value>, header: seq<string>, j: nat): (k: string)
    requires j < |header|
    ensures header[j] in names ==> k == ToStr(names[header[j]])
    ensures header[j] !in names ==> k == IntToString(j)
  {
    if header[j] in names then ToStr(names[header[j]]) else IntToString(j)
  }

  /** A column without a field is keyed by text that reads back as its column number. */
  lemma DataKeyColumn(names: map<string, Value>, header: seq<string>, j: nat)
    requires j < |header| && header[j] !in names
    ensures ParseInt(DataKey(names, header, j)) == Some(j)
  {
    ParseIntToString(j);
  }

  /** The dictionary `get_all_datas` builds for row `i` over its first `width` columns: a later column wins. */
  function RowCells(names: map<string, Value>, header: seq<string>, row: seq<string>, i: nat, width: nat): (r: map<string, Cell>)
    requires width <= |header| && width <= |row|
    ensures forall key :: key in r ==> r[key].rowNum == i && r[key].colNum < width
  {
    if width == 0 then map[]
    else RowCells(names, header, row, i, width - 1)[DataKey(names, header, width - 1) := Cell(i, width - 1, row[width - 1])]
  }

  /** Every entry of a row's dictionary is the cell of a column whose key it is stored under. */
  lemma {:induction false} RowCellsSound(names: map<string, Value>, header: seq<string>, row: seq<string>,
                                         i: nat, width: nat, key: string)
    requires width <= |header| && width <= |row|
    requires key in RowCells(names, header, row, i, width)
    ensures var c := RowCells(names, header, row, i, width)[key];
            c.cellData == row[c.colNum] && DataKey(names, header, c.colNum) == key
  {
    if key != DataKey(names, header, width - 1) {
      RowCellsSound(names, header, row, i, width - 1, key);
    }
  }

  /** No column after `j` among the first `width` has the key of column `j`. */
  predicate LastWithKey(names: map<string, Value>, header: seq<string>, j: nat, width: nat)
    requires j < width <= |header|
  {
    forall k :: j < k < width ==> DataKey(names, header, k) != DataKey(names, header, j)
  }

  /**
   * Every column's key is in the row's dictionary, and it holds that
   * column's cell unless a later column has the same key.
   */
  lemma {:induction false} RowCellsEntry(names: map<string, Value>, header: seq<string>, row: seq<string>,
                                         i: nat, width: nat, j: nat)
    requires width <= |header| && width <= |row| && j < width
    ensures DataKey(names, header, j) in RowCells(names, header, row, i, width)
    ensures LastWithKey(names, header, j, width) ==>
              RowCells(names, header, row, i, width)[DataKey(names, header, j)] == Cell(i, j, row[j])
  {
    if j < width - 1 {
      RowCellsEntry(names, header, row, i, width - 1, j);
      var key := DataKey(names, header, j);
      var last := DataKey(names, header, width - 1);
      var prev := RowCells(names, header, row, i, width - 1);
      assert RowCells(names, header, row, i, width) == prev[last := Cell(i, width - 1, row[width - 1])];
      if LastWithKey(names, header, j, width) {
        assert last != key;
        assert LastWithKey(names, header, j, width - 1);
      }
    }
  }

  class ExcelReader {
    const sheet: seq<seq<string>>
    var fieldDict: Option<seq<(Value, string)>>   // `_field_dict`; None until set

    ghost predicate Valid()
      reads this
    {
      Rectangular(sheet) && (fieldDict.Some? ==> DistinctKeys(fieldDict.value))
    }

    /** Opening a sheet: its header is the first row. */
    constructor (sheet: seq<seq<string>>)
      requires Rectangular(sheet)
      ensures Valid() && this.sheet == sheet && fieldDict == None
    {
      this.sheet := sheet;
      fieldDict := None;
    }

    function Header(): seq<string>
      requires Rectangular(sheet)
    {
      sheet[0]
    }

    function ColNums(): nat
      requires Rectangular(sheet)
    {
      |sheet[0]|
    }

    /** The `field_dict` setter. */
    method SetFieldDict(value: Option<seq<(Value, string)>>)
      requires Valid()
      requires value.Some? ==> DistinctKeys(value.value)
      modifies this
      ensures Valid() && fieldDict == value
    {
      fieldDict := value;
    }

    /**
     * The `field_name_dict` property: None for a missing or empty dictionary,
     * otherwise the inverse dictionary, from header text to field.
     */
    function FieldNameDict(): (r: Option<map<string, Value>>)
      reads this
      ensures r.None? <==> fieldDict.None? || fieldDict.value == []
      ensures r.Some? ==> forall name :: name in r.value <==>
                exists i :: 0 <= i < |fieldDict.value| && fieldDict.value[i].1 == name
      ensures r.Some? && DistinctNames(fieldDict.value) ==>
                forall i :: 0 <= i < |fieldDict.value| ==> r.value[fieldDict.value[i].1] == fieldDict.value[i].0
    {
      if fieldDict.None? || fieldDict.value == [] then None
      else
        var d := fieldDict.value;
        assert DistinctNames(d) ==> forall i :: 0 <= i < |d| ==> Inverted(d)[d[i].1] == d[i].0 by {
          if DistinctNames(d) {
            forall i | 0 <= i < |d| ensures Inverted(d)[d[i].1] == d[i].0 {
              InvertedInverse(d, i);
            }
          }
        }
        Some(Inverted(d))
    }

    /** `_get_fields_col_relation_by_field_dict`; a missing dictionary raises AttributeError. */
    method FieldsColRelation() returns (r: Result<map<string, nat>>)
      requires Valid()
      ensures fieldDict.None? ==> r == Err(AttributeError)
      ensures fieldDict.Some? ==> r == Ok(Relation(Labels(Header()), fieldDict.value))
    {
      if fieldDict.None? {
        return Err(AttributeError);
      }
      var fields := fieldDict.value;
      var labels := Labels(sheet[0]);
      var relation: map<string, nat> := map[];
      for i := 0 to |fields|
        invariant relation == Relation(labels, fields[..i])
      {
        assert fields[..i + 1][..i] == fields[..i];
        var (field, fieldName) := fields[i];
        if !field.Str? {
          continue;
        }
        relation := RecordMatches(relation, labels, field.s, Strip(fieldName));
      }
      assert fields[..|fields|] == fields;
      r := Ok(relation);
    }

    /** The rows from `start` on, each read through `relation`. */
    function Rows(relation: map<string, nat>, start: nat): (rows: seq<map<string, string>>)
      requires Rectangular(sheet) && forall f :: f in relation ==> relation[f] < ColNums()
      reads this
      ensures |rows| == if start < |sheet| then |sheet| - start else 0
      ensures forall k :: 0 <= k < |rows| ==> rows[k].Keys == relation.Keys
      ensures forall k, f :: 0 <= k < |rows| && f in relation ==>
                relation[f] < |sheet[start + k]| && rows[k][f] == sheet[start + k][relation[f]]
    {
      var tail := if start < |sheet| then sheet[start..] else [];
      assert forall k :: 0 <= k < |tail| ==> tail[k] == sheet[start + k] && |tail[k]| == |sheet[0]|;
      assert ColNums() == |sheet[0]|;
      seq(|tail|, k requires 0 <= k < |tail| => RowMap(tail[k], relation))
    }

    /** `_get_values_by_fields(relation, start)`. */
    method GetValuesByFields(relation: map<string, nat>, start: nat) returns (rows: seq<map<string, string>>)
      requires Valid() && forall f :: f in relation ==> relation[f] < ColNums()
      ensures rows == Rows(relation, start)
    {
      rows := [];
      if start < |sheet| {
        for index := start to |sheet|
          invariant |rows| == index - start
          invariant forall k :: 0 <= k < |rows| ==> rows[k] == Rows(relation, start)[k]
        {
          assert |sheet[index]| == |sheet[0]|;
          rows := rows + [RowMap(sheet[index], relation)];
        }
      }
    }

    /**
     * `get_excel_data(start)`: None when a field of the dictionary is not a
     * string or matches no header cell; otherwise the rows from `start` on,
     * each field mapped to the text of its column.
     */
    method GetExcelData(start: nat) returns (r: Result<Option<seq<map<string, string>>>>)
      requires Valid()
      ensures fieldDict.None? ==> r == Err(AttributeError)
      ensures fieldDict.Some? ==> r.Ok?
      ensures fieldDict.Some? ==>
        (r.value.None? <==> exists i :: 0 <= i < |fieldDict.value| && !Matched(Labels(Header()), fieldDict.value[i]))
      ensures r.Ok? && r.value.Some? ==> r.value.value == Rows(Relation(Labels(Header()), fieldDict.value), start)
    {
      var relation := FieldsColRelation();
      if relation.Err? {
        return Err(relation.error);
      }
      RelationComplete(Labels(sheet[0]), fieldDict.value);
      if |relation.value| != |fieldDict.value| {
        return Ok(None);
      }
      var rows := GetValuesByFields(relation.value, start);
      r := Ok(Some(rows));
    }

    /** The names `get_all_datas` looks headers up in: `field_name_dict`, or none when it is None. */
    function KnownNames(): (names: map<string, Value>)
      reads this
      ensures FieldNameDict().Some? ==> names == FieldNameDict().value
      ensures FieldNameDict().None? ==> names == map[]
    {
      var d := FieldNameDict();
      if d.Some? then d.value else map[]
    }

    /**
     * One row of `get_all_datas()`: each column's cell under the key of its
     * header's field (or its column number), a later column winning. Looking
     * up a header without a field dictionary raises AttributeError.
     */
    method ReadRow(i: nat) returns (r: Result<map<string, Cell>>)
      requires Valid() && i < |sheet|
      ensures r.Err? <==> FieldNameDict().None? && ColNums() > 0
      ensures r.Err? ==> r.error == AttributeError
      ensures r.Ok? ==> r.value == RowCells(KnownNames(), Header(), sheet[i], i, ColNums())
    {
      var header := sheet[0];
      var width := |header|;
      var cells := sheet[i];
      assert |cells| == width;
      ghost var names := KnownNames();
      var sheetDict: map<string, Cell> := map[];
      for j := 0 to width
        invariant j > 0 ==> FieldNameDict().Some?
        invariant sheetDict == RowCells(names, header, cells, i, j)
      {
        var lookup := FieldNameDict();
        if lookup.None? {
          return Err(AttributeError);
        }
        sheetDict := sheetDict[DataKey(lookup.value, header, j) := Cell(i, j, cells[j])];
      }
      r := Ok(sheetDict);
    }

    /** `get_all_datas()`: `ReadRow` for every data row, in order. */
    method GetAllDatas() returns (r: Result<seq<map<string, Cell>>>)
      requires Valid()
      ensures r.Err? <==> FieldNameDict().None? && |sheet| > 1 && ColNums() > 0
      ensures r.Err? ==> r.error == AttributeError
      ensures r.Ok? ==> |r.value| == |sheet| - 1
      ensures r.Ok? ==> forall k :: 0 <= k < |r.value| ==>
                r.value[k] == RowCells(KnownNames(), Header(), sheet[k + 1], k + 1, ColNums())
    {
      ghost var names, header, width := KnownNames(), Header(), ColNums();
      var datas: seq<map<string, Cell>> := [];
      for i := 1 to |sheet|
        invariant |datas| == i - 1
        invariant width > 0 && i > 1 ==> FieldNameDict().Some?
        invariant forall k :: 0 <= k < |datas| ==> datas[k] == RowCells(names, header, sheet[k + 1], k + 1, width)
      {
        var row := ReadRow(i);
        if row.Err? {
          assert i == 1;
          return Err(row.error);
        }
        assert row.value == RowCells(names, header, sheet[i], i, width);
        datas := datas + [row.value];
      }
      r := Ok(datas);
    }
  }
}
