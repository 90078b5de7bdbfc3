/** `ConfigTableWidget`: a table whose columns are described by a list of column
    configurations. Each row is added from a dictionary; every column turns the
    value under its key (or under a key of a nested dictionary) into a cell label. */
module Table {
  import opened Py
  import Utility

  /** One column's configuration: the `key` and `type` entries and the optional
      `subKey` and `subType` entries. */
  datatype ColInfo = ColInfo(key: string, colType: string, subKey: Option<string>, subType: Option<string>)

  /** The types for which `colType in ("int")` holds: `("int")` is the string
      "int", not a tuple, so `in` tests for a substring. */
  const IntSubstrings: set<string> := {"", "i", "n", "t", "in", "nt", "int"}

  /** The same for `colType in ("bool")`. */
  const BoolSubstrings: set<string> := {"", "b", "o", "l", "bo", "oo", "ol", "boo", "ool", "bool"}

  /** The strings `in ("int")` accepts are exactly the substrings of "int". */
  lemma SubstringsOfInt(x: string)
    ensures Contains("int", x) <==> x in IntSubstrings
  {
    if Contains("int", x) {
      SubstringOfIntListed(x);
    }
    if x in IntSubstrings {
      ListedSubstringOfInt(x);
    }
  }

  /** Each listed substring of "int" occurs in it. */
  lemma IntSubstringsOccur()
    ensures Contains("int", "") && Contains("int", "i") && Contains("int", "n") && Contains("int", "t")
    ensures Contains("int", "in") && Contains("int", "nt") && Contains("int", "int")
  {
    assert OccursAt("int", "", 0);
    assert OccursAt("int", "i", 0);
    assert OccursAt("int", "in", 0);
    assert OccursAt("int", "int", 0);
    assert OccursAt("int", "n", 1);
    assert OccursAt("int", "nt", 1);
    assert OccursAt("int", "t", 2);
  }

  lemma ListedSubstringOfInt(x: string)
    requires x in IntSubstrings
    ensures Contains("int", x)
  {
    IntSubstringsOccur();
  }

  lemma SubstringOfIntListed(x: string)
    requires Contains("int", x)
    ensures x in IntSubstrings
  {
    var h := "int";
    var i: nat :| OccursAt(h, x, i);
    assert forall k :: 0 <= k < |x| ==> x[k] == h[i + k];
    SpellOut(x);
    if i == 0 {
    } else if i == 1 {
    }
  }

  /** The strings `in ("bool")` accepts are exactly the substrings of "bool". */
  lemma SubstringsOfBool(x: string)
    ensures Contains("bool", x) <==> x in BoolSubstrings
  {
    if Contains("bool", x) {
      SubstringOfBoolListed(x);
    }
    if x in BoolSubstrings {
      ListedSubstringOfBool(x);
    }
  }

  /** Each listed substring of "bool" occurs in it. */
  lemma BoolSubstringsOccur()
    ensures Contains("bool", "") && Contains("bool", "b") && Contains("bool", "bo")
    ensures Contains("bool", "boo") && Contains("bool", "bool")
    ensures Contains("bool", "o") && Contains("bool", "oo") && Contains("bool", "ool")
    ensures Contains("bool", "ol") && Contains("bool", "l")
  {
    assert OccursAt("bool", "", 0);
    assert OccursAt("bool", "b", 0);
    assert OccursAt("bool", "bo", 0);
    assert OccursAt("bool", "boo", 0);
    assert OccursAt("bool", "bool", 0);
    assert OccursAt("bool", "o", 1);
    assert OccursAt("bool", "oo", 1);
    assert OccursAt("bool", "ool", 1);
    assert OccursAt("bool", "ol", 2);
    assert OccursAt("bool", "l", 3);
  }

  lemma ListedSubstringOfBool(x: string)
    requires x in BoolSubstrings
    ensures Contains("bool", x)
  {
    BoolSubstringsOccur();
  }

  lemma SubstringOfBoolListed(x: string)
    requires Contains("bool", x)
    ensures x in BoolSubstrings
  {
    var h := "bool";
    var i: nat :| OccursAt(h, x, i);
    assert forall k :: 0 <= k < |x| ==> x[k] == h[i + k];
    SpellOut(x);
    if i == 0 {
    } else if i == 1 {
    } else if i == 2 {
    }
  }

  /** A short string is the sequence of its characters. */
  lemma SpellOut(x: string)
    ensures |x| == 1 ==> x == [x[0]]
    ensures |x| == 2 ==> x == [x[0], x[1]]
    ensures |x| == 3 ==> x == [x[0], x[1], x[2]]
    ensures |x| == 4 ==> x == [x[0], x[1], x[2], x[3]]
  {
  }

  /** `_makeItemString(value, colType)`; a missing type is `None`. */
  function MakeItemString(value: Value, colType: Option<string>): (r: Result<Value>)
    // None gives "", whatever the type
    ensures value == PyNone ==> r == Ok(Str(""))
    // `None in ("int")` is a TypeError
    ensures (value != PyNone && colType.None?) ==> r == Err(TypeError)
    // "str" and "string" give the value itself
    ensures (value != PyNone && colType.Some? && colType.value in {"str", "string"}) ==> r == Ok(value)
    // every substring of "int" or "bool" gives `str(value)`
    ensures (value != PyNone && colType.Some? && colType.value !in {"str", "string"} &&
             colType.value in IntSubstrings + BoolSubstrings) ==> r == Ok(Str(Show(value)))
    // every other type gives ""
    ensures (value != PyNone && colType.Some? &&
             colType.value !in {"str", "string"} + IntSubstrings + BoolSubstrings) ==> r == Ok(Str(""))
  {
    if value == PyNone then Ok(Str(""))
    else if colType.None? then Err(TypeError)
    else if colType.value == "str" || colType.value == "string" then Ok(value)
    else
      SubstringsOfInt(colType.value);
      SubstringsOfBool(colType.value);
      if Contains("int", colType.value) then Ok(Str(Show(value)))
      else if Contains("bool", colType.value) then Ok(Str(Show(value)))
      else Ok(Str(""))
  }

  /** `[self._makeItemString(v, subType) for v in values]`. */
  function MakeItemStrings(values: seq<Value>, subType: Option<string>): (r: Result<seq<Value>>)
    ensures r.Ok? <==> forall i :: 0 <= i < |values| ==> MakeItemString(values[i], subType).Ok?
    ensures r.Ok? ==> |r.value| == |values|
    ensures r.Ok? ==> forall i :: 0 <= i < |values| ==> MakeItemString(values[i], subType) == Ok(r.value[i])
    ensures r.Err? ==> r.error == TypeError
  {
    if |values| == 0 then Ok([])
    else
      match MakeItemString(values[0], subType)
      case Err(e) => Err(e)
      case Ok(v) =>
        match MakeItemStrings(values[1..], subType)
        case Err(e) => Err(e)
        case Ok(rest) => Ok([v] + rest)
  }

  /** `", ".join(labels)` as a label. */
  function JoinLabels(labels: seq<Value>): (r: Result<Value>)
    ensures r.Ok? <==> forall i :: 0 <= i < |labels| ==> labels[i].Str?
    ensures r.Ok? ==> r.value == Str(Join(", ", Texts(labels).value))
    ensures r.Err? ==> r.error == TypeError
  {
    match JoinValues(", ", labels)
    case Ok(s) => Ok(Str(s))
    case Err(e) => Err(e)
  }

  /** `_setItemCore(colInfo, itemData)`: the label of one column for a row's data.
      What each kind of column gives is stated by the `SetItemCore...` lemmas
      below. */
  function SetItemCore(col: ColInfo, itemData: Value): (r: Result<Value>)
    // data without the column's key (or that is no dictionary) raises AttributeError
    ensures (!itemData.Dict? || Lookup(itemData.entries, col.key).None?) ==> r == Err(AttributeError)
    // a label is only computed from dictionary data, and only these errors occur
    ensures r.Ok? ==> itemData.Dict?
    ensures r.Err? ==> r.error in {AttributeError, TypeError, KeyError}
  {
    if !itemData.Dict? then Err(AttributeError)
    else
      match Lookup(itemData.entries, col.key)
      case None => Err(AttributeError)
      case Some(value) =>
        if col.colType == "dict" then
          if !value.Dict? || col.subKey.None? then Err(AttributeError)
          else
            match Lookup(value.entries, col.subKey.value)
            case None => Err(AttributeError)
            case Some(subValue) => MakeItemString(subValue, col.subType)
        else if col.colType == "list" && value.List? then
          if col.subType == Some("dict") then
            match Utility.MakeListByDictKey(col.subKey, value.elems)
            case Err(e) => Err(e)
            case Ok(labels) => JoinLabels(labels)
          else
            match MakeItemStrings(value.elems, col.subType)
            case Err(e) => Err(e)
            case Ok(labels) => JoinLabels(labels)
        else MakeItemString(value, Some(col.colType))
  }

  /** A "dict" column takes its label from the nested dictionary's value under the
      sub-key, converted by the sub-type; without a nested dictionary or a sub-key
      in it, AttributeError. */
  lemma SetItemCoreDict(col: ColInfo, itemData: Value, value: Value)
    requires itemData.Dict? && Lookup(itemData.entries, col.key) == Some(value) && col.colType == "dict"
    ensures (!value.Dict? || col.subKey.None? || Lookup(value.entries, col.subKey.value).None?) ==>
      SetItemCore(col, itemData) == Err(AttributeError)
    ensures (value.Dict? && col.subKey.Some? && Lookup(value.entries, col.subKey.value).Some?) ==>
      SetItemCore(col, itemData) == MakeItemString(Lookup(value.entries, col.subKey.value).value, col.subType)
  {
  }

  /** A "list" column whose value is no list gives ""; any other column that is
      neither "dict" nor "list" converts its value by the column type. */
  lemma SetItemCoreScalar(col: ColInfo, itemData: Value, value: Value)
    requires itemData.Dict? && Lookup(itemData.entries, col.key) == Some(value)
    ensures (col.colType == "list" && !value.List?) ==> SetItemCore(col, itemData) == Ok(Str(""))
    ensures (col.colType != "list" && col.colType != "dict") ==>
      SetItemCore(col, itemData) == MakeItemString(value, Some(col.colType))
  {
    if col.colType == "list" && !value.List? {
      assert !("list" in IntSubstrings + BoolSubstrings + {"str", "string"});
    }
  }

  /** A "list" column whose elements all convert to strings gives their ", " join. */
  lemma SetItemCoreList(col: ColInfo, itemData: Value, vs: seq<Value>)
    requires itemData.Dict? && Lookup(itemData.entries, col.key) == Some(List(vs))
    requires col.colType == "list" && col.subType != Some("dict")
    requires forall i :: 0 <= i < |vs| ==> MakeItemString(vs[i], col.subType).Ok?
    ensures var labels := MakeItemStrings(vs, col.subType).value;
      (forall i :: 0 <= i < |labels| ==> labels[i].Str?) ==>
        SetItemCore(col, itemData) == Ok(Str(Join(", ", Texts(labels).value)))
  {
  }

  /** A "list" column of dictionaries with sub-type "dict", each holding the
      sub-key, gives the ", " join of their values under it (when these are
      strings). */
  lemma SetItemCoreListOfDict(col: ColInfo, itemData: Value, vs: seq<Value>)
    requires itemData.Dict? && Lookup(itemData.entries, col.key) == Some(List(vs))
    requires col.colType == "list" && col.subType == Some("dict") && col.subKey.Some?
    requires |vs| > 0 && forall i :: 0 <= i < |vs| ==> Utility.HasKey(vs[i], col.subKey.value)
    ensures var subs := seq(|vs|, i requires 0 <= i < |vs| && Utility.HasKey(vs[i], col.subKey.value) => Lookup(vs[i].entries, col.subKey.value).value);
      (forall i :: 0 <= i < |subs| ==> subs[i].Str?) ==>
        SetItemCore(col, itemData) == Ok(Str(Join(", ", Texts(subs).value)))
  {
    var labels := Utility.MakeListByDictKey(col.subKey, vs).value;
    assert labels == seq(|vs|, i requires 0 <= i < |vs| && Utility.HasKey(vs[i], col.subKey.value) => Lookup(vs[i].entries, col.subKey.value).value);
  }

  /** The text `addItem` puts in a cell: the label, "" when computing it raised
      AttributeError; any other exception escapes. A label that is an integer or a
      boolean (a "str" column holding one) selects the item-type overload of the
      cell constructor, which makes an empty cell; any other label that is no
      string is refused with TypeError. */
  function CellLabel(col: ColInfo, itemData: Value): (r: Result<string>)
    ensures SetItemCore(col, itemData) == Err(AttributeError) ==> r == Ok("")
    ensures SetItemCore(col, itemData).Err? && SetItemCore(col, itemData).error != AttributeError ==>
      r == Err(SetItemCore(col, itemData).error)
    ensures SetItemCore(col, itemData).Ok? && SetItemCore(col, itemData).value.Str? ==>
      r == Ok(SetItemCore(col, itemData).value.s)
    ensures SetItemCore(col, itemData).Ok? && (SetItemCore(col, itemData).value.Int? || SetItemCore(col, itemData).value.Bool?) ==>
      r == Ok("")
    ensures SetItemCore(col, itemData).Ok? && !(SetItemCore(col, itemData).value.Str? || SetItemCore(col, itemData).value.Int? || SetItemCore(col, itemData).value.Bool?) ==>
      r == Err(TypeError)
    ensures r.Ok? && r.value != "" ==> SetItemCore(col, itemData) == Ok(Str(r.value))
    ensures r.Err? ==> r.error != AttributeError
  {
    match SetItemCore(col, itemData)
    case Err(AttributeError) => Ok("")
    case Err(e) => Err(e)
    case Ok(text) =>
      if text.Str? then Ok(text.s)
      else if text.Int? || text.Bool? then Ok("")
      else Err(TypeError)
  }

  /** The cell label of every column, in column order. */
  function Labels(config: seq<ColInfo>, itemData: Value): seq<Result<string>>
  {
    seq(|config|, c requires 0 <= c < |config| => CellLabel(config[c], itemData))
  }

  /** The first column from `from` on whose label is an escaping exception, or the
      number of columns. */
  function FirstErr(labels: seq<Result<string>>, from: nat): (k: nat)
    requires from <= |labels|
    ensures from <= k <= |labels|
    ensures forall c :: from <= c < k ==> labels[c].Ok?
    ensures k < |labels| ==> labels[k].Err?
    decreases |labels| - from
  {
    if from == |labels| then from
    else if labels[from].Err? then from
    else FirstErr(labels, from + 1)
  }

  /** A column whose label computes lies before the first failure when every
      column before it does. */
  lemma FirstErrPasses(labels: seq<Result<string>>, col: nat)
    requires col < |labels| && col <= FirstErr(labels, 0)
    requires labels[col].Ok?
    ensures col + 1 <= FirstErr(labels, 0)
  {
  }

  /** A failing column reached with every column before it computing is the first
      failure. */
  lemma FirstErrStops(labels: seq<Result<string>>, col: nat)
    requires col < |labels| && col <= FirstErr(labels, 0)
    requires labels[col].Err?
    ensures col == FirstErr(labels, 0)
  {
  }

  /** A row: its cells (None where there is no item) and the dictionary that all
      its items share. */
  datatype Row = Row(cells: seq<Option<string>>, data: Value)

  /** A row of `n` columns without items. */
  function EmptyRow(n: nat): (r: Row)
    ensures |r.cells| == n && forall c :: 0 <= c < n ==> r.cells[c].None?
  {
    Row(seq(n, _ => None), PyNone)
  }

  /** The label `_setItemCore` computes for each column, in column order. */
  function Computed(config: seq<ColInfo>, itemData: Value): seq<Result<Value>>
  {
    seq(|config|, c requires 0 <= c < |config| => SetItemCore(config[c], itemData))
  }

  /** One column `c` of `updateItemAt`, given the label `_setItemCore` computed for
      it: the row afterwards, whether an exception escaped, and whether the column
      was updated. */
  function UpdateCell(computed: Result<Value>, c: nat, row: Row, itemData: Value): (r: (Row, Outcome, bool))
    ensures |r.0.cells| == |row.cells|
  {
    match computed
    case Err(AttributeError) => (row, Pass, false)
    case Err(e) => (row, Fail(e), false)
    case Ok(text) =>
      if c >= |row.cells| || row.cells[c].None? then (row, Fail(AttributeError), false)  // `self.item(row, col)` is None
      else if !text.Str? then (row, Fail(TypeError), false)                    // `setText` refuses it
      else
        var written := row.(cells := row.cells[c := Some(text.s)]);
        // `itemData.update`; labels are computed from dictionary data only (`Computed`)
        if !written.data.Dict? || !itemData.Dict? then (written, Fail(AttributeError), false)
        else (written.(data := Dict(Update(row.data.entries, itemData.entries))), Pass, true)
  }

  /** `updateItemAt` from column `from` on, given each column's computed label: the
      row afterwards and the updated columns, or the exception that escaped. */
  function UpdateFrom(labels: seq<Result<Value>>, from: nat, row: Row, itemData: Value): (r: (Row, Result<seq<nat>>))
    requires from <= |labels|
    ensures |r.0.cells| == |row.cells|
    decreases |labels| - from
  {
    if from == |labels| then (row, Ok([]))
    else
      var (row1, outcome, updated) := UpdateCell(labels[from], from, row, itemData);
      if outcome.Fail? then (row1, Err(outcome.error))
      else
        var (row2, rest) := UpdateFrom(labels, from + 1, row1, itemData);
        (row2, if rest.Ok? && updated then Ok([from] + rest.value) else rest)
  }

  /** The updated columns found before `from`, followed by the result from `from` on. */
  function After(updated: seq<nat>, later: (Row, Result<seq<nat>>)): (Row, Result<seq<nat>>)
  {
    (later.0, if later.1.Ok? then Ok(updated + later.1.value) else later.1)
  }

  /** Columns found in two stretches. */
  lemma AfterAppend(updated: seq<nat>, col: nat, later: (Row, Result<seq<nat>>))
    ensures After(updated, After([col], later)) == After(updated + [col], later)
  {
    if later.1.Ok? {
      assert updated + ([col] + later.1.value) == (updated + [col]) + later.1.value;
    }
  }

  /** Nothing found before `from` leaves the result from `from` on as it is. */
  lemma AfterNothing(later: (Row, Result<seq<nat>>))
    ensures After([], later) == later
  {
    if later.1.Ok? {
      assert [] + later.1.value == later.1.value;
    }
  }

  /** One column of `updateItemAt` changes at most its own cell, to its label. */
  lemma UpdateCellChanges(computed: Result<Value>, c: nat, row: Row, itemData: Value)
    ensures var row' := UpdateCell(computed, c, row, itemData).0;
      forall d :: 0 <= d < |row.cells| && row'.cells[d] != row.cells[d] ==>
        d == c && row'.cells[d].Some? && computed == Ok(Str(row'.cells[d].value))
  {
  }

  /** A column of `updateItemAt` that passes with a computed label leaves that
      label in its cell, and is reported exactly then. */
  lemma UpdateCellPasses(computed: Result<Value>, c: nat, row: Row, itemData: Value)
    ensures var (row', outcome, updated) := UpdateCell(computed, c, row, itemData);
      outcome.Pass? ==>
        && (updated <==> computed.Ok?)
        && (computed.Ok? ==> c < |row'.cells| && row'.cells[c].Some? && computed == Ok(Str(row'.cells[c].value)))
  {
  }

  /** `updateItemAt` keeps the number of cells and the cells before `from`. */
  lemma {:induction false} UpdateFromKeepsShape(labels: seq<Result<Value>>, from: nat, row: Row, itemData: Value)
    requires from <= |labels|
    ensures |UpdateFrom(labels, from, row, itemData).0.cells| == |row.cells|
    ensures forall c :: 0 <= c < from && c < |row.cells| ==> UpdateFrom(labels, from, row, itemData).0.cells[c] == row.cells[c]
    decreases |labels| - from
  {
    if from < |labels| {
      var (row1, outcome, updated) := UpdateCell(labels[from], from, row, itemData);
      UpdateCellChanges(labels[from], from, row, itemData);
      if outcome.Pass? {
        UpdateFromKeepsShape(labels, from + 1, row1, itemData);
      }
    }
  }

  /** `updateItemAt` changes only cells whose label it computed, and gives each of
      them that label. */
  lemma {:induction false} UpdateFromChangesOnlyComputedCells(labels: seq<Result<Value>>, from: nat, row: Row, itemData: Value)
    requires from <= |labels| && |row.cells| == |labels|
    ensures var row' := UpdateFrom(labels, from, row, itemData).0;
      |row'.cells| == |row.cells| &&
      forall c :: 0 <= c < |labels| && row'.cells[c] != row.cells[c] ==>
        from <= c && row'.cells[c].Some? && labels[c] == Ok(Str(row'.cells[c].value))
    decreases |labels| - from
  {
    UpdateFromKeepsShape(labels, from, row, itemData);
    if from < |labels| {
      var (row1, outcome, updated) := UpdateCell(labels[from], from, row, itemData);
      UpdateCellChanges(labels[from], from, row, itemData);
      if outcome.Pass? {
        UpdateFromChangesOnlyComputedCells(labels, from + 1, row1, itemData);
        UpdateFromKeepsShape(labels, from + 1, row1, itemData);
      }
    }
  }

  /** A successful `updateItemAt` gives every column whose label it computed that
      label. */
  lemma {:induction false} UpdateFromSuccessCells(labels: seq<Result<Value>>, from: nat, row: Row, itemData: Value)
    requires from <= |labels| && |row.cells| == |labels|
    requires UpdateFrom(labels, from, row, itemData).1.Ok?
    ensures var row' := UpdateFrom(labels, from, row, itemData).0;
      forall c :: from <= c < |labels| && labels[c].Ok? ==>
        row'.cells[c].Some? && labels[c] == Ok(Str(row'.cells[c].value))
    decreases |labels| - from
  {
    if from < |labels| {
      var step := UpdateCell(labels[from], from, row, itemData);
      UpdateCellPasses(labels[from], from, row, itemData);
      UpdateFromSuccessCells(labels, from + 1, step.0, itemData);
      UpdateFromKeepsShape(labels, from + 1, step.0, itemData);
    }
  }

  /** A successful `updateItemAt` reports exactly the columns whose label it
      computed. */
  lemma {:induction false} UpdateFromSuccessColumns(labels: seq<Result<Value>>, from: nat, row: Row, itemData: Value)
    requires from <= |labels|
    requires UpdateFrom(labels, from, row, itemData).1.Ok?
    ensures var updated := UpdateFrom(labels, from, row, itemData).1.value;
      forall c :: c in updated <==> from <= c < |labels| && labels[c].Ok?
    decreases |labels| - from
  {
    if from < |labels| {
      var step := UpdateCell(labels[from], from, row, itemData);
      UpdateCellPasses(labels[from], from, row, itemData);
      UpdateFromSuccessColumns(labels, from + 1, step.0, itemData);
    }
  }

  /** `updateItemAt` merges `itemData` into the row's dictionary once some column
      is updated; when none is, the dictionary is unchanged. */
  lemma {:induction false} UpdateFromData(labels: seq<Result<Value>>, from: nat, row: Row, itemData: Value)
    requires from <= |labels|
    requires row.data.Dict? && itemData.Dict?
    requires UpdateFrom(labels, from, row, itemData).1.Ok?
    ensures var (row', updated) := UpdateFrom(labels, from, row, itemData);
      && (|updated.value| == 0 ==> row'.data == row.data)
      && (|updated.value| > 0 ==>
            row'.data.Dict? &&
            forall k :: Lookup(row'.data.entries, k) ==
              if Lookup(itemData.entries, k).Some? then Lookup(itemData.entries, k) else Lookup(row.data.entries, k))
    decreases |labels| - from
  {
    if from < |labels| {
      var (row1, _, _) := UpdateCell(labels[from], from, row, itemData);
      UpdateFromData(labels, from + 1, row1, itemData);
    }
  }

  /** `updateItemAt` reports its columns in ascending order, each at most once. */
  lemma {:induction false} UpdateFromAscending(labels: seq<Result<Value>>, from: nat, row: Row, itemData: Value)
    requires from <= |labels|
    requires UpdateFrom(labels, from, row, itemData).1.Ok?
    ensures var updated := UpdateFrom(labels, from, row, itemData).1.value;
      && (forall i, j :: 0 <= i < j < |updated| ==> updated[i] < updated[j])
      && (forall i :: 0 <= i < |updated| ==> from <= updated[i] < |labels|)
    decreases |labels| - from
  {
    if from < |labels| {
      var step := UpdateCell(labels[from], from, row, itemData);
      UpdateFromAscending(labels, from + 1, step.0, itemData);
    }
  }

  /** An update for which every column raises AttributeError changes nothing and
      reports no column. */
  lemma {:induction false} UpdateFromWithoutLabels(labels: seq<Result<Value>>, from: nat, row: Row, itemData: Value)
    requires from <= |labels|
    requires forall c :: from <= c < |labels| ==> labels[c] == Err(AttributeError)
    ensures UpdateFrom(labels, from, row, itemData) == (row, Ok([]))
    decreases |labels| - from
  {
    if from < |labels| {
      UpdateFromWithoutLabels(labels, from + 1, row, itemData);
    }
  }

  /** `sorted(rows)` of a set of row numbers below `bound`. */
  method SortedRows(rows: set<nat>, bound: nat) returns (result: seq<nat>)
    requires forall r :: r in rows ==> r < bound
    ensures forall i, j :: 0 <= i < j < |result| ==> result[i] < result[j]
    ensures forall r :: r in result <==> r in rows
  {
    result := [];
    for r := 0 to bound
      invariant forall i, j :: 0 <= i < j < |result| ==> result[i] < result[j]
      invariant forall i :: 0 <= i < |result| ==> result[i] < r
      invariant forall x :: x in result <==> x in rows && x < r
    {
      if r in rows {
        result := result + [r];
      }
    }
  }

  class ConfigTableWidget {
    /** `_config`, and the table's rows. */
    const config: seq<ColInfo>
    var rows: seq<Row>

    /** Every row has one cell slot per configured column. */
    ghost predicate Valid()
      reads this
    {
      forall r :: 0 <= r < |rows| ==> |rows[r].cells| == |config|
    }

    /** A new table with the given columns and no rows. */
    constructor (configuration: seq<ColInfo>)
      ensures Valid()
      ensures config == configuration && rows == []
    {
      config := configuration;
      rows := [];
    }

    /** `self.item(row, col)`: the cell's text, or None where there is no item. */
    function Item(row: int, col: int): (r: Option<string>)
      reads this
      ensures 0 <= row < |rows| && 0 <= col < |rows[row].cells| ==> r == rows[row].cells[col]
      ensures !(0 <= row < |rows| && 0 <= col < |rows[row].cells|) ==> r.None?
    {
      if 0 <= row < |rows| && 0 <= col < |rows[row].cells| then rows[row].cells[col] else None
    }

    /** Column configuration `item` matches the key and sub-key looked for: its key
        is the key, and its sub-key, if it has one, is the sub-key. */
    static predicate Matches(item: ColInfo, key: Option<string>, subKey: Option<string>)
    {
      key == Some(item.key) && (item.subKey.Some? ==> item.subKey == subKey)
    }

    /** `getHeaderSectionByKey(colInfo, key, subKey)`: a given column configuration
        supplies both the key and the sub-key. */
    method GetHeaderSectionByKey(colInfo: Option<ColInfo>, key: Option<string>, subKey: Option<string>)
      returns (r: Result<nat>)
      ensures (colInfo.None? && key.None? && subKey.None?) ==> r == Err(ValueError)
      ensures r.Ok? ==> r.value < |config|
      ensures colInfo.Some? ==> var k, sk := Some(colInfo.value.key), colInfo.value.subKey;
        (r.Ok? ==> Matches(config[r.value], k, sk) && forall j :: 0 <= j < r.value ==> !Matches(config[j], k, sk))
        && (r.Err? ==> r.error == AttributeError && forall j :: 0 <= j < |config| ==> !Matches(config[j], k, sk))
      ensures (colInfo.None? && (key.Some? || subKey.Some?)) ==>
        (r.Ok? ==> Matches(config[r.value], key, subKey) && forall j :: 0 <= j < r.value ==> !Matches(config[j], key, subKey))
        && (r.Err? ==> r.error == AttributeError && forall j :: 0 <= j < |config| ==> !Matches(config[j], key, subKey))
    {
      if key.None? && subKey.None? && colInfo.None? {
        return Err(ValueError);
      }
      var k, sk := key, subKey;
      if colInfo.Some? {
        k, sk := Some(colInfo.value.key), colInfo.value.subKey;
      }
      for i := 0 to |config|
        invariant forall j :: 0 <= j < i ==> !Matches(config[j], k, sk)
      {
        var item := config[i];
        if Some(item.key) == k {
          if item.subKey.Some? {
            if item.subKey == sk {
              return Ok(i);
            }
          } else {
            return Ok(i);
          }
        }
      }
      return Err(AttributeError);
    }

    /** `addItem(itemData)`: appends a row whose every cell shares `itemData`; each
        cell gets its column's label, or "" when computing it raised AttributeError.
        Another exception escapes and leaves the new row without items from that
        column on. */
    method AddItem(itemData: Value) returns (outcome: Outcome)
      requires Valid()
      modifies this
      ensures Valid()
      ensures |rows| == |old(rows)| + 1 && rows[..|old(rows)|] == old(rows)
      ensures rows[|old(rows)|].data == itemData
      ensures var labels := Labels(config, itemData); var k := FirstErr(labels, 0);
        && (forall c :: 0 <= c < k ==> rows[|old(rows)|].cells[c] == Some(labels[c].value))
        && (forall c :: k <= c < |config| ==> rows[|old(rows)|].cells[c] == None)
        && outcome == if k == |config| then Pass else Fail(labels[k].error)
    {
      // the new row's cells, written back to the table whichever way the loop ends
      var cells: seq<Option<string>> := seq(|config|, _ => None);
      outcome := Pass;
      ghost var labels := Labels(config, itemData);
      var col := 0;
      while col < |config|
        invariant col <= |config| && |cells| == |config| && rows == old(rows) && outcome == Pass
        invariant col <= FirstErr(labels, 0)
        invariant forall c :: 0 <= c < col ==> cells[c] == Some(labels[c].value)
        invariant forall c :: col <= c < |config| ==> cells[c] == None
      {
        var computed := SetItemCore(config[col], itemData);
        assert labels[col] == CellLabel(config[col], itemData);
        if computed.Err? && computed.error != AttributeError {
          FirstErrStops(labels, col);
          outcome := Fail(computed.error);
          break;
        } else if computed.Ok? && !(computed.value.Str? || computed.value.Int? || computed.value.Bool?) {
          // the cell constructor refuses the label
          FirstErrStops(labels, col);
          outcome := Fail(TypeError);
          break;
        }
        // an integer or boolean label makes an empty cell
        var text := if computed.Ok? && computed.value.Str? then computed.value.s else "";
        FirstErrPasses(labels, col);
        cells := cells[col := Some(text)];
        col := col + 1;
      }
      rows := rows + [Row(cells, itemData)];
    }

    /** One column of `updateItemAt`: writes the computed label into the row's
        cell and merges `itemData` into the row's dictionary. */
    static method UpdateOne(computed: Result<Value>, col: nat, row: Row, itemData: Value)
      returns (next: Row, outcome: Outcome, changed: bool)
      ensures (next, outcome, changed) == UpdateCell(computed, col, row, itemData)
    {
      next, outcome, changed := row, Pass, false;
      if computed.Err? {
        // only AttributeError is caught
        if computed.error != AttributeError {
          outcome := Fail(computed.error);
        }
        return;
      }
      if col >= |row.cells| || row.cells[col].None? {
        // `self.item(row, col)` is None
        return row, Fail(AttributeError), false;
      }
      if !computed.value.Str? {
        // `setText` refuses a label that is no string
        return row, Fail(TypeError), false;
      }
      next := row.(cells := row.cells[col := Some(computed.value.s)]);
      if !next.data.Dict? || !itemData.Dict? {
        // `itemData.update` on data that is no dictionary
        return next, Fail(AttributeError), false;
      }
      next := next.(data := Dict(Update(row.data.entries, itemData.entries)));
      changed := true;
    }

    /** The loop of `updateItemAt` over one row: the row afterwards and the
        updated columns, or the exception that escaped. */
    static method UpdateRow(config: seq<ColInfo>, start: Row, itemData: Value) returns (current: Row, result: Result<seq<nat>>)
      requires |start.cells| == |config|
      ensures (current, result) == UpdateFrom(Computed(config, itemData), 0, start, itemData)
    {
      current := start;
      var updated: seq<nat> := [];
      var col := 0;
      ghost var labels := Computed(config, itemData);
      assert |labels| == |config|;
      ghost var final := UpdateFrom(labels, 0, start, itemData);
      AfterNothing(final);
      while col < |config|
        invariant 0 <= col <= |config| && |current.cells| == |config| && |labels| == |config|
        invariant final == After(updated, UpdateFrom(labels, col, current, itemData))
      {
        var computed := SetItemCore(config[col], itemData);
        assert computed == labels[col];
        var next, outcome, changed := UpdateOne(computed, col, current, itemData);
        if outcome.Fail? {
          return next, Err(outcome.error);
        }
        current := next;
        if changed {
          AfterAppend(updated, col, UpdateFrom(labels, col + 1, current, itemData));
          updated := updated + [col];
        }
        col := col + 1;
      }
      assert updated + [] == updated;
      result := Ok(updated);
    }

    /** `updateItemAt(row, itemData)`: the row afterwards and the updated columns are
        those of `UpdateFrom`; a row that does not exist is a row without items, so
        the first label computed raises AttributeError and nothing is written. No
        other row changes. */
    method UpdateItemAt(row: int, itemData: Value) returns (result: Result<seq<nat>>)
      requires Valid()
      modifies this
      ensures Valid() && |rows| == |old(rows)|
      ensures forall r :: 0 <= r < |rows| && r != row ==> rows[r] == old(rows)[r]
      ensures 0 <= row < |rows| ==> (rows[row], result) == UpdateFrom(Computed(config, itemData), 0, old(rows)[row], itemData)
      ensures !(0 <= row < |rows|) ==> rows == old(rows) && result == UpdateFrom(Computed(config, itemData), 0, EmptyRow(|config|), itemData).1
    {
      if 0 <= row < |rows| {
        var current;
        current, result := UpdateRow(config, rows[row], itemData);
        rows := rows[row := current];
      } else {
        var _, r := UpdateRow(config, EmptyRow(|config|), itemData);
        result := r;
      }
    }

    /** `clearAll`: no rows remain. */
    method ClearAll()
      modifies this
      ensures Valid() && rows == []
    {
      rows := [];
    }

    /** `selectedRows`: the distinct rows of the selected items, ascending.
        `selection` holds the (row, column) of each selected item. */
    method SelectedRows(selection: seq<(nat, nat)>) returns (result: seq<nat>)
      ensures forall i, j :: 0 <= i < j < |result| ==> result[i] < result[j]
      ensures forall r :: r in result <==> exists k :: 0 <= k < |selection| && selection[k].0 == r
    {
      var found: set<nat> := {};
      var bound := 0;
      for k := 0 to |selection|
        invariant forall r :: r in found <==> exists j :: 0 <= j < k && selection[j].0 == r
        invariant forall r :: r in found ==> r < bound
      {
        found := found + {selection[k].0};
        if selection[k].0 >= bound {
          bound := selection[k].0 + 1;
        }
      }
      result := SortedRows(found, bound);
    }

    /** `getItemByValue(col, value)`: the first row whose item in the column has the
        text `value`, skipping rows without an item there; None if there is none. */
    method GetItemByValue(col: int, value: string) returns (found: Option<nat>)
      ensures found.Some? ==> found.value < |rows| && Item(found.value, col) == Some(value)
      ensures found.Some? ==> forall r :: 0 <= r < found.value ==> Item(r, col) != Some(value)
      ensures found.None? ==> forall r :: 0 <= r < |rows| ==> Item(r, col) != Some(value)
    {
      for row := 0 to |rows|
        invariant forall r :: 0 <= r < row ==> Item(r, col) != Some(value)
      {
        var item := Item(row, col);
        if item.None? {
          continue;
        }
        if item.value == value {
          return Some(row);
        }
      }
      return None;
    }

    /** `getItemDataAt(row)`: the dictionary of the row's first item; AttributeError
        when there is none. */
    method GetItemDataAt(row: int) returns (r: Result<Value>)
      ensures Item(row, 0).Some? ==> r == Ok(rows[row].data)
      ensures Item(row, 0).None? ==> r == Err(AttributeError)
    {
      var item := Item(row, 0);
      if item.None? {
        return Err(AttributeError);
      }
      return Ok(rows[row].data);
    }
  }
}
