/** The CQL statements the adapter sends: the schema and first row built by
    `initDevice`, the `UPDATE` of `write` and the `SELECT` of `read`. */
module Queries {
  import opened Wrappers
  import opened JsStrings

  /** One entry of the `properties` object given to `initDevice`, in the
      object's iteration order: its key, its `type` and its `value` as the
      text JavaScript produces when the value is concatenated to a string. */
  datatype Property = Property(name: string, typeName: string, value: string)

  /** The table `write` and `read` address, whatever device they are given. */
  const Table: string := "smart_switch"

  /** The `typeMap` lookup: JSON-schema type to CQL column type. */
  function TypeMap(typeName: string): (r: Option<string>)
    ensures r.Some? <==> typeName == "boolean" || typeName == "number"
    ensures typeName == "boolean" ==> r == Some("boolean")
    ensures typeName == "number" ==> r == Some("double")
  {
    if typeName == "boolean" then Some("boolean")
    else if typeName == "number" then Some("double")
    else None
  }

  /** A looked-up column type as it reads once concatenated into the query:
      a missing type becomes the text `undefined`. */
  function TypeText(t: Option<string>): string
  {
    match t
    case Some(s) => s
    case None => "undefined"
  }

  /** `inQuotes(name.toLowerCase())`: a column identifier as every query spells it. */
  function QuotedColumn(name: string): (r: string)
    ensures |r| == |name| + 2
    ensures r[0] == '"' && r[|r| - 1] == '"'
    ensures forall i :: 0 <= i < |r| ==> !IsUpper(r[i])
  {
    InQuotes(ToLower(name))
  }

  /** Property names that differ only in letter case name the same column. */
  lemma QuotedColumnCaseInsensitive(name: string)
    ensures QuotedColumn(ToLower(name)) == QuotedColumn(name)
  {
    ToLowerIdempotent(name);
  }

  /** The sanitised table name `initDevice` uses: lower case, dashes replaced. */
  function DeviceTable(deviceId: string): (r: string)
    ensures |r| == |deviceId|
    ensures '-' !in r
    ensures forall i :: 0 <= i < |r| ==> !IsUpper(r[i])
  {
    FormatId(ToLower(deviceId))
  }

  // ---------------------------------------------------------------------
  // CREATE TABLE

  /** The definition of the key column every device table starts with. */
  const KeyColumn: string := "id text PRIMARY KEY"

  /** One property's column definition, `"<name>" <type>`, with the text
      `undefined` for a type `typeMap` does not know. */
  function ColumnDef(p: Property): string
  {
    QuotedColumn(p.name) + " " + TypeText(TypeMap(p.typeName))
  }

  /** The column definitions of the table: the `id` key, then one
      `"<name>" <type>` per property, in order. */
  function ColumnDefs(props: seq<Property>): (defs: seq<string>)
    ensures |defs| == |props| + 1
    ensures defs[0] == KeyColumn
    ensures forall i :: 0 <= i < |props| ==> defs[i + 1] == ColumnDef(props[i])
  {
    var columns := seq(|props|, i requires 0 <= i < |props| => ColumnDef(props[i]));
    assert forall i :: 0 <= i < |props| ==> columns[i] == ColumnDef(props[i]);
    [KeyColumn] + columns
  }

  /** The CREATE TABLE statement as CQL expects it: the column definitions
      separated by `, `, none trailing. */
  function CreateTableStatement(table: string, props: seq<Property>): string
  {
    "CREATE TABLE " + InQuotes(table) + " ( " + Join(ColumnDefs(props), ", ") + " );"
  }

  /** The query built by lines 93-100 of cassie.js: a comma after every
      column, then the last comma cut off. */
  method BuildCreateTable(table: string, props: seq<Property>) returns (query: string)
    ensures query == CreateTableStatement(table, props)
  {
    ghost var head := "CREATE TABLE " + InQuotes(table) + " ( ";
    ghost var defs := ColumnDefs(props);
    query := "CREATE TABLE " + InQuotes(table) + " ( id text PRIMARY KEY,";
    OpenColumnList("CREATE TABLE " + InQuotes(table));
    assert defs[..1] == [KeyColumn];
    var i := 0;
    while i < |props|
      invariant 0 <= i <= |props|
      invariant query == head + Join(defs[..i + 1], ", ") + ","
    {
      var name, colType := InQuotes(ToLower(props[i].name)), TypeText(TypeMap(props[i].typeName));
      CreateTableStep(head, defs, i, name, colType);
      query := query + " " + name + " " + colType + ",";
      i := i + 1;
    }
    assert i + 1 == |defs|;
    assert defs[..i + 1] == defs;
    assert query == head + Join(defs, ", ") + ",";
    CloseColumnList(head, Join(defs, ", "));
    query := query[..|query| - 1] + " );";
  }

  /** One pass of the CREATE TABLE loop: appending ` <name> <type>,` to the
      list of the first `i + 1` definitions gives the list of `i + 2`. */
  lemma CreateTableStep(head: string, defs: seq<string>, i: nat, name: string, colType: string)
    requires i + 1 < |defs|
    requires defs[i + 1] == name + " " + colType
    ensures head + Join(defs[..i + 1], ", ") + "," + " " + name + " " + colType + ","
         == head + Join(defs[..i + 2], ", ") + ","
  {
    JoinSnoc(defs, i + 1, ", ");
    AppendColumn(head, Join(defs[..i + 1], ", "), name, colType);
  }

  /** Cutting the trailing comma and closing the column list. */
  lemma CloseColumnList(head: string, list: string)
    ensures var s := head + list + ","; s[..|s| - 1] + " );" == head + list + " );"
  {
    var s := head + list + ",";
    assert s[..|s| - 1] == head + list;
  }

  /** Splits the literal that opens the CREATE TABLE column list. */
  lemma OpenColumnList(prefix: string)
    ensures prefix + " ( id text PRIMARY KEY," == prefix + " ( " + KeyColumn + ","
  {
  }

  /** One pass of the CREATE TABLE loop appends `, <column>` to the list. */
  lemma AppendColumn(head: string, list: string, name: string, colType: string)
    ensures head + list + "," + " " + name + " " + colType + ","
         == head + (list + ", " + (name + " " + colType)) + ","
  {
    assert "," + " " == ", ";
  }

  /** A comma-free property name gives a comma-free column identifier. */
  lemma QuotedColumnNoComma(name: string)
    requires ',' !in name
    ensures ',' !in QuotedColumn(name)
  {
    var lower := ToLower(name);
    assert forall i :: 0 <= i < |lower| ==> lower[i] == LowerChar(name[i]);
    assert ',' !in lower;
    assert QuotedColumn(name) == "\"" + lower + "\"";
  }

  /** No column type text contains a comma. */
  lemma TypeTextNoComma(typeName: string)
    ensures ',' !in TypeText(TypeMap(typeName))
  {
    var t := TypeText(TypeMap(typeName));
    assert t == "boolean" || t == "double" || t == "undefined";
  }

  /** The column list of CREATE TABLE has one entry per property after `id`
      and no trailing separator: when no property name contains a comma it
      holds exactly one comma per property. */
  lemma CreateTableColumnCount(props: seq<Property>)
    requires forall i :: 0 <= i < |props| ==> ',' !in props[i].name
    ensures Count(Join(ColumnDefs(props), ", "), ',') == |props|
  {
    var defs := ColumnDefs(props);
    SeparatorCount();
    forall i | 0 <= i < |defs| ensures ',' !in defs[i] {
      if i > 0 {
        ColumnDefNoComma(props[i - 1]);
      }
    }
    JoinCount(defs, ", ", ',');
  }

  /** The list separator holds one comma. */
  lemma SeparatorCount()
    ensures Count(", ", ',') == 1
  {
    assert ", "[1..] == " ";
    assert " "[1..] == "";
  }

  /** A property with a comma-free name has a comma-free column definition. */
  lemma ColumnDefNoComma(p: Property)
    requires ',' !in p.name
    ensures ',' !in ColumnDef(p)
  {
    QuotedColumnNoComma(p.name);
    TypeTextNoComma(p.typeName);
  }

  /** The column list of CREATE TABLE ends with the last property's
      definition (or with the key when there is none), not with a comma. */
  lemma CreateTableNoTrailingComma(table: string, props: seq<Property>)
    ensures var last := if props == [] then KeyColumn else ColumnDef(props[|props| - 1]);
      EndsWith(CreateTableStatement(table, props), last + " );")
  {
    var defs := ColumnDefs(props);
    JoinEndsWithLast(defs, ", ");
    EndsWithThrough("CREATE TABLE " + InQuotes(table) + " ( ", Join(defs, ", "), defs[|props|], " );");
    if props != [] {
      assert defs[|props|] == ColumnDef(props[|props| - 1]);
    }
  }

  /** A string that ends with `last`, put between a prefix and `tail`, leaves
      `last + tail` at the end of the whole. */
  lemma EndsWithThrough(prefix: string, s: string, last: string, tail: string)
    requires EndsWith(s, last)
    ensures EndsWith(prefix + s + tail, last + tail)
  {
    var k := |s| - |last|;
    assert s == s[..k] + last;
    assert prefix + s + tail == (prefix + s[..k]) + (last + tail);
  }

  // ---------------------------------------------------------------------
  // INSERT

  /** The column names of the first row: `id`, then each property's column. */
  function InsertColumns(props: seq<Property>): (cols: seq<string>)
    ensures |cols| == |props| + 1
    ensures cols[0] == "id"
    ensures forall i :: 0 <= i < |props| ==> cols[i + 1] == QuotedColumn(props[i].name)
  {
    ["id"] + seq(|props|, i requires 0 <= i < |props| => QuotedColumn(props[i].name))
  }

  /** The values of the first row: the key `'state'`, then each property's
      initial value, unquoted. */
  function InsertValues(props: seq<Property>): (vals: seq<string>)
    ensures |vals| == |props| + 1
    ensures vals[0] == "'state'"
    ensures forall i :: 0 <= i < |props| ==> vals[i + 1] == props[i].value
  {
    ["'state'"] + seq(|props|, i requires 0 <= i < |props| => props[i].value)
  }

  /** The INSERT statement with its two `, `-separated lists. */
  function InsertStatement(table: string, props: seq<Property>): string
  {
    "INSERT INTO " + InQuotes(table) + "(" + Join(InsertColumns(props), ", ")
      + ") VALUES (" + Join(InsertValues(props), ", ") + ");"
  }

  /** The query built by lines 106-119 of cassie.js: `, ` after every entry,
      then the last two characters cut off. */
  method BuildInsert(table: string, props: seq<Property>) returns (query: string)
    ensures query == InsertStatement(table, props)
  {
    ghost var cols, vals := InsertColumns(props), InsertValues(props);
    var names := "id, ";
    var values := "'state', ";
    assert names == Join(cols[..1], ", ") + ", ";
    assert values == Join(vals[..1], ", ") + ", ";
    var i := 0;
    while i < |props|
      invariant 0 <= i <= |props|
      invariant names == Join(cols[..i + 1], ", ") + ", "
      invariant values == Join(vals[..i + 1], ", ") + ", "
    {
      ExtendList(cols, i + 1, names, InQuotes(ToLower(props[i].name)));
      ExtendList(vals, i + 1, values, props[i].value);
      names := names + InQuotes(ToLower(props[i].name)) + ", ";
      values := values + props[i].value + ", ";
      i := i + 1;
    }
    assert i + 1 == |cols| == |vals|;
    assert cols[..i + 1] == cols && vals[..i + 1] == vals;
    assert names == Join(cols, ", ") + ", " && values == Join(vals, ", ") + ", ";
    CloseInsertLists("INSERT INTO " + InQuotes(table), Join(cols, ", "), Join(vals, ", "));
    names := "(" + names[..|names| - 2] + ")";
    values := "(" + values[..|values| - 2] + ")";
    query := "INSERT INTO " + InQuotes(table) + "" + names + " VALUES " + values + ";";
  }

  /** One pass of an INSERT loop: appending `<item>, ` to the list of the
      first `k` items gives the list of `k + 1`. */
  lemma ExtendList(items: seq<string>, k: nat, acc: string, item: string)
    requires 0 < k < |items|
    requires items[k] == item
    requires acc == Join(items[..k], ", ") + ", "
    ensures acc + item + ", " == Join(items[..k + 1], ", ") + ", "
  {
    JoinSnoc(items, k, ", ");
  }

  /** Cutting `, ` off both lists and parenthesising them gives the INSERT
      statement. */
  lemma CloseInsertLists(head: string, names: string, values: string)
    ensures var n, v := names + ", ", values + ", ";
      head + "" + ("(" + n[..|n| - 2] + ")") + " VALUES " + ("(" + v[..|v| - 2] + ")") + ";"
        == head + "(" + names + ") VALUES (" + values + ");"
  {
    TrimSeparator(names);
    TrimSeparator(values);
    AssembleInsert(head, names, values);
  }

  /** Cutting the last two characters off a list that ends in `, `. */
  lemma TrimSeparator(list: string)
    ensures var s := list + ", "; s[..|s| - 2] == list
  {
  }

  /** The INSERT statement put together from its two parenthesised lists. */
  lemma AssembleInsert(head: string, names: string, values: string)
    ensures head + "" + ("(" + names + ")") + " VALUES " + ("(" + values + ")") + ";"
         == head + "(" + names + ") VALUES (" + values + ");"
  {
    assert ")" + " VALUES " + "(" == ") VALUES (";
    assert ")" + ";" == ");";
  }

  /** The two lists of the INSERT line up: when neither names nor values
      contain a comma, each list holds one comma per property. */
  lemma InsertListsAligned(props: seq<Property>)
    requires forall i :: 0 <= i < |props| ==> ',' !in props[i].name && ',' !in props[i].value
    ensures Count(Join(InsertColumns(props), ", "), ',') == |props|
    ensures Count(Join(InsertValues(props), ", "), ',') == |props|
  {
    var cols, vals := InsertColumns(props), InsertValues(props);
    SeparatorCount();
    forall i | 0 <= i < |cols| ensures ',' !in cols[i] && ',' !in vals[i] {
      if i > 0 {
        QuotedColumnNoComma(props[i - 1].name);
      }
    }
    JoinCount(cols, ", ", ',');
    JoinCount(vals, ", ", ',');
  }

  // ---------------------------------------------------------------------
  // initDevice

  /** The queries `initDevice` sends, in order. `tableLookup` is the outcome
      of the metadata lookup: `Some(exists)` when it answered, `None` when it
      threw, which leaves `tableExists` undefined and so creates the table. */
  method InitDevice(deviceId: string, properties: seq<Property>, tableLookup: Option<bool>)
    returns (queries: seq<string>)
    ensures var table := DeviceTable(deviceId);
      queries == (if tableLookup == Some(true) then [] else [CreateTableStatement(table, properties)])
                 + [InsertStatement(table, properties)]
  {
    var table := FormatId(ToLower(deviceId));
    var tableExists := tableLookup == Some(true);
    queries := [];
    if !tableExists {
      var create := BuildCreateTable(table, properties);
      queries := queries + [create];
    }
    var insert := BuildInsert(table, properties);
    queries := queries + [insert];
  }

  // ---------------------------------------------------------------------
  // UPDATE and SELECT

  /** The UPDATE `write` sends: sets the property's column of the `'state'`
      row of `smart_switch` to the value's text. */
  function UpdateQuery(propertyName: string, value: string): (q: string)
    ensures |q| == |propertyName| + |value| + 45
    ensures q[..24] == "UPDATE " + Table + " SET "
    ensures q[24..26 + |propertyName|] == QuotedColumn(propertyName)
    ensures q[26 + |propertyName|..27 + |propertyName| + |value|] == "=" + value
    ensures q[|q| - 18..] == " WHERE id='state';"
  {
    var head, tail := "UPDATE " + Table + " SET ", " WHERE id='state';";
    assert |head| == 24 && |tail| == 18;
    ConcatParts(head, QuotedColumn(propertyName), "=" + value, tail);
    head + QuotedColumn(propertyName) + ("=" + value) + tail
  }

  /** The SELECT `read` sends: the property's column of the `'state'` row. */
  function SelectQuery(propertyName: string): (q: string)
    ensures |q| == |propertyName| + 47
    ensures q[..7] == "SELECT "
    ensures q[7..9 + |propertyName|] == QuotedColumn(propertyName)
    ensures q[9 + |propertyName|..] == " FROM " + InQuotes(Table) + " WHERE id='state';"
  {
    var tail := " FROM " + InQuotes(Table) + " WHERE id='state';";
    assert |tail| == 38;
    ConcatParts("SELECT ", QuotedColumn(propertyName), tail, "");
    "SELECT " + QuotedColumn(propertyName) + tail
  }

  /** Where each of four concatenated parts sits in the whole. */
  lemma ConcatParts(a: string, b: string, c: string, d: string)
    ensures var q := a + b + c + d;
      && |q| == |a| + |b| + |c| + |d|
      && q[..|a|] == a
      && q[|a|..|a| + |b|] == b
      && q[|a| + |b|..|a| + |b| + |c|] == c
      && q[|a| + |b| + |c|..] == d
  {
  }

  /** `read` fetches the very column `write` sets, for any spelling of the
      property name. */
  lemma ReadWriteSameColumn(written: string, read: string, value: string)
    requires ToLower(written) == ToLower(read)
    ensures UpdateQuery(written, value)[24..26 + |written|] == SelectQuery(read)[7..9 + |read|]
  {
    assert |written| == |read|;
  }

  /** Letter case in the property name never changes the query. */
  lemma QueriesCaseInsensitive(propertyName: string, value: string)
    ensures UpdateQuery(ToLower(propertyName), value) == UpdateQuery(propertyName, value)
    ensures SelectQuery(ToLower(propertyName)) == SelectQuery(propertyName)
  {
    QuotedColumnCaseInsensitive(propertyName);
  }
}
