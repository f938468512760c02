/** The server's fixed metadata, and the two ways the catalog reads a table's columns from it. */
module CatalogMetadata {
  import opened TextCase

  type LogicalType = nat

  /** One row of the column query. */
  datatype Field = Field(name: string, fieldType: int, subType: int, scale: int, length: int, charLength: int, precision: int)

  /** A relation, with its fields in position order. */
  datatype Relation = Relation(name: string, isSystem: bool, fields: seq<Field>)

  /**
   * What the metadata queries see: all relations ordered by name, and the mapping of field descriptions
   * (type, subtype, scale, length, precision) to column types.
   */
  datatype Server = Server(relations: seq<Relation>, typeOf: (int, int, int, int, int) -> LogicalType)

  datatype Column = Column(name: string, columnType: LogicalType)

  /** Relation names are unique and not empty; they may still be equal up to case. */
  ghost predicate WellFormed(m: Server) {
    && (forall i :: 0 <= i < |m.relations| ==> m.relations[i].name != "")
    && (forall i, j :: 0 <= i < j < |m.relations| ==> m.relations[i].name != m.relations[j].name)
  }

  // ---------------------------------------------------------------------------
  // Case-insensitive keys
  // ---------------------------------------------------------------------------

  function Key(name: string): string {
    Lower(name)
  }

  // ---------------------------------------------------------------------------
  // The queries
  // ---------------------------------------------------------------------------

  function Described(m: Server, f: Field): Column {
    var length := if f.charLength > 0 then f.charLength else f.length;
    Column(f.name, m.typeOf(f.fieldType, f.subType, f.scale, length, f.precision))
  }

  function Columns(m: Server, fields: seq<Field>): seq<Column> {
    seq(|fields|, i requires 0 <= i < |fields| => Described(m, fields[i]))
  }

  function TableNamesIn(rs: seq<Relation>): seq<string> {
    if rs == [] then []
    else (if rs[0].isSystem || rs[0].name == "" then [] else [rs[0].name]) + TableNamesIn(rs[1..])
  }

  /** The user tables, in catalog order. */
  function TableNames(m: Server): seq<string> {
    TableNamesIn(m.relations)
  }

  function FieldsNamed(rs: seq<Relation>, name: string): seq<Field> {
    if rs == [] then []
    else if rs[0].name == name then rs[0].fields
    else FieldsNamed(rs[1..], name)
  }

  /** The per-table query: the columns of the relation spelled exactly so, system or not. */
  function TableColumns(m: Server, name: string): seq<Column> {
    Columns(m, FieldsNamed(m.relations, name))
  }

  /** One row of the bulk query. */
  datatype TableField = TableField(table: string, field: Field)

  function Tagged(r: Relation): seq<TableField> {
    seq(|r.fields|, i requires 0 <= i < |r.fields| => TableField(r.name, r.fields[i]))
  }

  function AllFieldsIn(rs: seq<Relation>): seq<TableField> {
    if rs == [] then []
    else (if rs[0].isSystem then [] else Tagged(rs[0])) + AllFieldsIn(rs[1..])
  }

  /** The bulk query: every field of every user table, by table and position. */
  function AllFields(m: Server): seq<TableField> {
    AllFieldsIn(m.relations)
  }

  /** The columns the bulk list holds for a case-insensitive key. */
  function BulkColumns(m: Server, list: seq<TableField>, key: string): seq<Column> {
    if list == [] then []
    else
      (if Key(list[0].table) == key then [Described(m, list[0].field)] else [])
      + BulkColumns(m, list[1..], key)
  }

  // ---------------------------------------------------------------------------
  // Folding the bulk list into a case-insensitive map
  // ---------------------------------------------------------------------------

  /** FirebirdTableColumns: two vectors of the same length. */
  datatype ColumnVectors = ColumnVectors(names: seq<string>, types: seq<LogicalType>)

  predicate Holds(v: ColumnVectors, columns: seq<Column>) {
    |v.names| == |v.types| == |columns| &&
    forall i :: 0 <= i < |columns| ==> columns[i] == Column(v.names[i], v.types[i])
  }

  method ReadTableColumns(m: Server, name: string) returns (v: ColumnVectors)
    ensures Holds(v, TableColumns(m, name))
  {
    var list := FieldsNamed(m.relations, name);
    var names, types := [], [];
    for i := 0 to |list|
      invariant Holds(ColumnVectors(names, types), Columns(m, list[..i]))
    {
      var column := Described(m, list[i]);
      names := names + [column.name];
      types := types + [column.columnType];
    }
    assert list[..|list|] == list;
    return ColumnVectors(names, types);
  }

  lemma {:induction false} BulkSnoc(m: Server, list: seq<TableField>, x: TableField, key: string)
    ensures BulkColumns(m, list + [x], key)
         == BulkColumns(m, list, key) + if Key(x.table) == key then [Described(m, x.field)] else []
  {
    if list == [] {
      assert list + [x] == [x];
    } else {
      assert (list + [x])[1..] == list[1..] + [x];
      BulkSnoc(m, list[1..], x, key);
    }
  }

  /** Whether a map holds, under exactly the keys with columns, the columns of a list. */
  ghost predicate Folded(m: Server, result: map<string, ColumnVectors>, list: seq<TableField>) {
    forall k :: (k in result <==> BulkColumns(m, list, k) != []) && (k in result ==> Holds(result[k], BulkColumns(m, list, k)))
  }

  function WithField(m: Server, result: map<string, ColumnVectors>, x: TableField): map<string, ColumnVectors> {
    var cols := if Key(x.table) in result then result[Key(x.table)] else ColumnVectors([], []);
    var column := Described(m, x.field);
    result[Key(x.table) := ColumnVectors(cols.names + [column.name], cols.types + [column.columnType])]
  }

  lemma {:induction false} FoldStep(m: Server, result: map<string, ColumnVectors>, list: seq<TableField>, x: TableField)
    requires Folded(m, result, list)
    ensures Folded(m, WithField(m, result, x), list + [x])
  {
    forall k
      ensures var r := WithField(m, result, x);
              (k in r <==> BulkColumns(m, list + [x], k) != []) && (k in r ==> Holds(r[k], BulkColumns(m, list + [x], k)))
    {
      BulkSnoc(m, list, x, k);
    }
  }

  /** The fold: under each key, in order, the columns of all the user tables spelled so up to case. */
  method GetAllTableColumns(m: Server) returns (result: map<string, ColumnVectors>)
    ensures forall k :: k in result <==> BulkColumns(m, AllFields(m), k) != []
    ensures forall k :: k in result ==> Holds(result[k], BulkColumns(m, AllFields(m), k))
  {
    var list := AllFields(m);
    result := map[];
    for i := 0 to |list|
      invariant Folded(m, result, list[..i])
    {
      FoldStep(m, result, list[..i], list[i]);
      assert list[..i + 1] == list[..i] + [list[i]];
      var key := Key(list[i].table);
      var column := Described(m, list[i].field);
      var cols := if key in result then result[key] else ColumnVectors([], []);
      result := result[key := ColumnVectors(cols.names + [column.name], cols.types + [column.columnType])];
    }
    assert list[..|list|] == list;
  }

  // ---------------------------------------------------------------------------
  // When the bulk query agrees with the per-table query
  // ---------------------------------------------------------------------------

  lemma {:induction false} BulkConcat(m: Server, a: seq<TableField>, b: seq<TableField>, key: string)
    ensures BulkColumns(m, a + b, key) == BulkColumns(m, a, key) + BulkColumns(m, b, key)
  {
    if a == [] {
      assert a + b == b;
    } else {
      assert (a + b)[1..] == a[1..] + b;
      BulkConcat(m, a[1..], b, key);
    }
  }

  lemma {:induction false} BulkOfOneTable(m: Server, list: seq<TableField>, table: string, key: string)
    requires forall i :: 0 <= i < |list| ==> list[i].table == table
    ensures |BulkColumns(m, list, key)| == if Key(table) == key then |list| else 0
    ensures Key(table) == key ==>
              forall i :: 0 <= i < |list| ==> BulkColumns(m, list, key)[i] == Described(m, list[i].field)
  {
    if list != [] {
      BulkOfOneTable(m, list[1..], table, key);
    }
  }

  lemma {:induction false} BulkOfRelation(m: Server, r: Relation, key: string)
    ensures BulkColumns(m, Tagged(r), key) == if Key(r.name) == key then Columns(m, r.fields) else []
  {
    BulkOfOneTable(m, Tagged(r), r.name, key);
  }

  /** Whether a user table other than the i-th puts columns under the i-th table's key. */
  ghost predicate Merges(rs: seq<Relation>, i: nat)
    requires i < |rs|
  {
    exists j :: 0 <= j < |rs| && j != i && !rs[j].isSystem && Key(rs[j].name) == Key(rs[i].name) && rs[j].fields != []
  }

  /** What the first relation and the others put under a key. */
  lemma {:induction false} BulkHead(m: Server, rs: seq<Relation>, key: string)
    requires rs != []
    ensures BulkColumns(m, AllFieldsIn(rs), key)
         == (if !rs[0].isSystem && Key(rs[0].name) == key then Columns(m, rs[0].fields) else [])
            + BulkColumns(m, AllFieldsIn(rs[1..]), key)
  {
    BulkConcat(m, if rs[0].isSystem then [] else Tagged(rs[0]), AllFieldsIn(rs[1..]), key);
    BulkOfRelation(m, rs[0], key);
  }

  lemma {:induction false} MergesTail(rs: seq<Relation>, i: nat)
    requires 0 < i < |rs|
    ensures Merges(rs, i) <==> Contributes(rs[0], Key(rs[i].name)) || Merges(rs[1..], i - 1)
  {
    assert forall j :: 1 <= j < |rs| ==> rs[j] == rs[1..][j - 1];
    if Merges(rs, i) && !Contributes(rs[0], Key(rs[i].name)) {
      var j :| 0 <= j < |rs| && j != i && !rs[j].isSystem && Key(rs[j].name) == Key(rs[i].name) && rs[j].fields != [];
      assert rs[1..][j - 1] == rs[j];
    }
    if Merges(rs[1..], i - 1) {
      var j :| 0 <= j < |rs[1..]| && j != i - 1 && !rs[1..][j].isSystem && Key(rs[1..][j].name) == Key(rs[i].name)
               && rs[1..][j].fields != [];
      assert rs[j + 1] == rs[1..][j];
    }
  }

  lemma {:induction false} MergesHead(rs: seq<Relation>)
    requires rs != []
    ensures Merges(rs, 0) <==> exists j :: 0 <= j < |rs[1..]| && Contributes(rs[1..][j], Key(rs[0].name))
  {
    if Merges(rs, 0) {
      var j :| 0 <= j < |rs| && j != 0 && !rs[j].isSystem && Key(rs[j].name) == Key(rs[0].name) && rs[j].fields != [];
      assert Contributes(rs[1..][j - 1], Key(rs[0].name));
    }
    if j :| 0 <= j < |rs[1..]| && Contributes(rs[1..][j], Key(rs[0].name)) {
      assert rs[j + 1] == rs[1..][j];
    }
  }

  /** Under the i-th relation's key the bulk list holds its own columns, or strictly more columns when others merge in. */
  lemma {:induction false} BulkSplits(m: Server, rs: seq<Relation>, i: nat)
    requires i < |rs| && !rs[i].isSystem
    ensures var bulk, own := BulkColumns(m, AllFieldsIn(rs), Key(rs[i].name)), Columns(m, rs[i].fields);
            (|bulk| > |own| <==> Merges(rs, i)) && (!Merges(rs, i) ==> bulk == own)
  {
    BulkHead(m, rs, Key(rs[i].name));
    if i == 0 {
      MergesHead(rs);
      BulkElsewhere(m, rs[1..], Key(rs[0].name));
    } else {
      MergesTail(rs, i);
      BulkSplits(m, rs[1..], i - 1);
    }
  }

  predicate Contributes(r: Relation, key: string) {
    !r.isSystem && Key(r.name) == key && r.fields != []
  }

  lemma {:induction false} ContributesLater(rs: seq<Relation>, key: string)
    requires rs != []
    ensures (forall j :: 0 <= j < |rs| ==> !Contributes(rs[j], key))
            <==> !Contributes(rs[0], key) && forall j :: 0 <= j < |rs[1..]| ==> !Contributes(rs[1..][j], key)
  {
    assert forall j :: 0 <= j < |rs[1..]| ==> rs[1..][j] == rs[j + 1];
    assert forall j :: 1 <= j < |rs| ==> rs[j] == rs[1..][j - 1];
  }

  lemma {:induction false} BulkElsewhere(m: Server, rs: seq<Relation>, key: string)
    ensures BulkColumns(m, AllFieldsIn(rs), key) == [] <==> forall j :: 0 <= j < |rs| ==> !Contributes(rs[j], key)
  {
    if rs != [] {
      BulkHead(m, rs, key);
      BulkElsewhere(m, rs[1..], key);
      ContributesLater(rs, key);
      assert |Columns(m, rs[0].fields)| == |rs[0].fields|;
    }
  }

  lemma {:induction false} FieldsOfRelation(rs: seq<Relation>, i: nat)
    requires i < |rs| && forall a, b :: 0 <= a < b < |rs| ==> rs[a].name != rs[b].name
    ensures FieldsNamed(rs, rs[i].name) == rs[i].fields
  {
    if i > 0 {
      assert rs[0].name != rs[i].name;
      FieldsOfRelation(rs[1..], i - 1);
    }
  }

  lemma {:induction false} FieldsOfNoRelation(rs: seq<Relation>, name: string)
    requires FieldsNamed(rs, name) != []
    ensures exists i :: 0 <= i < |rs| && rs[i].name == name && rs[i].fields == FieldsNamed(rs, name)
  {
    if rs[0].name != name {
      FieldsOfNoRelation(rs[1..], name);
      var i :| 0 <= i < |rs[1..]| && rs[1..][i].name == name && rs[1..][i].fields == FieldsNamed(rs, name);
      assert rs[i + 1] == rs[1..][i];
    }
  }

  /**
   * The bulk query gives a user table exactly the columns of its own query if and only if no other user table
   * with columns has the same name up to case.
   */
  lemma {:induction false} BulkAgreesIffUnmerged(m: Server, i: nat)
    requires WellFormed(m) && i < |m.relations| && !m.relations[i].isSystem
    ensures var name := m.relations[i].name;
            BulkColumns(m, AllFields(m), Key(name)) == TableColumns(m, name) <==> !Merges(m.relations, i)
  {
    BulkSplits(m, m.relations, i);
    FieldsOfRelation(m.relations, i);
  }

  /** What the per-table query says of a relation: each field's name, and the type of its description. */
  lemma {:induction false} ColumnsAreTyped(m: Server, i: nat)
    requires WellFormed(m) && i < |m.relations|
    ensures var fields, columns := m.relations[i].fields, TableColumns(m, m.relations[i].name);
            && |columns| == |fields|
            && forall k :: 0 <= k < |fields| ==>
                 && columns[k].name == fields[k].name
                 && columns[k].columnType
                    == m.typeOf(fields[k].fieldType, fields[k].subType, fields[k].scale,
                                if fields[k].charLength > 0 then fields[k].charLength else fields[k].length,
                                fields[k].precision)
  {
    FieldsOfRelation(m.relations, i);
  }

  lemma {:induction false} UnknownNameHasNoColumns(m: Server, name: string)
    requires forall i :: 0 <= i < |m.relations| ==> m.relations[i].name != name
    ensures TableColumns(m, name) == []
  {
    if FieldsNamed(m.relations, name) != [] {
      FieldsOfNoRelation(m.relations, name);
    }
  }
}
