// Building a text result set from named columns and rows of Go values.
module Builder {
  import opened Bytes
  import opened Options
  import opened Fields
  import opened MysqlTypes
  import opened Rows

  datatype Built = Built(fields: seq<Field>, rows: seq<seq<byte>>) | BuildError

  function FieldType(v: Value): (t: Option<byte>)
  {
    match v
    case Null => Some(TYPE_NULL)
    case NilBytes => Some(TYPE_VAR_STRING)
    case NilString => Some(TYPE_VAR_STRING)
    case Int(_) => Some(TYPE_LONGLONG)
    case Uint(_) => Some(TYPE_LONGLONG)
    case Float(_) => Some(TYPE_DOUBLE)
    case Str(_) => Some(TYPE_VAR_STRING)
    case Unsupported => None
  }

  function NewField(name: seq<byte>, typ: byte): (f: Field)
  {
    Field([], [], [], name, [], 0, 0, typ, 0, 0, 0, None)
  }

  function FormatField(f: Field, v: Value): (g: Field)
  {
    match v
    case Int(_) => f.(charset := 63, flag := BINARY_FLAG + NOT_NULL_FLAG)
    case Uint(_) => f.(charset := 63, flag := BINARY_FLAG + NOT_NULL_FLAG + UNSIGNED_FLAG)
    case Float(_) => f.(charset := 63, flag := BINARY_FLAG + NOT_NULL_FLAG)
    case _ => f.(charset := 33)
  }

  // What one more value does to the field of its column; None is an error.
  function Observe(name: seq<byte>, f: Option<Field>, v: Value): (r: Option<Field>)
  {
    if FieldType(v).None? then None
    else
      var t := FieldType(v).value;
      if f.None? then Some(FormatField(NewField(name, t), v))
      else if t == f.value.typ then f
      else if f.value.typ == TYPE_NULL then Some(FormatField(f.value.(typ := t), v))
      else if t == TYPE_NULL then f
      else None
  }

  // ---- what a column should look like ----

  function FirstTyped(col: seq<Value>): (v: Value)
  {
    if col == [] then Null else if col[0].Null? then FirstTyped(col[1..]) else col[0]
  }

  // The field of a column whose first value other than NULL is v.
  function Declared(name: seq<byte>, v: Value): (f: Field)
    requires v != Unsupported
  {
    FormatField(NewField(name, FieldType(v).value), v)
  }

  predicate Consistent(col: seq<Value>)
  {
    forall v :: v in col ==>
      v != Unsupported && (v.Null? || FieldType(v) == FieldType(FirstTyped(col)))
  }

  lemma {:induction false} FirstTypedIn(col: seq<Value>)
    ensures FirstTyped(col) == Null ==> forall v :: v in col ==> v == Null
    ensures FirstTyped(col) != Null ==> FirstTyped(col) in col
    decreases |col|
  {
    if col != [] {
      FirstTypedIn(col[1..]);
      forall v | v in col ensures v == col[0] || v in col[1..] {}
    }
  }

  lemma {:induction false} FirstTypedPush(col: seq<Value>, v: Value)
    ensures FirstTyped(col + [v]) == if FirstTyped(col) == Null then v else FirstTyped(col)
    decreases |col|
  {
    if col != [] {
      FirstTypedPush(col[1..], v);
      assert (col + [v])[1..] == col[1..] + [v];
    }
  }

  function FieldOf(name: seq<byte>, col: seq<Value>): (f: Option<Field>)
    requires Consistent(col)
  {
    FirstTypedIn(col);
    if col == [] then None else Some(Declared(name, FirstTyped(col)))
  }

  // The running field is the one the whole column so far declares, and fails exactly
  // when the column stops being consistent.
  lemma ObserveColumn(name: seq<byte>, col: seq<Value>, v: Value)
    requires Consistent(col)
    ensures Consistent(col + [v]) <==> Observe(name, FieldOf(name, col), v).Some?
    ensures Consistent(col + [v]) ==> FieldOf(name, col + [v]) == Observe(name, FieldOf(name, col), v)
  {
    FirstTypedIn(col);
    FirstTypedPush(col, v);
    var all := col + [v];
    assert v == all[|col|];
    assert v in all;
    forall u | u in col ensures u in all {}
    forall u | u in all ensures u in col || u == v {}
  }

  lemma {:induction false} ConsistentPrefix(col: seq<Value>, k: nat)
    requires k <= |col| && Consistent(col)
    ensures Consistent(col[..k])
    decreases |col|
  {
    if k == |col| {
      assert col[..k] == col;
    } else {
      var front, v := col[..|col| - 1], col[|col| - 1];
      assert col == front + [v];
      FirstTypedPush(front, v);
      FirstTypedIn(front);
      forall u | u in front ensures u in col {}
      ConsistentPrefix(front, k);
      assert front[..k] == col[..k];
    }
  }

  // ---- the whole result set ----

  predicate Rectangular(rows: seq<seq<Value>>, n: nat)
  {
    forall i :: 0 <= i < |rows| ==> |rows[i]| == n
  }

  function Column(rows: seq<seq<Value>>, n: nat, j: nat): (col: seq<Value>)
    requires Rectangular(rows, n) && j < n
    ensures |col| == |rows| && forall i :: 0 <= i < |rows| ==> col[i] == rows[i][j]
  {
    seq(|rows|, i requires 0 <= i < |rows| => rows[i][j])
  }

  predicate AllInRange(rows: seq<seq<Value>>)
  {
    forall i :: 0 <= i < |rows| ==> RowInRange(rows[i])
  }

  predicate RowInRange(row: seq<Value>)
  {
    forall v :: v in row ==> InRange(v)
  }

  predicate Buildable(n: nat, rows: seq<seq<Value>>)
  {
    Rectangular(rows, n) && forall j :: 0 <= j < n ==> Consistent(Column(rows, n, j))
  }

  function FieldsFor(names: seq<seq<byte>>, rows: seq<seq<Value>>): (fields: seq<Field>)
    requires Buildable(|names|, rows)
    ensures |fields| == |names|
  {
    seq(|names|, j requires 0 <= j < |names| =>
      var col := Column(rows, |names|, j);
      FirstTypedIn(col);
      Declared(names[j], FirstTyped(col)))
  }

  function EncodeRows(rows: seq<seq<Value>>): (b: seq<seq<byte>>)
    requires AllInRange(rows)
    ensures |b| == |rows|
  {
    seq(|rows|, i requires 0 <= i < |rows| => assert RowInRange(rows[i]); EncodeRow(rows[i]))
  }

  function Build(names: seq<seq<byte>>, rows: seq<seq<Value>>): (r: Built)
    requires AllInRange(rows)
  {
    if Buildable(|names|, rows) then Built(FieldsFor(names, rows), EncodeRows(rows)) else BuildError
  }

  // ---- the builder's loops ----

  predicate Observable(names: seq<seq<byte>>, fields: seq<Option<Field>>, vs: seq<Value>)
    requires |names| == |fields| == |vs|
  {
    forall j :: 0 <= j < |vs| ==> Observe(names[j], fields[j], vs[j]).Some?
  }

  lemma {:induction false} EncodeRowSplit(vs: seq<Value>, k: nat)
    requires RowInRange(vs) && k < |vs|
    ensures EncodeRow(vs[..k + 1]) == EncodeRow(vs[..k]) + EncodeValue(vs[k])
    decreases k
  {
    hide EncodeValue, InRange;
    if k == 0 {
      assert vs[..1] == [vs[0]] && vs[..1][1..] == [] && vs[..0] == [];
      assert EncodeRow(vs[..1]) == EncodeValue(vs[0]) + [];
    } else {
      EncodeRowSplit(vs[1..], k - 1);
      assert vs[..k + 1][1..] == vs[1..][..k];
      assert vs[..k][1..] == vs[1..][..k - 1];
      assert EncodeRow(vs[..k + 1]) == EncodeValue(vs[0]) + (EncodeRow(vs[..k][1..]) + EncodeValue(vs[k]));
    }
  }

  // The inner loop: one row.
  method AddRow(names: seq<seq<byte>>, fields: seq<Option<Field>>, vs: seq<Value>)
    returns (ok: bool, fields': seq<Option<Field>>, row: seq<byte>)
    requires |names| == |fields| == |vs| && RowInRange(vs)
    ensures ok <==> Observable(names, fields, vs)
    ensures ok ==> |fields'| == |vs| && row == EncodeRow(vs)
    ensures ok ==> forall j :: 0 <= j < |vs| ==> fields'[j] == Observe(names[j], fields[j], vs[j])
  {
    hide Observe, InRange, EncodeValue;
    fields', row, ok := fields, [], true;
    for j := 0 to |vs|
      invariant |fields'| == |vs| && ok
      invariant forall k :: 0 <= k < j ==>
        Observe(names[k], fields[k], vs[k]).Some? && fields'[k] == Observe(names[k], fields[k], vs[k])
      invariant forall k :: j <= k < |vs| ==> fields'[k] == fields[k]
      invariant row == EncodeRow(vs[..j])
    {
      var f := Observe(names[j], fields'[j], vs[j]);
      if f.None? {
        ok := false;
        return;
      }
      fields' := fields'[j := f];
      EncodeRowSplit(vs, j);
      row := row + EncodeValue(vs[j]);
    }
    assert vs[..|vs|] == vs;
  }

  lemma PushRow(names: seq<seq<byte>>, rows: seq<seq<Value>>, i: nat, j: nat)
    requires i < |rows| && Rectangular(rows[..i + 1], |names|) && j < |names|
    ensures Rectangular(rows[..i], |names|)
    ensures Column(rows[..i + 1], |names|, j) == Column(rows[..i], |names|, j) + [rows[i][j]]
  {
    assert Rectangular(rows[..i], |names|) by {
      forall k | 0 <= k < i ensures |rows[..i][k]| == |names| { assert rows[..i][k] == rows[..i + 1][k]; }
    }
    assert rows[..i + 1][i] == rows[i];
  }

  ghost predicate Progress(names: seq<seq<byte>>, rows: seq<seq<Value>>, fields: seq<Option<Field>>)
  {
    && |fields| == |names| && Buildable(|names|, rows)
    && forall j :: 0 <= j < |names| ==> fields[j] == FieldOf(names[j], Column(rows, |names|, j))
  }

  lemma NextRow(names: seq<seq<byte>>, rows: seq<seq<Value>>, i: nat, fields: seq<Option<Field>>,
                next: seq<Option<Field>>)
    requires i < |rows| && |rows[i]| == |names| && Progress(names, rows[..i], fields)
    ensures Buildable(|names|, rows) ==> Observable(names, fields, rows[i])
    ensures Observable(names, fields, rows[i]) && |next| == |names|
            && (forall j :: 0 <= j < |names| ==> next[j] == Observe(names[j], fields[j], rows[i][j]))
            ==> Progress(names, rows[..i + 1], next)
  {
    hide Observe, Consistent, FieldOf;
    var n := |names|;
    assert rows[..i + 1] == rows[..i] + [rows[i]];
    assert Rectangular(rows[..i + 1], n);
    forall j | 0 <= j < n
      ensures Column(rows[..i + 1], n, j) == Column(rows[..i], n, j) + [rows[i][j]]
      ensures Consistent(Column(rows[..i + 1], n, j)) <==> Observe(names[j], fields[j], rows[i][j]).Some?
      ensures Consistent(Column(rows[..i + 1], n, j)) ==>
                FieldOf(names[j], Column(rows[..i + 1], n, j)) == Observe(names[j], fields[j], rows[i][j])
    {
      PushRow(names, rows, i, j);
      ObserveColumn(names[j], Column(rows[..i], n, j), rows[i][j]);
    }
    if Buildable(n, rows) {
      var upTo := rows[..i + 1];
      forall j | 0 <= j < n ensures Consistent(Column(upTo, n, j)) {
        ConsistentPrefix(Column(rows, n, j), i + 1);
        assert Column(rows, n, j)[..i + 1] == Column(upTo, n, j);
      }
    }
  }

  // A cell that is no longer nil; every field has been set when there is a row.
  function Fill(fields: seq<Option<Field>>): (r: seq<Field>)
    requires forall j :: 0 <= j < |fields| ==> fields[j].Some?
  {
    seq(|fields|, j requires 0 <= j < |fields| => fields[j].value)
  }

  method BuildSimpleTextResultset(names: seq<seq<byte>>, values: seq<seq<Value>>) returns (r: Built)
    requires AllInRange(values)
    ensures r == Build(names, values)
  {
    hide Observe, InRange, EncodeRow;
    if |values| == 0 {
      var nulls: seq<Field> := [];
      for i := 0 to |names|
        invariant |nulls| == i
        invariant forall k :: 0 <= k < i ==> nulls[k] == NewField(names[k], TYPE_NULL).(charset := 33)
      {
        nulls := nulls + [NewField(names[i], TYPE_NULL).(charset := 33)];
      }
      assert nulls == FieldsFor(names, values);
      return Built(nulls, []);
    }
    var fields: seq<Option<Field>>, rows: seq<seq<byte>> := seq(|names|, _ => None), [];
    for i := 0 to |values|
      invariant Progress(names, values[..i], fields)
      invariant |rows| == i && forall k :: 0 <= k < i ==> RowInRange(values[k]) && rows[k] == EncodeRow(values[k])
    {
      if |values[i]| != |names| {
        return BuildError;
      }
      var ok, next, row := AddRow(names, fields, values[i]);
      NextRow(names, values, i, fields, if ok then next else []);
      if !ok {
        return BuildError;
      }
      fields, rows := next, rows + [row];
    }
    assert values[..|values|] == values;
    r := Built(Fill(fields), rows);
    assert r.fields == FieldsFor(names, values);
    assert r.rows == EncodeRows(values);
  }

  // ---- what the client will find ----

  // Every value suits the field its column declares.
  lemma BuiltSuits(names: seq<seq<byte>>, rows: seq<seq<Value>>, i: nat)
    requires AllInRange(rows) && Buildable(|names|, rows) && i < |rows|
    ensures SuitsAll(FieldsFor(names, rows), rows[i])
  {
    var fields := FieldsFor(names, rows);
    forall j | 0 <= j < |names| ensures InRange(rows[i][j]) && Suits(fields[j], rows[i][j]) {
      assert RowInRange(rows[i]) && rows[i][j] in rows[i];
      var col := Column(rows, |names|, j);
      assert Consistent(col) && col[i] == rows[i][j] && rows[i][j] in col;
      FirstTypedIn(col);
    }
  }

  // A column does not mix signed and unsigned numbers.
  predicate OneSign(col: seq<Value>)
  {
    forall u, v :: u in col && v in col ==> !(u.Int? && v.Uint?)
  }

  // Nor does it hold an empty string that will be taken for NULL.
  predicate Keeps(col: seq<Value>) { OneSign(col) && NilString !in col }

  // What the client should find for a value.
  function Exact(v: Value): (r: FieldValue)
  {
    match v
    case NilString => FString([])
    case Int(i) => FSigned(i)
    case Uint(u) => FUnsigned(u)
    case Float(text) => FFloat(text)
    case Str(s) => FString(s)
    case _ => FNull
  }

  // In such columns every value fits and comes back as what it was.
  lemma KeptIsExact(names: seq<seq<byte>>, rows: seq<seq<Value>>, i: nat)
    requires AllInRange(rows) && Buildable(|names|, rows) && i < |rows|
    requires forall j :: 0 <= j < |names| ==> Keeps(Column(rows, |names|, j))
    ensures var fields := FieldsFor(names, rows);
            && FitsAll(fields, rows[i])
            && BackAll(fields, rows[i]) == seq(|names|, j requires 0 <= j < |names| => Exact(rows[i][j]))
  {
    var fields := FieldsFor(names, rows);
    forall j | 0 <= j < |names|
      ensures FitsColumn(fields[j], rows[i][j]) && Back(fields[j], rows[i][j]) == Exact(rows[i][j])
    {
      var col := Column(rows, |names|, j);
      assert Keeps(col) && Consistent(col) && col[i] == rows[i][j] && rows[i][j] in col;
      FirstTypedIn(col);
    }
  }

  // Any other column has a value that does not come back as what it was, if it comes
  // back at all.
  lemma NotKept(names: seq<seq<byte>>, rows: seq<seq<Value>>, j: nat) returns (i: nat)
    requires Buildable(|names|, rows) && j < |names| && !Keeps(Column(rows, |names|, j))
    ensures i < |rows|
    ensures var f, v := FieldsFor(names, rows)[j], rows[i][j];
            FitsColumn(f, v) ==> Back(f, v) != Exact(v)
  {
    var col := Column(rows, |names|, j);
    if NilString in col {
      i :| 0 <= i < |col| && col[i] == NilString;
    } else {
      var u, v :| u in col && v in col && u.Int? && v.Uint?;
      FirstTypedIn(col);
      assert FieldType(u) == FieldType(FirstTyped(col)) by { assert Consistent(col); }
      var wrong := if FirstTyped(col).Int? then v else u;
      i :| 0 <= i < |col| && col[i] == wrong;
    }
  }

  // The columns as MySQL knows them: LONGLONG, DOUBLE or VAR_STRING, numbers in the binary
  // character set and flagged BINARY and NOT NULL, strings in utf8, and a column of
  // NULLs only of type NULL.
  lemma DeclaredAs(name: seq<byte>, v: Value)
    requires v != Unsupported
    ensures var f := Declared(name, v);
            && f.name == name && f.schema == f.table == f.orgTable == f.orgName == []
            && f.columnLength == 0 && f.decimal == 0 && f.defaultValueLength == 0 && f.defaultValue == None
            && f.typ == (match v
                         case Null => 6
                         case Int(_) => 8
                         case Uint(_) => 8
                         case Float(_) => 5
                         case _ => 253)
            && f.charset == (if v.Int? || v.Uint? || v.Float? then 63 else 33)
            && f.flag == (if v.Uint? then 1 + 32 + 128 else if v.Int? || v.Float? then 1 + 128 else 0)
            && (IsUnsigned(f) <==> v.Uint?)
  {
  }
}
