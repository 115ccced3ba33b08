/**
  Loading data frames into DuckDB for PRQL queries: `createTables` issues one
  `create or replace table` statement per frame, and `AppendAll` then
  appends every row of every frame to its table.

  The database itself (opening it, running a statement, the connector and
  its appender) is outside the model: each call's success is an oracle in
  `DuckDbIo`, and the statements sent and rows appended are returned as
  sequences.
 */
module DuckDb {
  import opened Wrappers

  /** The field types of the plugin SDK's data frames. */
  datatype FieldType =
    | Bool | NullableBool
    | Float32 | Float64 | NullableFloat32 | NullableFloat64
    | Int8 | Int16 | Int32 | NullableInt8 | NullableInt16 | NullableInt32
    | Int64 | NullableInt64
    | Uint8 | Uint16 | Uint32 | NullableUint8 | NullableUint16 | NullableUint32
    | Uint64 | NullableUint64
    | String | NullableString
    | Time | NullableTime
    | Json | NullableJson
    | Unknown

  /** A cell value; its content plays no part in the model beyond being copied. */
  datatype Value = NullValue | BoolValue(b: bool) | NumberValue(n: int) | StringValue(s: string)

  datatype Field = Field(name: string, fieldType: FieldType, values: seq<Value>)

  datatype Frame = Frame(name: string, refId: string, fields: seq<Field>)

  /** `Frame.Rows()`: the length of the first field, 0 for a frame with no fields. */
  function Rows(f: Frame): nat {
    if |f.fields| > 0 then |f.fields[0].values| else 0
  }

  /** Every field has a value at each row index `At` is called with (otherwise `At` panics). */
  predicate HasAllRows(f: Frame) {
    forall j :: 0 <= j < |f.fields| ==> Rows(f) <= |f.fields[j].values|
  }

  /** The table a frame is loaded into: its RefID, or its Name when the RefID is empty. */
  function TableName(f: Frame): (r: string)
    ensures f.refId != "" ==> r == f.refId
    ensures f.refId == "" ==> r == f.name
  {
    if f.refId == "" then f.name else f.refId
  }

  // ---------------------------------------------------------------------------
  // The DDL statement.

  // The nine type groups `createTables` tests, in its order.
  predicate IsBooleanType(t: FieldType) { t.Bool? || t.NullableBool? }
  predicate IsDoubleType(t: FieldType) { t.Float32? || t.Float64? || t.NullableFloat32? || t.NullableFloat64? }
  predicate IsIntegerType(t: FieldType) {
    t.Int8? || t.Int16? || t.Int32? || t.NullableInt8? || t.NullableInt16? || t.NullableInt32?
  }
  predicate IsBigintType(t: FieldType) { t.Int64? || t.NullableInt64? }
  predicate IsUintegerType(t: FieldType) {
    t.Uint8? || t.Uint16? || t.Uint32? || t.NullableUint8? || t.NullableUint16? || t.NullableUint32?
  }
  predicate IsUbigintType(t: FieldType) { t.Uint64? || t.NullableUint64? }
  predicate IsVarcharType(t: FieldType) { t.String? || t.NullableString? }
  predicate IsTimestampType(t: FieldType) { t.Time? || t.NullableTime? }
  predicate IsBlobType(t: FieldType) { t.Unknown? }

  /** The number of type groups `createTables` tests. */
  const GroupCount: nat := 9

  /** Whether `t` is in group `g`, the groups numbered in the order `createTables` tests them. */
  predicate InGroup(g: nat, t: FieldType) {
    match g
    case 0 => IsBooleanType(t)
    case 1 => IsDoubleType(t)
    case 2 => IsIntegerType(t)
    case 3 => IsBigintType(t)
    case 4 => IsUintegerType(t)
    case 5 => IsUbigintType(t)
    case 6 => IsVarcharType(t)
    case 7 => IsTimestampType(t)
    case 8 => IsBlobType(t)
    case _ => false
  }

  /** The DuckDB column type group `g` appends. */
  function GroupKeyword(g: nat): string {
    match g
    case 0 => "BOOLEAN"
    case 1 => "DOUBLE"
    case 2 => "INTEGER"
    case 3 => "BIGINT"
    case 4 => "UINTEGER"
    case 5 => "UBIGINT"
    case 6 => "VARCHAR"
    case 7 => "TIMESTAMP"
    case _ => "BLOB"
  }

  /** A space and the keyword of the first group from `g` on that holds `t`, or nothing. */
  function SuffixFrom(g: nat, t: FieldType): string
    decreases GroupCount - g
  {
    if g >= GroupCount then ""
    else if InGroup(g, t) then " " + GroupKeyword(g)
    else SuffixFrom(g + 1, t)
  }

  /** What follows a column name: a space and its DuckDB type, or nothing for a type with none. */
  function TypeSuffix(t: FieldType): string {
    SuffixFrom(0, t)
  }

  /** The index of the one group holding `t`, `GroupCount` for the JSON types. */
  function GroupOf(t: FieldType): nat {
    match t
    case Bool | NullableBool => 0
    case Float32 | Float64 | NullableFloat32 | NullableFloat64 => 1
    case Int8 | Int16 | Int32 | NullableInt8 | NullableInt16 | NullableInt32 => 2
    case Int64 | NullableInt64 => 3
    case Uint8 | Uint16 | Uint32 | NullableUint8 | NullableUint16 | NullableUint32 => 4
    case Uint64 | NullableUint64 => 5
    case String | NullableString => 6
    case Time | NullableTime => 7
    case Unknown => 8
    case Json | NullableJson => GroupCount
  }

  /** The groups are disjoint: `t` is in group `GroupOf(t)` and in no other. */
  lemma GroupsDisjoint(t: FieldType)
    ensures GroupOf(t) <= GroupCount
    ensures forall g :: 0 <= g < GroupCount ==> (InGroup(g, t) <==> g == GroupOf(t))
  {
  }

  /** Searching from any group up to `t`'s own finds that group's keyword, or nothing for JSON. */
  lemma {:induction false} SuffixFromGroup(g: nat, t: FieldType)
    requires g <= GroupOf(t)
    ensures SuffixFrom(g, t) == if GroupOf(t) < GroupCount then " " + GroupKeyword(GroupOf(t)) else ""
    decreases GroupCount - g
  {
    GroupsDisjoint(t);
    if g < GroupCount && g != GroupOf(t) {
      SuffixFromGroup(g + 1, t);
    }
  }

  /**
    The suffix of a type is its group's keyword after a space, and nothing
    for the JSON types, which are in no group; nullable types share the
    group of their base type.
   */
  lemma TypeGroups(t: FieldType)
    ensures TypeSuffix(t) == if GroupOf(t) < GroupCount then " " + GroupKeyword(GroupOf(t)) else ""
    ensures GroupOf(t) == GroupCount <==> t.Json? || t.NullableJson?
    ensures forall g :: 0 <= g < GroupCount ==> (InGroup(g, t) <==> g == GroupOf(t))
  {
    SuffixFromGroup(0, t);
    GroupsDisjoint(t);
  }

  /**
    The nine independent `if`s of `createTables` after a column name. The
    type groups are disjoint, so at most one of them appends, and what it
    appends is the keyword `TypeSuffix` names.
   */
  method AppendColumnType(createTable: string, t: FieldType) returns (r: string)
    ensures r == createTable + TypeSuffix(t)
  {
    TypeGroups(t);
    ghost var g := GroupOf(t);
    assert IsBooleanType(t) == InGroup(0, t) && IsDoubleType(t) == InGroup(1, t) && IsIntegerType(t) == InGroup(2, t);
    assert IsBigintType(t) == InGroup(3, t) && IsUintegerType(t) == InGroup(4, t) && IsUbigintType(t) == InGroup(5, t);
    assert IsVarcharType(t) == InGroup(6, t) && IsTimestampType(t) == InGroup(7, t) && IsBlobType(t) == InGroup(8, t);
    r := createTable;
    if IsBooleanType(t) {
      r := r + (" " + "BOOLEAN");
    }
    if IsDoubleType(t) {
      r := r + (" " + "DOUBLE");
    }
    if IsIntegerType(t) {
      r := r + (" " + "INTEGER");
    }
    if IsBigintType(t) {
      r := r + (" " + "BIGINT");
    }
    if IsUintegerType(t) {
      r := r + (" " + "UINTEGER");
    }
    if IsUbigintType(t) {
      r := r + (" " + "UBIGINT");
    }
    if IsVarcharType(t) {
      r := r + (" " + "VARCHAR");
    }
    if IsTimestampType(t) {
      r := r + (" " + "TIMESTAMP");
    }
    if IsBlobType(t) {
      r := r + (" " + "BLOB");
    }
  }

  function ColumnDef(fld: Field): string {
    fld.name + TypeSuffix(fld.fieldType)
  }

  const CreateTablePrefix: string := "create or replace table "
  const ColumnSeparator: string := " ,"

  /** The column definitions, one per field, in field order. */
  function ColumnDefs(fields: seq<Field>): (r: seq<string>)
    ensures |r| == |fields|
  {
    if fields == [] then [] else ColumnDefs(fields[..|fields| - 1]) + [ColumnDef(fields[|fields| - 1])]
  }

  lemma {:induction false} ColumnDefAt(fields: seq<Field>, j: nat)
    requires j < |fields|
    ensures ColumnDefs(fields)[j] == ColumnDef(fields[j])
    decreases |fields|
  {
    var init := fields[..|fields| - 1];
    if j < |init| {
      ColumnDefAt(init, j);
      assert init[j] == fields[j];
    }
  }

  /** The parts in order, `ColumnSeparator` between two neighbours. */
  function Join(parts: seq<string>): string {
    if |parts| == 0 then ""
    else if |parts| == 1 then parts[0]
    else Join(parts[..|parts| - 1]) + ColumnSeparator + parts[|parts| - 1]
  }

  /** The statement `createTables` sends for one frame. */
  function CreateTableSql(f: Frame): string {
    CreateTablePrefix + TableName(f) + " (" + Join(ColumnDefs(f.fields)) + ")"
  }

  /**
    The statement's shape: the prefix, the table name and " (", then ")" at
    the end; with no fields the parentheses are empty, and one field gives
    one column definition.
   */
  lemma CreateTableSqlShape(f: Frame)
    ensures CreateTablePrefix + TableName(f) + " (" <= CreateTableSql(f)
    ensures CreateTableSql(f)[|CreateTableSql(f)| - 1] == ')'
    ensures f.fields == [] ==> CreateTableSql(f) == CreateTablePrefix + TableName(f) + " ()"
    ensures |f.fields| == 1 ==> CreateTableSql(f) == CreateTablePrefix + TableName(f) + " (" + ColumnDef(f.fields[0]) + ")"
  {
    if |f.fields| == 1 {
      ColumnDefAt(f.fields, 0);
    }
  }

  /** Joining one more part after a fixed head: the separator unless it is the first, then the part. */
  lemma JoinStep(head: string, parts: seq<string>, j: nat, before: string)
    requires j < |parts|
    requires before == if j == 0 then "" else ColumnSeparator
    ensures head + Join(parts[..j]) + before + parts[j] == head + Join(parts[..j + 1])
  {
    var next := parts[..j + 1];
    assert next[..j] == parts[..j];
    assert next[j] == parts[j];
  }

  /** One turn of the field loop: the separator, the column name, then its type. */
  method AppendColumn(createTable: string, sep: string, fields: seq<Field>, j: nat) returns (r: string)
    requires j < |fields|
    ensures r == createTable + sep + ColumnDefs(fields)[j]
  {
    var fld := fields[j];
    r := createTable + sep;
    r := r + fld.name;
    r := AppendColumnType(r, fld.fieldType);
    ColumnDefAt(fields, j);
  }

  /** `createTable` built with `+=` over the fields, `sep` empty before the first column. */
  method BuildCreateTable(f: Frame) returns (createTable: string)
    ensures createTable == CreateTableSql(f)
  {
    var name := f.refId;
    if name == "" {
      name := f.name;
    }
    createTable := CreateTablePrefix + name + " (";
    ghost var head := createTable;
    ghost var defs := ColumnDefs(f.fields);
    var sep := "";
    var j := 0;
    while j < |f.fields|
      invariant 0 <= j <= |f.fields|
      invariant sep == if j == 0 then "" else ColumnSeparator
      invariant createTable == head + Join(defs[..j])
    {
      JoinStep(head, defs, j, sep);
      createTable := AppendColumn(createTable, sep, f.fields, j);
      sep := ColumnSeparator;
      j := j + 1;
    }
    assert defs[..j] == defs;
    createTable := createTable + ")";
  }

  /** The statement of each frame, in frame order. */
  function Statements(frames: seq<Frame>): (r: seq<string>)
    ensures |r| == |frames|
  {
    if frames == [] then [] else Statements(frames[..|frames| - 1]) + [CreateTableSql(frames[|frames| - 1])]
  }

  lemma {:induction false} StatementAt(frames: seq<Frame>, i: nat)
    requires i < |frames|
    ensures Statements(frames)[i] == CreateTableSql(frames[i])
    decreases |frames|
  {
    var init := frames[..|frames| - 1];
    if i < |init| {
      StatementAt(init, i);
      assert init[i] == frames[i];
    }
  }

  /** `createTables` builds the statement of frame `i` when it reaches it. */
  method NextStatement(frames: seq<Frame>, i: nat) returns (createTable: string)
    requires i < |frames|
    ensures createTable == Statements(frames)[i]
  {
    createTable := BuildCreateTable(frames[i]);
    StatementAt(frames, i);
  }

  /**
    A run over `stmts` that stops at the first failure: what was sent is a
    prefix of `stmts`, everything but its last element succeeded, and it
    ends early only on a failure.
   */
  ghost predicate IsRun(stmts: seq<string>, queryOk: iset<string>, sent: seq<string>) {
    && sent <= stmts
    && (forall i :: 0 <= i < |sent| - 1 ==> sent[i] in queryOk)
    && (|sent| < |stmts| ==> |sent| > 0 && sent[|sent| - 1] !in queryOk)
  }

  predicate AllSucceed(stmts: seq<string>, queryOk: iset<string>) {
    forall i :: 0 <= i < |stmts| ==> stmts[i] in queryOk
  }

  /** What a `createTables` run sent: the frames' statements in order, stopping right after the first failure. */
  ghost predicate IsCreateTablesRun(frames: seq<Frame>, queryOk: iset<string>, executed: seq<string>) {
    IsRun(Statements(frames), queryOk, executed)
  }

  predicate AllTablesCreated(frames: seq<Frame>, queryOk: iset<string>) {
    AllSucceed(Statements(frames), queryOk)
  }

  /** After `i` successes, a failing statement `i` ends the run. */
  lemma RunStops(stmts: seq<string>, queryOk: iset<string>, i: nat)
    requires i < |stmts| && AllSucceed(stmts[..i], queryOk) && stmts[i] !in queryOk
    ensures IsRun(stmts, queryOk, stmts[..i + 1])
    ensures !AllSucceed(stmts, queryOk)
  {
    var sent := stmts[..i + 1];
    forall k | 0 <= k < |sent| - 1
      ensures sent[k] in queryOk
    {
      assert sent[k] == stmts[..i][k];
    }
  }

  /** A success at `i` extends the successful prefix. */
  lemma RunContinues(stmts: seq<string>, queryOk: iset<string>, i: nat)
    requires i < |stmts| && AllSucceed(stmts[..i], queryOk) && stmts[i] in queryOk
    ensures AllSucceed(stmts[..i + 1], queryOk)
  {
    var sent := stmts[..i + 1];
    forall k | 0 <= k < |sent|
      ensures sent[k] in queryOk
    {
      if k < i {
        assert sent[k] == stmts[..i][k];
      }
    }
  }

  /**
    A run sends every statement exactly when all of them succeed; otherwise
    the last statement it sent is the first one that failed.
   */
  lemma RunOutcome(stmts: seq<string>, queryOk: iset<string>, sent: seq<string>)
    requires IsRun(stmts, queryOk, sent)
    ensures AllSucceed(stmts, queryOk) ==> sent == stmts
    ensures !AllSucceed(stmts, queryOk) ==> |sent| > 0 && sent[|sent| - 1] !in queryOk
    ensures !AllSucceed(stmts, queryOk) ==> forall i :: 0 <= i < |sent| - 1 ==> stmts[i] in queryOk
  {
    if |sent| == |stmts| {
      assert sent == stmts;
      if !AllSucceed(stmts, queryOk) {
        var k :| 0 <= k < |stmts| && stmts[k] !in queryOk;
        assert k == |sent| - 1;
      }
    }
    forall i | 0 <= i < |sent| - 1
      ensures stmts[i] in queryOk
    {
      assert sent[i] == stmts[i];
    }
  }

  /** `createTables`: one statement per frame; the first failing statement ends the run with its error. */
  method CreateTables(frames: seq<Frame>, queryOk: iset<string>) returns (executed: seq<string>, ok: bool)
    ensures IsCreateTablesRun(frames, queryOk, executed)
    ensures ok <==> AllTablesCreated(frames, queryOk)
  {
    ghost var stmts := Statements(frames);
    executed := [];
    var i := 0;
    while i < |frames|
      invariant 0 <= i <= |frames|
      invariant executed == stmts[..i]
      invariant AllSucceed(executed, queryOk)
    {
      var createTable := NextStatement(frames, i);
      if createTable !in queryOk {
        RunStops(stmts, queryOk, i);
        executed := executed + [createTable];
        assert executed == stmts[..i + 1];
        return executed, false;
      }
      RunContinues(stmts, queryOk, i);
      executed := executed + [createTable];
      assert executed == stmts[..i + 1];
      i := i + 1;
    }
    assert executed == stmts;
    return executed, true;
  }

  // ---------------------------------------------------------------------------
  // Row flattening.

  /** Row `i` of a frame: one value per field, in field order. */
  function RowAt(f: Frame, i: nat): (row: seq<Value>)
    requires HasAllRows(f) && i < Rows(f)
    ensures |row| == |f.fields| && forall j :: 0 <= j < |f.fields| ==> row[j] == f.fields[j].values[i]
  {
    seq(|f.fields|, j requires 0 <= j < |f.fields| => f.fields[j].values[i])
  }

  datatype TableRow = TableRow(table: string, row: seq<Value>)

  /** The rows of one frame, in row order, tagged with its table. */
  function FrameRows(f: Frame): (r: seq<TableRow>)
    requires HasAllRows(f)
    ensures |r| == Rows(f) && forall i :: 0 <= i < Rows(f) ==> r[i] == TableRow(TableName(f), RowAt(f, i))
  {
    seq(Rows(f), i requires 0 <= i < Rows(f) => TableRow(TableName(f), RowAt(f, i)))
  }

  predicate AllHaveRows(frames: seq<Frame>) {
    forall k :: 0 <= k < |frames| ==> HasAllRows(frames[k])
  }

  /** Every row of every frame, frame after frame. */
  function AllRows(frames: seq<Frame>): seq<TableRow>
    requires AllHaveRows(frames)
  {
    if frames == [] then [] else AllRows(frames[..|frames| - 1]) + FrameRows(frames[|frames| - 1])
  }

  /** The rows of a later frame follow all rows of the earlier ones. */
  lemma {:induction false} AllRowsSplit(frames: seq<Frame>, k: nat)
    requires AllHaveRows(frames) && k <= |frames|
    ensures AllRows(frames[..k]) <= AllRows(frames)
    ensures k < |frames| ==> AllRows(frames[..k]) + FrameRows(frames[k]) <= AllRows(frames)
    decreases |frames| - k
  {
    if k < |frames| {
      AllRowsSplit(frames, k + 1);
      assert frames[..k + 1][..k] == frames[..k];
    } else {
      assert frames[..k] == frames;
    }
  }

  /** The oracles standing for the database calls of `AppendAll`. */
  datatype DuckDbIo = DuckDbIo(
    openOk: bool,
    queryOk: iset<string>,
    connectOk: bool,
    appenderOk: iset<string>,
    appendRowOk: iset<TableRow>)

  datatype AppendError = OpenFailed | ConnectFailed | AppenderFailed(table: string) | AppendRowFailed(table: string)

  /** The frame's appender opens and every one of its rows is accepted. */
  predicate FrameAppends(f: Frame, io: DuckDbIo)
    requires HasAllRows(f)
  {
    TableName(f) in io.appenderOk && forall i :: 0 <= i < Rows(f) ==> FrameRows(f)[i] in io.appendRowOk
  }

  predicate AppendsSucceed(frames: seq<Frame>, io: DuckDbIo)
    requires AllHaveRows(frames)
  {
    forall k :: 0 <= k < |frames| ==> FrameAppends(frames[k], io)
  }

  /** Every row in `rows` was accepted by its appender. */
  predicate AllAccepted(rows: seq<TableRow>, io: DuckDbIo) {
    forall m :: 0 <= m < |rows| ==> rows[m] in io.appendRowOk
  }

  lemma AllAcceptedAppend(a: seq<TableRow>, b: seq<TableRow>, io: DuckDbIo)
    requires AllAccepted(a, io) && AllAccepted(b, io)
    ensures AllAccepted(a + b, io)
  {
    var ab := a + b;
    forall m | 0 <= m < |ab|
      ensures ab[m] in io.appendRowOk
    {
      if m < |a| {
        assert ab[m] == a[m];
      } else {
        assert ab[m] == b[m - |a|];
      }
    }
  }

  /** The inner loop of `AppendAll`: `ff.At(i)` for each field, in field order. */
  method ReadRow(f: Frame, i: nat) returns (row: seq<Value>)
    requires HasAllRows(f) && i < Rows(f)
    ensures row == RowAt(f, i)
  {
    row := [];
    var j := 0;
    while j < |f.fields|
      invariant 0 <= j <= |f.fields|
      invariant row == RowAt(f, i)[..j]
    {
      var val := f.fields[j].values[i];
      row := row + [val];
      j := j + 1;
    }
  }

  /** The row loop of `AppendAll` for one frame: rows 0 to Rows()-1, up to the first rejected one. */
  method AppendFrameRows(f: Frame, name: string, io: DuckDbIo) returns (rows: seq<TableRow>, ok: bool)
    requires HasAllRows(f) && name == TableName(f)
    ensures ok <==> forall i :: 0 <= i < Rows(f) ==> FrameRows(f)[i] in io.appendRowOk
    ensures ok ==> rows == FrameRows(f)
    ensures !ok ==> |rows| < Rows(f) && FrameRows(f)[|rows|] !in io.appendRowOk
    ensures rows <= FrameRows(f)
    ensures AllAccepted(rows, io)
  {
    rows := [];
    var i := 0;
    while i < Rows(f)
      invariant 0 <= i <= Rows(f)
      invariant rows == FrameRows(f)[..i]
      invariant forall m :: 0 <= m < i ==> FrameRows(f)[m] in io.appendRowOk
    {
      var row := ReadRow(f, i);
      if TableRow(name, row) !in io.appendRowOk {
        return rows, false;
      }
      assert FrameRows(f)[..i + 1] == FrameRows(f)[..i] + [TableRow(name, row)];
      rows := rows + [TableRow(name, row)];
      i := i + 1;
    }
    assert FrameRows(f)[..i] == FrameRows(f);
    return rows, true;
  }

  /** The appends of the frames before `k` and of frame `k` make those of the frames up to `k`. */
  lemma AppendsSucceedStep(frames: seq<Frame>, k: nat, io: DuckDbIo)
    requires AllHaveRows(frames) && k < |frames|
    requires AppendsSucceed(frames[..k], io) && FrameAppends(frames[k], io)
    ensures AppendsSucceed(frames[..k + 1], io)
  {
    var upTo := frames[..k + 1];
    forall m | 0 <= m < |upTo|
      ensures FrameAppends(upTo[m], io)
    {
      if m < k {
        assert upTo[m] == frames[..k][m];
      }
    }
  }

  /** A frame whose appends fail makes the whole load fail. */
  lemma AppendsStop(frames: seq<Frame>, k: nat, io: DuckDbIo)
    requires AllHaveRows(frames) && k < |frames| && !FrameAppends(frames[k], io)
    ensures !AppendsSucceed(frames, io)
  {
  }

  /**
    The frame loop stopped at frame `k` after `j` of its rows: every earlier
    frame was loaded in full, then either frame `k`'s appender could not be
    opened (and none of its rows went in) or its row `j` was rejected after
    rows 0 to j-1 went in.
   */
  ghost predicate StoppedAt(frames: seq<Frame>, io: DuckDbIo, k: nat, j: nat, appended: seq<TableRow>, err: Option<AppendError>)
    requires AllHaveRows(frames)
  {
    && k < |frames|
    && AppendsSucceed(frames[..k], io)
    && j <= Rows(frames[k])
    && appended == AllRows(frames[..k]) + FrameRows(frames[k])[..j]
    && (if TableName(frames[k]) !in io.appenderOk
        then j == 0 && err == Some(AppenderFailed(TableName(frames[k])))
        else j < Rows(frames[k]) && FrameRows(frames[k])[j] !in io.appendRowOk
             && err == Some(AppendRowFailed(TableName(frames[k]))))
  }

  /** The frame loop of `AppendAll`: an appender per table, then its rows, up to the first failure. */
  method AppendFrames(frames: seq<Frame>, io: DuckDbIo) returns (appended: seq<TableRow>, err: Option<AppendError>)
    requires AllHaveRows(frames)
    ensures err.None? <==> AppendsSucceed(frames, io)
    ensures err.None? ==> appended == AllRows(frames)
    ensures err.Some? ==> err.value.AppenderFailed? || err.value.AppendRowFailed?
    ensures err.Some? ==> exists k, j :: StoppedAt(frames, io, k, j, appended, err)
    ensures appended <= AllRows(frames)
    ensures AllAccepted(appended, io)
  {
    AllRowsSplit(frames, 0);
    appended := [];
    var k := 0;
    while k < |frames|
      invariant 0 <= k <= |frames|
      invariant appended == AllRows(frames[..k])
      invariant AppendsSucceed(frames[..k], io)
      invariant AllAccepted(appended, io)
    {
      AllRowsSplit(frames, k);
      var f := frames[k];
      var name := f.refId;
      if name == "" {
        name := f.name;
      }
      if name !in io.appenderOk {
        AppendsStop(frames, k, io);
        assert appended + FrameRows(f)[..0] == appended;
        assert StoppedAt(frames, io, k, 0, appended, Some(AppenderFailed(name)));
        return appended, Some(AppenderFailed(name));
      }
      var rows, ok := AppendFrameRows(f, name, io);
      AllAcceptedAppend(appended, rows, io);
      if !ok {
        AppendsStop(frames, k, io);
        assert rows == FrameRows(f)[..|rows|];
        assert StoppedAt(frames, io, k, |rows|, appended + rows, Some(AppendRowFailed(name)));
        return appended + rows, Some(AppendRowFailed(name));
      }
      assert frames[..k + 1][..k] == frames[..k];
      AppendsSucceedStep(frames, k, io);
      appended := appended + rows;
      k := k + 1;
    }
    assert frames[..k] == frames;
    return appended, None;
  }

  /**
    `AppendAll`. The result of `createTables` is ignored: whether the rows go
    in does not depend on it. Rows are appended frame by frame in row order
    until the first failing call.
   */
  method AppendAll(frames: seq<Frame>, io: DuckDbIo)
    returns (executed: seq<string>, appended: seq<TableRow>, err: Option<AppendError>)
    requires AllHaveRows(frames)
    ensures !io.openOk ==> err == Some(OpenFailed) && executed == [] && appended == []
    ensures io.openOk ==> IsCreateTablesRun(frames, io.queryOk, executed)
    ensures io.openOk && !io.connectOk ==> err == Some(ConnectFailed) && appended == []
    ensures err.None? <==> io.openOk && io.connectOk && AppendsSucceed(frames, io)
    ensures err.None? ==> appended == AllRows(frames)
    ensures io.openOk && io.connectOk && err.Some? ==> exists k, j :: StoppedAt(frames, io, k, j, appended, err)
    ensures appended <= AllRows(frames)
    ensures AllAccepted(appended, io)
  {
    AllRowsSplit(frames, 0);
    executed, appended := [], [];
    if !io.openOk {
      return executed, appended, Some(OpenFailed);
    }
    var tablesOk;
    executed, tablesOk := CreateTables(frames, io.queryOk);
    if !io.connectOk {
      return executed, appended, Some(ConnectFailed);
    }
    appended, err := AppendFrames(frames, io);
  }
}
