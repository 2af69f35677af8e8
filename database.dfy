/** The database side of a project: the DSN read from `.env`, the open
    connection, the statements built for creating and dropping tables, the
    rows a query returns, and the SQL editor's saved-query history. */
module Database {
  import opened Wrappers
  import opened Text
  import opened GoMaps
  import opened ServerEnv

  const DsnKey: string := "DSN="

  /** What `GetDSN` returns for the file: the trimmed value of the first
      `DSN=` line the scanner reaches, or an error. A scan that stops with an
      error is not reported as such: the lines after it are simply not seen. */
  function DsnOf(env: EnvFile): Result<string> {
    match env
    case Missing => Err("⚠️ .env file not found")
    case Unopenable => Err("❌ Failed to open .env file")
    case _ =>
      (match FirstValue(ScannedLines(env), DsnKey)
       case Some(dsn) => Ok(dsn)
       case None => Err("⚠️ DSN not found in .env file"))
  }

  /** A DSN is found exactly when some trimmed line the scanner reaches
      starts with `DSN=`; it is the value of the earliest such line. */
  lemma DsnFound(env: EnvFile)
    ensures DsnOf(env).Ok? <==> AnyKeyLine(ScannedLines(env), DsnKey)
    ensures !env.Missing? && !env.Unopenable? ==>
              var ts := ScannedLines(env);
              forall k :: 0 <= k < |ts| && IsKeyLine(ts[k], DsnKey) && (forall j :: 0 <= j < k ==> !IsKeyLine(ts[j], DsnKey)) ==>
                DsnOf(env) == Ok(TrimSpace(TrimPrefix(ts[k], DsnKey)))
  {
    if !env.Missing? && !env.Unopenable? {
      var ts := ScannedLines(env);
      forall k | 0 <= k < |ts| && IsKeyLine(ts[k], DsnKey) && (forall j :: 0 <= j < k ==> !IsKeyLine(ts[j], DsnKey))
        ensures DsnOf(env) == Ok(TrimSpace(TrimPrefix(ts[k], DsnKey)))
      {
        FirstValueIsEarliest(ts, DsnKey, k);
      }
    }
  }

  /** `GetDSN`: scans the lines and returns at the first `DSN=` line. */
  method GetDSN(env: EnvFile) returns (dsn: Result<string>)
    ensures dsn == DsnOf(env)
  {
    if env.Missing? {
      return Err("⚠️ .env file not found");
    }
    if env.Unopenable? {
      return Err("❌ Failed to open .env file");
    }
    var found := ScanFor(RawLines(env), DsnKey);
    dsn := if found.Some? then Ok(found.value) else Err("⚠️ DSN not found in .env file");
  }

  /** `"col" type`. */
  function ColumnDef(name: string, sqlType: string): string {
    "\"" + name + "\" " + sqlType
  }

  /** The column definitions, in the order the map was ranged over. */
  function ColumnDefs(order: seq<string>, columns: map<string, string>): (r: seq<string>)
    requires forall c :: c in order ==> c in columns
    ensures |r| == |order|
    ensures forall k :: 0 <= k < |order| ==> r[k] == ColumnDef(order[k], columns[order[k]])
  {
    if order == [] then []
    else ColumnDefs(order[..|order| - 1], columns) + [ColumnDef(order[|order| - 1], columns[order[|order| - 1]])]
  }

  function CreateHead(tableName: string): string {
    "CREATE TABLE IF NOT EXISTS \"" + tableName + "\" ("
  }

  /** The statement `CreateTable` runs. */
  function CreateStatement(tableName: string, order: seq<string>, columns: map<string, string>): string
    requires forall c :: c in order ==> c in columns
  {
    CreateHead(tableName) + Join(ColumnDefs(order, columns), ", ") + ");"
  }

  /** The statement names the quoted table and defines every column of the
      map with its type. */
  lemma CreateStatementColumns(tableName: string, order: seq<string>, columns: map<string, string>)
    requires Enumerates(order, columns.Keys)
    ensures StartsWith(CreateStatement(tableName, order, columns), CreateHead(tableName))
    ensures forall c :: c in columns ==> Contains(CreateStatement(tableName, order, columns), ColumnDef(c, columns[c]))
  {
    var defs := ColumnDefs(order, columns);
    var stmt := CreateStatement(tableName, order, columns);
    assert stmt[..|CreateHead(tableName)|] == CreateHead(tableName);
    forall c | c in columns
      ensures Contains(stmt, ColumnDef(c, columns[c]))
    {
      var k :| 0 <= k < |order| && order[k] == c;
      JoinContains(defs, ", ", k);
      ContainsConcat(CreateHead(tableName), Join(defs, ", "), defs[k]);
      ContainsConcat(CreateHead(tableName) + Join(defs, ", "), ");", defs[k]);
    }
  }

  /** The statement `DropTable` runs. */
  function DropStatement(tableName: string): (r: string)
    ensures StartsWith(r, "DROP TABLE IF EXISTS \"")
    ensures r[|"DROP TABLE IF EXISTS \""|..] == tableName + "\" CASCADE;"
  {
    var r := "DROP TABLE IF EXISTS \"" + tableName + "\" CASCADE;";
    assert r[..|"DROP TABLE IF EXISTS \""|] == "DROP TABLE IF EXISTS \"";
    r
  }

  /** Dropping is not guarded against an empty name, unlike creating. */
  lemma DropTableAcceptsEmptyName()
    ensures DropStatement("") == "DROP TABLE IF EXISTS \"\" CASCADE;"
  {
  }

  /** One saved query of the SQL editor's history. */
  datatype SQLQuery = SQLQuery(id: string, timestamp: string, query: string)

  /** The history file as the backend finds it. */
  datatype HistoryFile = NoHistory | Unreadable | Malformed | Stored(queries: seq<SQLQuery>)

  /** `GetSQLHistory`: a missing file is an empty history. */
  function LoadHistory(f: HistoryFile): (r: Result<seq<SQLQuery>>)
    ensures r.Ok? <==> f.NoHistory? || f.Stored?
    ensures f.NoHistory? ==> r == Ok([])
  {
    match f
    case NoHistory => Ok([])
    case Unreadable => Err("❌ Failed to read SQL history")
    case Malformed => Err("❌ Failed to parse SQL history")
    case Stored(queries) => Ok(queries)
  }

  /** `SaveSQLQuery`: the history to write back, the new entry appended and
      the existing ones unchanged; the id and the time are given. */
  function SaveSQLQuery(f: HistoryFile, id: string, timestamp: string, query: string): (r: Result<seq<SQLQuery>>)
    ensures r.Ok? <==> LoadHistory(f).Ok?
    ensures r.Ok? ==> |r.value| == |LoadHistory(f).value| + 1 && r.value[..|r.value| - 1] == LoadHistory(f).value
                      && r.value[|r.value| - 1] == SQLQuery(id, timestamp, query)
  {
    match LoadHistory(f)
    case Ok(queries) => Ok(queries + [SQLQuery(id, timestamp, query)])
    case Err(msg) => Err(msg)
  }

  /** The entries whose id differs, in order. */
  function WithoutId(queries: seq<SQLQuery>, id: string): (r: seq<SQLQuery>)
    ensures |r| <= |queries|
  {
    if queries == [] then []
    else WithoutId(queries[..|queries| - 1], id)
         + (if queries[|queries| - 1].id == id then [] else [queries[|queries| - 1]])
  }

  predicate HasId(queries: seq<SQLQuery>, id: string) {
    exists k :: 0 <= k < |queries| && queries[k].id == id
  }

  /** What `DeleteSQLQuery` writes back, or its error. */
  function DeleteResult(f: HistoryFile, id: string): Result<seq<SQLQuery>> {
    match LoadHistory(f)
    case Err(msg) => Err(msg)
    case Ok(queries) =>
      if HasId(queries, id) then Ok(WithoutId(queries, id)) else Err("⚠️ Query with ID " + id + " not found")
  }

  /** `DeleteSQLQuery`: the filtering loop with its `found` flag. */
  method DeleteSQLQuery(f: HistoryFile, id: string) returns (r: Result<seq<SQLQuery>>)
    ensures r == DeleteResult(f, id)
  {
    var history := LoadHistory(f);
    if history.Err? {
      return Err(history.msg);
    }
    var queries := history.value;
    var newQueries: seq<SQLQuery> := [];
    var found := false;
    var i := 0;
    while i < |queries|
      invariant i <= |queries|
      invariant newQueries == WithoutId(queries[..i], id)
      invariant found == HasId(queries[..i], id)
    {
      WithoutIdSnoc(queries, i, id);
      if queries[i].id == id {
        found := true;
      } else {
        newQueries := newQueries + [queries[i]];
      }
      i := i + 1;
    }
    assert queries[..i] == queries;
    if !found {
      return Err("⚠️ Query with ID " + id + " not found");
    }
    return Ok(newQueries);
  }

  lemma WithoutIdSnoc(queries: seq<SQLQuery>, i: nat, id: string)
    requires i < |queries|
    ensures WithoutId(queries[..i + 1], id) == WithoutId(queries[..i], id) + (if queries[i].id == id then [] else [queries[i]])
    ensures HasId(queries[..i + 1], id) == (HasId(queries[..i], id) || queries[i].id == id)
  {
    assert queries[..i + 1][..i] == queries[..i];
    if HasId(queries[..i + 1], id) && queries[i].id != id {
      var k :| 0 <= k < i + 1 && queries[..i + 1][k].id == id;
      assert queries[..i][k] == queries[k];
    }
    if HasId(queries[..i], id) {
      var k :| 0 <= k < i && queries[..i][k].id == id;
      assert queries[..i + 1][k] == queries[k];
    }
  }

  /** Deleting keeps exactly the entries with another id. */
  lemma {:induction false} WithoutIdExactly(queries: seq<SQLQuery>, id: string)
    ensures forall q :: q in WithoutId(queries, id) <==> q in queries && q.id != id
    decreases |queries|
  {
    if queries != [] {
      var n := |queries| - 1;
      WithoutIdExactly(queries[..n], id);
      assert queries == queries[..n] + [queries[n]];
    }
  }

  /** Deleting keeps the order of the entries left: it distributes over
      concatenation, and leaves a history without the id as it is. */
  lemma {:induction false} WithoutIdConcat(a: seq<SQLQuery>, b: seq<SQLQuery>, id: string)
    ensures WithoutId(a + b, id) == WithoutId(a, id) + WithoutId(b, id)
    decreases |b|
  {
    if b == [] {
      assert a + b == a;
    } else {
      var n := |b| - 1;
      var last := if b[n].id == id then [] else [b[n]];
      WithoutIdConcat(a, b[..n], id);
      assert (a + b)[..|a + b| - 1] == a + b[..n];
      assert (a + b)[|a + b| - 1] == b[n];
      assert WithoutId(a + b, id) == WithoutId(a + b[..n], id) + last;
      assert WithoutId(b, id) == WithoutId(b[..n], id) + last;
    }
  }

  lemma {:induction false} WithoutIdAbsent(queries: seq<SQLQuery>, id: string)
    requires !HasId(queries, id)
    ensures WithoutId(queries, id) == queries
    decreases |queries|
  {
    if queries != [] {
      var n := |queries| - 1;
      forall k | 0 <= k < n
        ensures queries[..n][k].id != id
      {
        assert queries[..n][k] == queries[k];
      }
      WithoutIdAbsent(queries[..n], id);
      assert queries[n].id != id;
    }
  }

  /** Saving a query under a fresh id and then deleting that id gives the
      history back. */
  lemma SaveThenDelete(queries: seq<SQLQuery>, id: string, timestamp: string, query: string)
    requires !HasId(queries, id)
    ensures SaveSQLQuery(Stored(queries), id, timestamp, query).Ok?
    ensures DeleteResult(Stored(SaveSQLQuery(Stored(queries), id, timestamp, query).value), id) == Ok(queries)
  {
    var saved := queries + [SQLQuery(id, timestamp, query)];
    assert saved[|queries|].id == id;
    assert HasId(saved, id);
    assert saved[..|saved| - 1] == queries;
    assert WithoutId(saved, id) == WithoutId(queries, id);
    WithoutIdAbsent(queries, id);
  }

  /** The connection state of the backend: whether it holds an open database. */
  class Connection {
    var open: bool

    constructor ()
      ensures !open
    {
      open := false;
    }

    /** `ConnectDB`: refuses a second connection; otherwise reads the DSN
      and keeps the connection only when opening and pinging succeed. */
    method ConnectDB(env: EnvFile, opens: bool, pings: bool) returns (err: Option<string>)
      modifies this
      ensures old(open) ==> err == Some("⚠️ Database connection already exists") && open
      ensures !old(open) && DsnOf(env).Err? ==> err == Some(DsnOf(env).msg) && !open
      ensures !old(open) && DsnOf(env).Ok? ==> (open <==> opens && pings) && (err.None? <==> open)
    {
      if open {
        return Some("⚠️ Database connection already exists");
      }
      var dsn := GetDSN(env);
      if dsn.Err? {
        return Some(dsn.msg);
      }
      if !opens {
        return Some("❌ Failed to connect to database");
      }
      if !pings {
        return Some("❌ Database ping failed");
      }
      open := true;
      return None;
    }

    /** `DisconnectDB`: nothing to do without a connection; a failed close
      keeps it. */
    method DisconnectDB(closes: bool) returns (err: Option<string>)
      modifies this
      ensures !old(open) ==> err.None? && !open
      ensures old(open) ==> (err.None? <==> closes) && (open <==> !closes)
    {
      if !open {
        return None;
      }
      if !closes {
        return Some("❌ Error closing database");
      }
      open := false;
      return None;
    }

    /** `CreateTable`: the statement it runs, or the first failed check in
      the order connection, table name, columns. */
    method CreateTable(tableName: string, columns: map<string, string>) returns (r: Result<string>)
      ensures !open ==> r == Err("⚠️ No active database connection")
      ensures open && tableName == "" ==> r == Err("❌ Table name cannot be empty")
      ensures open && tableName != "" && |columns| == 0 ==> r == Err("❌ At least one column is required")
      ensures open && tableName != "" && |columns| > 0 ==>
                exists order :: Enumerates(order, columns.Keys) && r == Ok(CreateStatement(tableName, order, columns))
    {
      if !open {
        return Err("⚠️ No active database connection");
      }
      if tableName == "" {
        return Err("❌ Table name cannot be empty");
      }
      if |columns| == 0 {
        return Err("❌ At least one column is required");
      }
      var order := EnumerateSet(columns.Keys);
      var columnDefs: seq<string> := [];
      var i := 0;
      while i < |order|
        invariant i <= |order|
        invariant columnDefs == ColumnDefs(order[..i], columns)
      {
        assert order[..i + 1][..i] == order[..i];
        columnDefs := columnDefs + [ColumnDef(order[i], columns[order[i]])];
        i := i + 1;
      }
      assert order[..i] == order;
      return Ok(CreateHead(tableName) + Join(columnDefs, ", ") + ");");
    }

    /** `DropTable`: the statement it runs, or the missing connection. */
    method DropTable(tableName: string) returns (r: Result<string>)
      ensures !open ==> r == Err("⚠️ No active database connection")
      ensures open ==> r == Ok(DropStatement(tableName))
    {
      if !open {
        return Err("⚠️ No active database connection");
      }
      return Ok("DROP TABLE IF EXISTS \"" + tableName + "\" CASCADE;");
    }

    /** `ExecuteSQLQuery`: each row the query returns becomes a map from
      column name to value; a row that does not scan is an error. */
    method ExecuteSQLQuery<V(==)>(columns: seq<string>, rows: seq<seq<V>>) returns (r: Result<seq<map<string, V>>>)
      ensures !open ==> r.Err?
      ensures open && (forall k :: 0 <= k < |rows| ==> |rows[k]| == |columns|) ==>
                r.Ok? && |r.value| == |rows|
                && forall k :: 0 <= k < |rows| ==> RowOf(r.value[k], columns, rows[k])
      ensures open && (exists k :: 0 <= k < |rows| && |rows[k]| != |columns|) ==> r.Err?
    {
      if !open {
        return Err("⚠️ No active database connection");
      }
      var results: seq<map<string, V>> := [];
      var i := 0;
      while i < |rows|
        invariant i <= |rows| && |results| == i
        invariant forall k :: 0 <= k < i ==> |rows[k]| == |columns| && RowOf(results[k], columns, rows[k])
      {
        if |rows[i]| != |columns| {
          return Err("Failed to scan row");
        }
        var rowMap := RowToMap(columns, rows[i]);
        results := results + [rowMap];
        i := i + 1;
      }
      return Ok(results);
    }
  }

  /** A row map holds every column, and a column named more than once
      holds the value of its last occurrence. */
  predicate RowOf<V(==)>(rowMap: map<string, V>, columns: seq<string>, values: seq<V>)
    requires |values| == |columns|
  {
    rowMap.Keys == (set c | c in columns)
    && forall i :: 0 <= i < |columns| && (forall j :: i < j < |columns| ==> columns[j] != columns[i]) ==>
         columns[i] in rowMap && rowMap[columns[i]] == values[i]
  }

  /** The loop that turns one scanned row into a map. */
  method RowToMap<V(==)>(columns: seq<string>, values: seq<V>) returns (rowMap: map<string, V>)
    requires |values| == |columns|
    ensures RowOf(rowMap, columns, values)
  {
    rowMap := map[];
    var i := 0;
    while i < |columns|
      invariant i <= |columns|
      invariant rowMap.Keys == set c | c in columns[..i]
      invariant forall k :: 0 <= k < i && (forall j :: k < j < i ==> columns[j] != columns[k]) ==>
                  columns[k] in rowMap && rowMap[columns[k]] == values[k]
    {
      assert columns[..i + 1] == columns[..i] + [columns[i]];
      rowMap := rowMap[columns[i] := values[i]];
      i := i + 1;
    }
    assert columns[..i] == columns;
  }
}
