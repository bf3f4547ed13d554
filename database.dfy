/** The `Database` class: CRUD operations that build SQL text and parameter
    tuples and hand them to an sqlite cursor. The cursor and the connection are
    replaced by what can be observed of them from this side: the log of executed
    statements, the number of commits, and (for `read`) the result set the cursor
    reports, which callers supply. */
module Database {
  import opened Text
  import opened Filters

  /** One `cursor.execute(sql, params)` call. */
  datatype Statement = Statement(sql: string, params: seq<Value>)

  const INSERT_INTO: string := "INSERT INTO "

  /** The statement `create` executes. */
  function InsertStatement(table: string, data: Dict): Statement
  {
    Statement(INSERT_INTO + table + "(" + Join(Keys(data), ", ") + ") VALUES(" + Marks(|data|) + ")",
              Values(data))
  }

  /** The statement `update` executes for one key of `data`. */
  function UpdateStatement(table: string, key: string, value: Value, queryFilters: string): Statement
  {
    Statement("UPDATE " + table + " SET " + key + " = ? " + queryFilters, [value])
  }

  /** The statements `update` executes, one per key of `data`, in key order. */
  function UpdateStatements(table: string, data: Dict, queryFilters: string): seq<Statement>
  {
    seq(|data|, i requires 0 <= i < |data| => UpdateStatement(table, data[i].0, data[i].1, queryFilters))
  }

  /** The statement `read` executes. */
  function SelectStatement(table: string, queryFilters: string): Statement
  {
    Statement("SELECT * FROM " + table + " " + queryFilters, [])
  }

  /** The statement `delete` executes. */
  function DeleteStatement(table: string, queryFilters: string): Statement
  {
    Statement("DELETE FROM " + table + " " + queryFilters, [])
  }

  // ---------------------------------------------------------------------------
  // Shaping a result set into Python dicts.

  /** A row as `read` returns it: column name to value, in column order. */
  type Record = Dict

  function KeySet(d: seq<(string, Value)>): set<string>
  {
    set i | 0 <= i < |d| :: d[i].0
  }

  lemma KeySetConcat(a: seq<(string, Value)>, b: seq<(string, Value)>)
    ensures KeySet(a + b) == KeySet(a) + KeySet(b)
  {
    forall x | x in KeySet(a + b) ensures x in KeySet(a) + KeySet(b) {
      var j :| 0 <= j < |a + b| && (a + b)[j].0 == x;
      if j >= |a| { assert b[j - |a|] == (a + b)[j]; } else { assert a[j] == (a + b)[j]; }
    }
    forall x | x in KeySet(a) ensures x in KeySet(a + b) {
      var j :| 0 <= j < |a| && a[j].0 == x;
      assert (a + b)[j] == a[j];
    }
    forall x | x in KeySet(b) ensures x in KeySet(a + b) {
      var j :| 0 <= j < |b| && b[j].0 == x;
      assert (a + b)[|a| + j] == b[j];
    }
  }

  lemma KeySetSingle(p: (string, Value))
    ensures KeySet([p]) == {p.0}
  {
    assert [p][0] == p;
  }

  /** `d.get(k)`: a value exactly for the keys the dict holds. */
  function Get(d: Dict, k: string): (r: Option<Value>)
    ensures r.Some? <==> k in KeySet(d)
    decreases |d|
  {
    if |d| == 0 then None
    else
      assert d == [d[0]] + d[1..];
      KeySetConcat([d[0]], d[1..]);
      KeySetSingle(d[0]);
      if d[0].0 == k then Some(d[0].1)
      else Get(d[1..], k)
  }

  /** `d[k] = v`: an existing key keeps its position and takes the new value;
      a new key goes to the end. */
  function Put(d: Dict, k: string, v: Value): (r: Dict)
    ensures KeySet(r) == KeySet(d) + {k}
    decreases |d|
  {
    if |d| == 0 then
      KeySetSingle((k, v));
      [(k, v)]
    else
      assert d == [d[0]] + d[1..];
      KeySetConcat([d[0]], d[1..]);
      KeySetSingle(d[0]);
      if d[0].0 == k then
        KeySetConcat([(k, v)], d[1..]);
        KeySetSingle((k, v));
        [(k, v)] + d[1..]
      else
        var rest := Put(d[1..], k, v);
        assert d[0].0 !in KeySet(d[1..]);
        assert forall j :: 0 <= j < |rest| ==> rest[j].0 in KeySet(rest);
        KeySetConcat([d[0]], rest);
        [d[0]] + rest
  }

  /** `dict(pairs)`: the pairs inserted one after the other. */
  function FromPairs(pairs: seq<(string, Value)>): Dict
    decreases |pairs|
  {
    if |pairs| == 0 then []
    else Put(FromPairs(pairs[..|pairs| - 1]), pairs[|pairs| - 1].0, pairs[|pairs| - 1].1)
  }

  /** `zip(keys, row)`: stops at the shorter of the two. */
  function Zip(keys: seq<string>, row: seq<Value>): seq<(string, Value)>
  {
    var n := if |keys| <= |row| then |keys| else |row|;
    seq(n, i requires 0 <= i < n => (keys[i], row[i]))
  }

  /** No column name is described twice. */
  predicate DistinctColumns(keys: seq<string>)
  {
    forall i, j :: 0 <= i < j < |keys| ==> keys[i] != keys[j]
  }

  /** `dict(zip(keys, row))`: it holds exactly the zipped column names, and
      when no column name repeats it is the zipped pairs themselves. */
  function ToRecord(keys: seq<string>, row: seq<Value>): (r: Record)
    ensures KeySet(r) == KeySet(Zip(keys, row))
    ensures DistinctColumns(keys) ==> r == Zip(keys, row)
  {
    var z := Zip(keys, row);
    FromPairsKeys(z);
    if DistinctColumns(keys) then
      FromDistinctPairs(z);
      FromPairs(z)
    else
      FromPairs(z)
  }

  /** The value that the last pair with key `k` assigns, if any: what a dict
      built from `pairs` must hold for `k`. */
  function LastValue(pairs: seq<(string, Value)>, k: string): Option<Value>
    decreases |pairs|
  {
    if |pairs| == 0 then None
    else if pairs[|pairs| - 1].0 == k then Some(pairs[|pairs| - 1].1)
    else LastValue(pairs[..|pairs| - 1], k)
  }

  lemma {:induction false} PutGet(d: Dict, k: string, v: Value, k': string)
    ensures Get(Put(d, k, v), k') == if k' == k then Some(v) else Get(d, k')
    decreases |d|
  {
    if |d| > 0 && d[0].0 != k {
      PutGet(d[1..], k, v, k');
    }
  }

  lemma {:induction false} PutNew(d: Dict, k: string, v: Value)
    requires k !in KeySet(d)
    ensures Put(d, k, v) == d + [(k, v)]
    decreases |d|
  {
    if |d| > 0 {
      assert d[0].0 in KeySet(d);
      assert KeySet(d[1..]) <= KeySet(d) by {
        forall j | 0 <= j < |d[1..]| ensures d[1..][j].0 in KeySet(d) {
          assert d[1..][j] == d[j + 1];
        }
      }
      PutNew(d[1..], k, v);
      assert [d[0]] + (d[1..] + [(k, v)]) == d + [(k, v)];
    }
  }

  /** Storing a key that is already present replaces its value where it
      stands: the key keeps its first position. */
  lemma {:induction false} PutExisting(d: Dict, i: nat, v: Value)
    requires i < |d|
    ensures Put(d, d[i].0, v) == d[i := (d[i].0, v)]
    decreases i
  {
    if i > 0 {
      assert d[0].0 != d[i].0;
      var rest: Dict := d[1..];
      assert rest[i - 1] == d[i];
      PutExisting(rest, i - 1, v);
      assert [d[0]] + rest[i - 1 := (d[i].0, v)] == d[i := (d[i].0, v)];
    }
  }

  /** A dict built from pairs has exactly their keys. */
  lemma {:induction false} FromPairsKeys(pairs: seq<(string, Value)>)
    ensures KeySet(FromPairs(pairs)) == KeySet(pairs)
    decreases |pairs|
  {
    if |pairs| > 0 {
      var init := pairs[..|pairs| - 1];
      var last := pairs[|pairs| - 1];
      FromPairsKeys(init);
      assert pairs == init + [last];
      KeySetConcat(init, [last]);
      KeySetSingle(last);
    }
  }

  /** In a dict built from pairs, each key holds the value of the last pair
      that names it. */
  lemma {:induction false} FromPairsGet(pairs: seq<(string, Value)>, k: string)
    ensures Get(FromPairs(pairs), k) == LastValue(pairs, k)
    decreases |pairs|
  {
    if |pairs| > 0 {
      var init := pairs[..|pairs| - 1];
      var last := pairs[|pairs| - 1];
      FromPairsGet(init, k);
      PutGet(FromPairs(init), last.0, last.1, k);
    }
  }

  /** When no key repeats, the dict keeps the pairs exactly as given. */
  lemma {:induction false} FromDistinctPairs(pairs: seq<(string, Value)>)
    requires DistinctKeys(pairs)
    ensures FromPairs(pairs) == pairs
    decreases |pairs|
  {
    if |pairs| > 0 {
      var init := pairs[..|pairs| - 1];
      var last := pairs[|pairs| - 1];
      assert DistinctKeys(init);
      FromDistinctPairs(init);
      FromPairsKeys(init);
      assert last.0 !in KeySet(init);
      PutNew(init, last.0, last.1);
      assert init + [last] == pairs;
    }
  }

  /** What `read` returns: one row or `None` when filters are given, a list of
      rows otherwise. */
  datatype ReadResult = One(row: Option<Record>) | All(rows: seq<Record>)

  /** Python truthiness of the `filters` argument: `None` and `{}` are false. */
  predicate Truthy(filters: Option<Dict>)
  {
    filters.Some? && |filters.value| > 0
  }

  /** The shaping at the end of `read`, given the column names the cursor
      describes and the rows it returns: a single record (or `None` when there
      is no row, or the row is empty) exactly when the filters are truthy, and
      otherwise one record per row, in row order; every record holds exactly
      the column names zipped with its row. */
  function ShapeResult(filters: Option<Dict>, keys: seq<string>, rows: seq<seq<Value>>): (r: ReadResult)
    ensures r.One? <==> Truthy(filters)
    ensures r.One? ==> (r.row.None? <==> |rows| == 0 || |rows[0]| == 0)
    ensures r.One? && r.row.Some? ==> KeySet(r.row.value) == KeySet(Zip(keys, rows[0]))
    ensures r.All? ==> |r.rows| == |rows|
    ensures r.All? ==> forall i :: 0 <= i < |rows| ==> KeySet(r.rows[i]) == KeySet(Zip(keys, rows[i]))
  {
    if Truthy(filters) then
      if |rows| == 0 || |rows[0]| == 0 then One(None) else One(Some(ToRecord(keys, rows[0])))
    else
      All(seq(|rows|, i requires 0 <= i < |rows| => ToRecord(keys, rows[i])))
  }

  /** Whatever the column names, each record `read` returns gives every column
      the value of the last position that names it in the zipped row. */
  lemma {:induction false} ReadValues(filters: Option<Dict>, keys: seq<string>, rows: seq<seq<Value>>, k: string)
    ensures var r := ShapeResult(filters, keys, rows);
            && (r.One? && r.row.Some? ==> Get(r.row.value, k) == LastValue(Zip(keys, rows[0]), k))
            && (r.All? ==> forall i :: 0 <= i < |rows| ==> Get(r.rows[i], k) == LastValue(Zip(keys, rows[i]), k))
  {
    var r := ShapeResult(filters, keys, rows);
    if r.One? && r.row.Some? {
      FromPairsGet(Zip(keys, rows[0]), k);
    }
    if r.All? {
      forall i | 0 <= i < |rows|
        ensures Get(r.rows[i], k) == LastValue(Zip(keys, rows[i]), k)
      {
        FromPairsGet(Zip(keys, rows[i]), k);
      }
    }
  }

  // The next two lemmas follow from the contract of `ToRecord`, whose proof
  // (through `FromDistinctPairs`) carries the work.

  /** With filters given and distinct column names, the record `read` returns
      for a non-empty result is the first row zipped with the column names,
      position by position. */
  lemma ReadFilteredFirstRow(filters: Option<Dict>, keys: seq<string>, rows: seq<seq<Value>>)
    requires Truthy(filters)
    requires DistinctColumns(keys)
    ensures |rows| > 0 && |rows[0]| > 0 ==>
              var r := ShapeResult(filters, keys, rows).row.value;
              |r| == (if |keys| <= |rows[0]| then |keys| else |rows[0]|) &&
              forall j :: 0 <= j < |r| ==> r[j] == (keys[j], rows[0][j])
  {
  }

  /** Without filters, when the column names are distinct and every row has
      one value per column, every record has exactly the described columns, in
      order, with that row's values. */
  lemma ReadAllRows(filters: Option<Dict>, keys: seq<string>, rows: seq<seq<Value>>)
    requires !Truthy(filters)
    requires DistinctColumns(keys)
    requires forall i :: 0 <= i < |rows| ==> |rows[i]| == |keys|
    ensures forall i :: 0 <= i < |rows| ==>
              Keys(ShapeResult(filters, keys, rows).rows[i]) == keys &&
              Values(ShapeResult(filters, keys, rows).rows[i]) == rows[i]
  {
  }

  /** The SQL statement log and commit counter of an sqlite connection, with the
      operations of the repository's `Database` class. */
  class Database {
    /** The database file the connection was opened on. */
    const path: string
    /** Every statement executed on the cursor, oldest first. */
    var log: seq<Statement>
    /** How many times the connection has committed. */
    var commits: nat

    /** Opens the database file at `path`: nothing executed, nothing committed. */
    constructor (path: string)
      ensures this.path == path && log == [] && commits == 0
    {
      this.path := path;
      log := [];
      commits := 0;
    }

    /** Inserts `data` as a new row of `table`, then commits. */
    method Create(table: string, data: Dict)
      modifies this
      ensures log == old(log) + [InsertStatement(table, data)]
      ensures commits == old(commits) + 1
    {
      var fields: seq<string> := [];
      var values: seq<Value> := [];
      for i := 0 to |data|
        invariant fields == Keys(data[..i])
        invariant values == Values(data[..i])
      {
        var (key, value) := data[i];
        fields := fields + [key];
        values := values + [value];
      }
      assert data[..|data|] == data;
      var marks := Join(Repeat("?", |fields|), ", ");
      var sql := INSERT_INTO + table + "(" + Join(fields, ", ") + ") VALUES(" + marks + ")";
      log := log + [Statement(sql, values)];
      commits := commits + 1;
    }

    /** Sets each column of `data` in turn, one statement per column, every one
        restricted by the same filter fragment; commits once at the end, even
        when `data` is empty. */
    method Update(table: string, data: Dict, filters: Option<Dict> := None, logic: string := "AND")
      modifies this
      ensures log == old(log) + UpdateStatements(table, data, FilterQuery(filters, logic))
      ensures commits == old(commits) + 1
    {
      var queryFilters := FiltersToQuery(filters, logic);
      for i := 0 to |data|
        invariant log == old(log) + UpdateStatements(table, data[..i], queryFilters)
        invariant commits == old(commits)
      {
        var (key, value) := data[i];
        log := log + [Statement("UPDATE " + table + " SET " + key + " = ? " + queryFilters, [value])];
      }
      assert data[..|data|] == data;
      commits := commits + 1;
    }

    /** Selects from `table`; `keys` are the column names the cursor describes
        for the query and `rows` the rows it would fetch. Nothing is committed. */
    method Read(table: string, keys: seq<string>, rows: seq<seq<Value>>,
                filters: Option<Dict> := None, logic: string := "AND")
      returns (result: ReadResult)
      modifies this
      ensures log == old(log) + [SelectStatement(table, FilterQuery(filters, logic))]
      ensures commits == old(commits)
      ensures result == ShapeResult(filters, keys, rows)
    {
      var queryFilters := FiltersToQuery(filters, logic);
      log := log + [Statement("SELECT * FROM " + table + " " + queryFilters, [])];
      if filters.Some? && |filters.value| > 0 {
        if |rows| == 0 || |rows[0]| == 0 {
          return One(None);
        }
        return One(Some(ToRecord(keys, rows[0])));
      }
      return All(seq(|rows|, i requires 0 <= i < |rows| => ToRecord(keys, rows[i])));
    }

    /** Deletes the rows of `table` the filters select, then commits. */
    method Delete(table: string, filters: Option<Dict>, logic: string := "AND")
      modifies this
      ensures log == old(log) + [DeleteStatement(table, FilterQuery(filters, logic))]
      ensures commits == old(commits) + 1
    {
      var queryFilters := FiltersToQuery(filters, logic);
      log := log + [Statement("DELETE FROM " + table + " " + queryFilters, [])];
      commits := commits + 1;
    }
  }

  // ---------------------------------------------------------------------------
  // What the generated statements promise.

  /** An insert names the columns in the mapping's order and binds the values in
      the same order; column `i` sits at its place in the column list. */
  lemma {:induction false} InsertColumnsAndParams(table: string, data: Dict, i: nat)
    requires i < |data|
    ensures |InsertStatement(table, data).params| == |data|
    ensures InsertStatement(table, data).params[i] == data[i].1
    ensures PlacedAt(InsertStatement(table, data).sql, data[i].0,
                     |INSERT_INTO| + |table| + 1 + Start(Keys(data), ", ", i))
  {
    var ks := Keys(data);
    assert |ks| == |data| && ks[i] == data[i].0;
    assert InsertStatement(table, data).params == Values(data);
    var cols := Join(ks, ", ");
    var pre := INSERT_INTO + table + "(";
    var post := ") VALUES(" + Marks(|data|) + ")";
    assert InsertStatement(table, data).sql == pre + (cols + post);
    JoinAt(ks, ", ", i);
    var s := Start(ks, ", ", i);
    assert PlacedAt(cols + post, ks[i], s) by {
      assert (cols + post)[s..s + |ks[i]|] == cols[s..s + |ks[i]|];
    }
    PlacedInRight(pre, cols + post, ks[i], s);
  }

  /** When neither the table name nor a column name contains `?`, an insert has
      exactly one placeholder per bound parameter. */
  lemma {:induction false} InsertPlaceholders(table: string, data: Dict)
    requires Free(table, '?')
    requires forall i :: 0 <= i < |data| ==> Free(data[i].0, '?')
    ensures CountChar(InsertStatement(table, data).sql, '?') == |InsertStatement(table, data).params|
  {
    var ks := Keys(data);
    var cols := Join(ks, ", ");
    var marks := Marks(|data|);
    JoinFree(ks, ", ", '?');
    MarksCount(|data|);
    var p1 := INSERT_INTO + table;
    var p2 := p1 + "(";
    var p3 := p2 + cols;
    var p4 := p3 + ") VALUES(";
    var p5 := p4 + marks;
    var p6 := p5 + ")";
    assert CountChar(p1, '?') == 0 by {
      FreeCount(INSERT_INTO, '?');
      FreeCount(table, '?');
      CountCharConcat(INSERT_INTO, table, '?');
    }
    assert CountChar(p2, '?') == 0 by {
      FreeCount("(", '?');
      CountCharConcat(p1, "(", '?');
    }
    assert CountChar(p3, '?') == 0 by {
      FreeCount(cols, '?');
      CountCharConcat(p2, cols, '?');
    }
    assert CountChar(p4, '?') == 0 by {
      FreeCount(") VALUES(", '?');
      CountCharConcat(p3, ") VALUES(", '?');
    }
    assert CountChar(p5, '?') == |data| by {
      CountCharConcat(p4, marks, '?');
    }
    assert CountChar(p6, '?') == |data| by {
      FreeCount(")", '?');
      CountCharConcat(p5, ")", '?');
    }
    assert InsertStatement(table, data).sql == p6;
  }

  lemma {:induction false} JoinFree(xs: seq<string>, sep: string, c: char)
    requires Free(sep, c)
    requires forall i :: 0 <= i < |xs| ==> Free(xs[i], c)
    ensures Free(Join(xs, sep), c)
    decreases |xs|
  {
    if |xs| > 1 {
      JoinFree(xs[1..], sep, c);
    }
  }

  /** Witness, by unfolding the definitions: every statement of an update binds
      exactly the new value of its own column and ends with the one shared
      filter fragment. */
  lemma {:induction false} UpdateSharesFilter(table: string, data: Dict, filters: Option<Dict>, logic: string, i: nat)
    requires i < |data|
    ensures var st, q := UpdateStatements(table, data, FilterQuery(filters, logic))[i], FilterQuery(filters, logic);
            && st.params == [data[i].1]
            && |st.sql| >= |q|
            && st.sql[|st.sql| - |q|..] == q
            && st.sql[..|st.sql| - |q|] == "UPDATE " + table + " SET " + data[i].0 + " = ? "
  {
  }

  /** Witness, by unfolding the definitions: without filters, delete and update
      statements carry no restriction and so reach every row of the table. */
  lemma WholeTableWithoutFilters(table: string, data: Dict, logic: string)
    ensures DeleteStatement(table, FilterQuery(None, logic)).sql == "DELETE FROM " + table + " "
    ensures forall i :: 0 <= i < |data| ==>
              UpdateStatements(table, data, FilterQuery(None, logic))[i].sql
              == "UPDATE " + table + " SET " + data[i].0 + " = ? "
  {
  }
}
