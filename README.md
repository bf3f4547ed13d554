# A verified model of the data-access layer of tg_bot_template

The repository is a Telegram bot template. Its only logic is `database.py`,
a small data-access layer over sqlite. It has two parts:

- `filters_to_query` turns a mapping of column names to values, plus a logic
  word (`"AND"` by default), into a `where` fragment of SQL text.
- The `Database` class offers `create`, `update`, `read` and `delete`. Each of
  them builds SQL statement text and a parameter tuple, runs them on an sqlite
  cursor, and (except `read`) commits.

The model is split into three modules:

- `Text` (`text.dfy`) covers the Python built-ins the code relies on:
  `str.join` (`Join`), `['?'] * n` (`Repeat`), the placeholder list
  `', '.join(['?'] * n)` (`Marks`), and the decimal text that `str(int)`
  writes inside an f-string (`IntToDecimal`).
- `Filters` (`filters.dfy`) covers `filters_to_query`. `FiltersToQuery` is the
  method with the source's loop. It is proved equal to the function
  `FilterQuery`, and the lemmas state what that fragment contains.
- `Database` (`database.dfy`) covers the `Database` class. The sqlite cursor
  and connection are replaced by two fields:
  - `log`: every `(sql, params)` pair passed to `cursor.execute`, in order;
  - `commits`: how many times the connection committed.

  The rows and column names that `read` gets from the cursor are parameters
  of `Read`. Each method's postcondition gives the new log and commit count
  exactly. The statements themselves are defined by functions
  (`InsertStatement`, `UpdateStatements`, `SelectStatement`,
  `DeleteStatement`), and lemmas prove what those statements promise.

Representation choices:

- A Python `dict` is a `Dict`: a sequence of `(key, value)` pairs in
  insertion order, with no key twice.
- `None` versus a dict is `Option<Dict>`.
- A scalar is a `Value`: Python's `None`, an `int` or a `str`.
- An f-string writes a value with `Render`: `"None"`, the decimal digits, or
  the text itself. Python refuses to write an `int` with more digits than its
  conversion limit (4300 by default); the model does not have that limit
  (see "Left out").
- `dict(zip(keys, row))` follows Python's rules. `zip` stops at the shorter
  input. A repeated key keeps its first position and takes its last value
  (`Put`, `FromPairs`).

The model follows the code as written, including its quirks:

- The joiner between clauses is `" " + logic`, with no space after the logic
  word. `{"id": 5, "name": "bob"}` therefore becomes
  `where id = "5" ANDname = "bob"` (lemma `Filters.TwoFilters`).
- An empty mapping yields the bare `"where "`, so the statement ends in a
  `where` with no condition after it. `None` yields `""`, which is no
  restriction at all.
- Filter values are written into the SQL text inside double quotes. They are
  not bound as parameters.
- When `filters` is truthy (a non-empty dict), `read` returns one record or
  `None`. Otherwise (`None` or `{}`) it returns a list of records.
- `if not values` is true when there is no row, and also for an empty row
  tuple. The model treats both cases the same way.
- `update` with an empty `data` executes nothing but still commits once.
- `update` or `delete` with `filters = None` produces statements with no
  restriction, so they affect the whole table.

## Model

| member | source | states |
|---|---|---|
| `Filters.FiltersToQuery` | database.py:3-17 | the loop builds exactly `FilterQuery(filters, logic)`, with `logic` defaulting to `"AND"`; the result is empty exactly when `filters` is `None`, and otherwise starts with `"where "` |
| `Filters.NoneAndEmptyFilters` | database.py:7-16 | `None` gives `""` (no restriction); an empty dict still gives exactly `"where "` |
| `Filters.FilterQueryLength` | database.py:12-16 | the fragment is exactly `"where "`, the clauses and `len(filters) - 1` separators of length `len(logic) + 1`, nothing more |
| `Filters.FilterQueryClauseAt` | database.py:12-16 | entry `i` puts exactly `field = "value"` after the clauses of the earlier entries, in insertion order; every clause but the last is followed by `" " + logic` |
| `Filters.TwoFilters` | database.py:13-16 | a concrete two-entry mapping gives `where id = "5" ANDname = "bob"`: there is no space after the logic word |
| `Text.JoinLength` | database.py:16 | `sep.join(xs)` is empty for no pieces; otherwise its length is the pieces' total length plus `len(xs) - 1` separators |
| `Text.JoinAt` | database.py:16 | piece `i` of `sep.join(xs)` sits right after the earlier pieces and their separators, and is followed by exactly one separator unless it is the last piece |
| `Text.MarksCount` | database.py:38 | `', '.join(['?'] * n)` holds exactly `n` question marks; it is empty for `n = 0` and `3n - 2` characters long otherwise |
| `Text.DecimalRoundTrip` | database.py:13 | the decimal text an f-string writes for an integer value (one within Python's digit limit) is non-empty and parses back to the same integer |
| `Database.Database.constructor` | database.py:20-25 | a freshly opened database has executed nothing and committed nothing |
| `Database.Database.Create` | database.py:27-44 | appends exactly one statement, `INSERT INTO table(k1, k2, ...) VALUES(?, ?, ...)`, with the values in key order as parameters, then commits exactly once |
| `Database.Database.Update` | database.py:46-56 | appends exactly `len(data)` statements, the i-th `UPDATE table SET key_i = ? q` with parameters `(value_i,)` and one shared `q = filters_to_query(filters, logic)`; then commits exactly once, also when `data` is empty |
| `Database.Database.Read` | database.py:58-75 | appends exactly one `SELECT * FROM table q` without parameters, commits nothing, and returns the shaped result of the rows the cursor supplies |
| `Database.Database.Delete` | database.py:77-85 | appends exactly one `DELETE FROM table q` without parameters, then commits exactly once |
| `Database.InsertColumnsAndParams` | database.py:31-43 | the insert has one parameter per key, parameter `i` is value `i`, and column `i` appears in the column list at its insertion-order position |
| `Database.InsertPlaceholders` | database.py:38-43 | when the table and column names contain no `?`, the insert text holds exactly as many `?` placeholders as there are parameters |
| `Database.UpdateSharesFilter` | database.py:51-54 | statement `i` of an update binds exactly the new value of key `i`, and its text is `UPDATE table SET key_i = ? ` followed by the one shared filter fragment |
| `Database.WholeTableWithoutFilters` | database.py:51-54 | with `filters = None`, every update statement and the delete statement (database.py:82-84) end without any restriction, so they reach the whole table |
| `Filters.Clause` | database.py:13 | defines the clause one entry contributes: `field = "value"`, with the value written into the text in double quotes, not bound |
| `Database.Truthy` | database.py:68 | defines Python truthiness of `filters`: true exactly for a non-empty dict, false for `None` and `{}` |
| `Database.Zip` | database.py:72-75 | defines `zip(keys, row)`: pair `i` is `(keys[i], row[i])`, up to the shorter input; `ToRecord`, `ReadFilteredFirstRow` and `ReadAllRows` state what records built from it hold |
| `Database.ToRecord` | database.py:72-75 | `dict(zip(keys, row))` holds exactly the zipped column names; when no column name repeats it is the zipped pairs themselves, in order |
| `Database.Get` | database.py:72 | a lookup in a dict gives a value exactly for the keys the dict holds |
| `Database.ShapeResult` | database.py:67-75 | for any column names and rows: a single result exactly when the filters are truthy, `None` exactly when there is no row (or the row is empty); otherwise one record per row; every record holds exactly the column names zipped with its row (the first row, for a single result) |
| `Database.ReadValues` | database.py:67-75 | for any column names, in every record `read` returns, each column holds the value of the last position that names it in the zipped row |
| `Database.ReadFilteredFirstRow` | database.py:67-72 | with truthy filters and distinct column names, a non-empty result is the first row zipped with the column names, position by position |
| `Database.ReadAllRows` | database.py:67-75 | with falsy filters, distinct column names and full rows, record `i` has exactly the described columns, in order, with the values of row `i` |
| `Database.FromPairsKeys` | database.py:72 | `dict(pairs)` has exactly the keys that occur in the pairs |
| `Database.FromPairsGet` | database.py:72 | in `dict(pairs)` each key holds the value of the last pair that names it |
| `Database.FromDistinctPairs` | database.py:72-75 | when no key repeats, `dict(pairs)` keeps the pairs exactly, in order |
| `Database.PutGet` | database.py:72 | after `d[k] = v`, looking up `k` gives `v`, and every other key gives what it gave before |
| `Database.PutNew` | database.py:72 | storing a key that is not yet present appends it at the end, so insertion order is kept |
| `Filters.FilterQuery` | database.py:7-17 | the fragment `filters_to_query` returns is empty exactly when `filters` is `None` (an empty dict still gives `"where "`); it is defined as `"where "` followed by the clauses joined with `" " + logic`, and `FilterQueryLength` and `FilterQueryClauseAt` give its length and the exact place of every clause |
| `Filters.Render` | database.py:13 | defines what the substitution `{condition}` writes: `"None"` for `None`, the decimal text for an `int`, the string itself for a `str` |
| `Filters.Separator` | database.py:16 | defines the joiner `f" {logic}"`: a space and the logic word, with no space after it; `FilterQueryClauseAt` and `TwoFilters` show where it lands in the fragment |
| `Filters.Clauses` | database.py:10-14 | defines the clause list, one `Clause` per entry in insertion order; the loop invariant of `FiltersToQuery` proves the loop builds it, and `FilterQueryClauseAt` places each clause in the fragment |
| `Filters.Keys` | database.py:34-35 | defines the field list, the keys of `data` in insertion order; the loop invariant of `Create` proves the loop builds it, and `InsertColumnsAndParams` places each column in the insert text |
| `Filters.Values` | database.py:34-41 | defines the value tuple, the values of `data` in insertion order; the loop invariant of `Create` proves the loop builds it, and `InsertColumnsAndParams` states that parameter `i` is value `i` |
| `Text.Join` | database.py:16 | defines `sep.join(xs)`; `JoinLength` and `JoinAt` state its length and where each piece sits (it is also used for the column list at database.py:40) |
| `Text.Repeat` | database.py:38 | `['?'] * n` has exactly `n` elements, each of them `"?"` |
| `Text.Marks` | database.py:38 | defines the placeholder list `', '.join(['?'] * n)`; `MarksCount` states what it holds |
| `Text.IntToDecimal` | database.py:13 | the text `str` writes for an `int` is non-empty and starts with `-` exactly for a negative number; `DecimalRoundTrip` proves it loses nothing |
| `Database.InsertStatement` | database.py:38-43 | defines the statement `create` executes; `InsertColumnsAndParams` and `InsertPlaceholders` state its columns, parameters and placeholders |
| `Database.UpdateStatement` | database.py:54 | defines the statement `update` executes for one key; `UpdateSharesFilter` states its binding and its shared suffix |
| `Database.UpdateStatements` | database.py:53-54 | defines the statements `update` executes, one `UpdateStatement` per key in key order; the loop invariant of `Update` proves the loop logs exactly these, and `UpdateSharesFilter` states the binding and shared suffix of each |
| `Database.SelectStatement` | database.py:65 | defines the statement `read` executes: `SELECT * FROM table q`, with no parameters |
| `Database.DeleteStatement` | database.py:84 | defines the statement `delete` executes: `DELETE FROM table q`, with no parameters; `WholeTableWithoutFilters` states its form without filters |
| `Database.Put` | database.py:72 | after `d[k] = v` the dict holds exactly its old keys and `k` (with `PutGet`, `PutExisting` and `PutNew` for values and positions) |
| `Database.PutExisting` | database.py:72 | storing a key that is already present replaces its value where it stands, so a repeated key keeps its first position; nothing else changes |
| `Database.FromPairs` | database.py:72 | defines `dict(pairs)` as the pairs stored one after the other; `FromPairsKeys`, `FromPairsGet` and `FromDistinctPairs` state what it holds |

## Left out

- The sqlite library is not modelled: `sqlite3.connect`, `cursor.execute`, `commit`, `description`, `fetchone` and `fetchall` are foreign calls. Executing a statement only appends it to `log`, and committing only increments `commits`. The SQL text is not given any meaning, so what a statement does to a table is not modelled.
- Failures raised by sqlite are not modelled: an unopenable file, a syntax error (which the missing space after the logic word or the bare `"where "` would cause), a missing table or column, or a constraint violation. In the model every call succeeds.
- `cursor.description` is modelled only through its first components, the column names, which `Read` takes as `keys`; the other six fields of each description tuple are never used by the code.
- Filters.Render: does not model Python's limit on converting an `int` to decimal text. Since CPython 3.10.7 and 3.11, `str` of an `int` with more digits than `sys.get_int_max_str_digits()` (4300 by default) raises `ValueError`. For such a filter value `filters_to_query` raises, so `update`, `read` and `delete` execute and commit nothing. The model renders every integer, and `Text.IntToDecimal` and `Text.DecimalRoundTrip` hold for every integer. The limit is a setting of the interpreter and differs between versions, so the model leaves it out.
- Values of other Python types (`float`, `bytes`, `bool`, and others) are left out; a `Value` is `None`, an `int` or a `str`. Dict keys are strings.
- The class has no `close()` and no other connection lifecycle beyond opening, so the model has none either. `update` issues one statement per updated column, and the model keeps that.
- Sharing one connection across concurrent callers is not modelled; the model is sequential.
- main.py and loader.py (the aiogram dispatcher, the bot handlers, `asyncio.run` and the token configuration) are I/O and framework wiring and are not part of this model.
