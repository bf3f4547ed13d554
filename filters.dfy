/** `filters_to_query`: the translation of a column-to-value mapping and a logic
    word into the `where` fragment that the data-access layer appends to its
    SQL statements. */
module Filters {
  import opened Text

  datatype Option<+T> = None | Some(value: T)

  /** A scalar as the callers hand it over: Python's `None`, an `int` or a `str`. */
  datatype Value = Null | Integer(i: int) | Str(s: string)

  /** What an f-string substitution `{v}` writes for the value. */
  function Render(v: Value): string
  {
    match v
    case Null => "None"
    case Integer(i) => IntToDecimal(i)
    case Str(s) => s
  }

  /** No key occurs twice. */
  predicate DistinctKeys(entries: seq<(string, Value)>)
  {
    forall i, j :: 0 <= i < j < |entries| ==> entries[i].0 != entries[j].0
  }

  /** A Python `dict` from column names to values: its entries in insertion
      order, each key once. */
  type Dict = d: seq<(string, Value)> | DistinctKeys(d) witness []

  /** The keys of `d`, in insertion order. */
  function Keys(d: seq<(string, Value)>): seq<string>
  {
    seq(|d|, i requires 0 <= i < |d| => d[i].0)
  }

  /** The values of `d`, in insertion order. */
  function Values(d: seq<(string, Value)>): seq<Value>
  {
    seq(|d|, i requires 0 <= i < |d| => d[i].1)
  }

  /** The equality test emitted for one entry: the value is quoted, not bound. */
  function Clause(field: string, condition: Value): string
  {
    field + " = \"" + Render(condition) + "\""
  }

  /** The clauses of all entries, in the mapping's order. */
  function Clauses(d: Dict): seq<string>
  {
    seq(|d|, i requires 0 <= i < |d| => Clause(d[i].0, d[i].1))
  }

  /** The joiner: a space and the logic word, with no space after it. */
  function Separator(logic: string): string
  {
    " " + logic
  }

  const WHERE: string := "where "

  /** The fragment `filters_to_query` returns: nothing at all without filters,
      and otherwise the `where` keyword followed by the joined clauses. */
  function FilterQuery(filters: Option<Dict>, logic: string := "AND"): (q: string)
    ensures q == "" <==> filters.None?
  {
    match filters
    case None => ""
    case Some(d) => WHERE + Join(Clauses(d), Separator(logic))
  }

  /** `filters_to_query(filters, logic)`: collects one clause per entry in a
      list, then joins them behind the `where` keyword. */
  method FiltersToQuery(filters: Option<Dict>, logic: string := "AND") returns (queryFilters: string)
    ensures queryFilters == FilterQuery(filters, logic)
    ensures queryFilters == "" <==> filters.None?
    ensures filters.Some? ==> |queryFilters| >= |WHERE| && queryFilters[..|WHERE|] == WHERE
  {
    queryFilters := "";
    if filters.Some? {
      var d := filters.value;
      var filtersList: seq<string> := [];
      for i := 0 to |d|
        invariant |filtersList| == i
        invariant forall j :: 0 <= j < i ==> filtersList[j] == Clause(d[j].0, d[j].1)
      {
        var (field, condition) := d[i];
        var query := field + " = \"" + Render(condition) + "\"";
        filtersList := filtersList + [query];
      }
      assert filtersList == Clauses(d);
      queryFilters := WHERE + Join(filtersList, Separator(logic));
    }
  }

  /** Witness, by unfolding the definition: without filters (`None`) there is
      no restriction at all; an empty mapping still produces the bare keyword,
      so the statement ends in `where ` with nothing after it. */
  lemma NoneAndEmptyFilters(logic: string)
    ensures FilterQuery(None, logic) == ""
    ensures FilterQuery(Some([]), logic) == WHERE
  {
  }

  /** The fragment is the keyword, the clauses of all entries, and exactly one
      separator between each pair of neighbouring clauses — nothing else. */
  lemma {:induction false} FilterQueryLength(d: Dict, logic: string)
    ensures |d| == 0 ==> FilterQuery(Some(d), logic) == WHERE
    ensures |d| > 0 ==>
              |FilterQuery(Some(d), logic)|
              == |WHERE| + TotalLength(Clauses(d)) + (|d| - 1) * (|logic| + 1)
  {
    JoinLength(Clauses(d), Separator(logic));
  }

  /** Entry `i` contributes exactly its clause, placed after the clauses of the
      entries inserted before it; every clause but the last is followed by the
      separator. */
  lemma {:induction false} FilterQueryClauseAt(d: Dict, logic: string, i: nat)
    requires i < |d|
    ensures var q, at := FilterQuery(Some(d), logic), |WHERE| + Start(Clauses(d), Separator(logic), i);
            && PlacedAt(q, Clause(d[i].0, d[i].1), at)
            && (i + 1 < |d| ==> PlacedAt(q, " " + logic, at + |Clause(d[i].0, d[i].1)|))
  {
    var cs := Clauses(d);
    var sep := Separator(logic);
    var j := Join(cs, sep);
    var s := Start(cs, sep, i);
    JoinAt(cs, sep, i);
    assert FilterQuery(Some(d), logic) == WHERE + j;
    PlacedInRight(WHERE, j, cs[i], s);
    if i + 1 < |d| {
      PlacedInRight(WHERE, j, sep, s + |cs[i]|);
    }
  }

  /** Witness on a concrete mapping, by evaluation: the joiner carries no
      trailing space, so the logic word runs into the next column name. */
  lemma TwoFilters()
    ensures FilterQuery(Some([("id", Integer(5)), ("name", Str("bob"))]))
            == "where id = \"5\" ANDname = \"bob\""
  {
  }
}
