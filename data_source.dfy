/** NetteDatabaseDataSource: the caller's SQL, the bind values captured with it, and the query
    helper that rewrites the parsed query as filters, sorting and paging are applied. */
module DataSource {
  import opened Strings
  import opened Markers
  import opened Statements
  import opened Helper
  import opened Engine
  import opened Filters

  /** The calls `filterOne` and the select filter make: `column = value` per entry, in order,
      each with its own id. */
  function Equalities(condition: seq<(string, Value)>, uniqs: seq<string>): (r: seq<Condition>)
    requires |uniqs| == |condition|
    ensures |r| == |condition|
    ensures forall i :: 0 <= i < |r| ==>
      r[i].column == condition[i].0 && r[i].value == condition[i].1 && r[i].op == "=" && r[i].uniq == uniqs[i]
  {
    seq(|condition|, i requires 0 <= i < |condition| => Condition(condition[i].0, condition[i].1, "=", uniqs[i]))
  }

  lemma EqualitiesSnoc(condition: seq<(string, Value)>, uniqs: seq<string>, i: nat)
    requires |uniqs| == |condition| && i < |condition|
    ensures Equalities(condition[..i + 1], uniqs[..i + 1]) ==
      Equalities(condition[..i], uniqs[..i]) + [Condition(condition[i].0, condition[i].1, "=", uniqs[i])]
  {
  }

  /** The calls for all entries are those for the whole condition. */
  lemma EqualitiesAll(condition: seq<(string, Value)>, uniqs: seq<string>)
    requires |uniqs| == |condition|
    ensures Equalities(condition[..|condition|], uniqs[..|condition|]) == Equalities(condition, uniqs)
  {
    assert condition[..|condition|] == condition;
    assert uniqs[..|condition|] == uniqs;
  }

  /** The values of the equality calls are the condition's values, in order. */
  lemma EqualitiesValues(condition: seq<(string, Value)>, uniqs: seq<string>)
    requires |uniqs| == |condition|
    ensures Values(Equalities(condition, uniqs)) == seq(|condition|, i requires 0 <= i < |condition| => condition[i].1)
  {
  }

  class NetteDatabaseDataSource {
    /** `$this->sql`: the text the rows are fetched with. */
    var sql: string
    /** `$this->query_parameters`: the positional bind values. */
    var params: seq<Value>
    /** `$this->queryHelper`, built from the parsed `sql`. */
    const helper: QueryHelper

    /** `parsed` is what the SQL parser returns for `sqlText`; `args` are the constructor's
        arguments after the connection and the SQL, in order. */
    constructor (sqlText: string, parsed: Statement, args: seq<Value>)
      ensures sql == sqlText && params == args
      ensures fresh(helper) && helper.query == parsed.(where := Folded(parsed.where))
      ensures Aligned(State(parsed, args)) ==> Aligned(Current())
      ensures TailFree(parsed) ==> TailFree(helper.query)
      ensures Aligned(State(parsed, args)) && TailFree(parsed) ==> InStep()
    {
      sql := sqlText;
      params := args;
      helper := new QueryHelper(parsed);
      if Aligned(State(parsed, args)) {
        PrepareAligned(parsed, args);
      }
    }

    /** The pair the data source keeps in step. */
    function Current(): State
      reads this, helper
    {
      State(helper.query, params)
    }

    /** The values are in step with the placeholders of the helper's query, and nothing after
        its WHERE clause holds a `?`. */
    predicate InStep()
      reads this, helper
    {
      Aligned(Current()) && TailFree(helper.query)
    }

    /** `getQuery`: the SQL with every marker rewritten to a single `?`, and the values as
        they are. */
    function GetQuery(): (r: (string, seq<Value>))
      reads this
      ensures r.1 == params
      ensures |r.0| <= |sql| && Count(r.0, '?') == Placeholders(sql)
    {
      (Resolve(sql), params)
    }

    /** `addParams`: the SQL first, then the values in their order. */
    function AddParams(s: string): (r: seq<Value>)
      reads this
      ensures |r| == |params| + 1 && r[0] == Str(s) && r[1..] == params
    {
      [Str(s)] + params
    }

    /** The arguments `query` passes to the connection: the SQL with its markers rewritten,
        then the values. */
    function QueryArgs(s: string): (r: seq<Value>)
      reads this
      ensures |r| == |params| + 1 && r[0] == Str(Resolve(s)) && r[1..] == params
    {
      AddParams(Resolve(s))
    }

    /** `applyWhere`: the helper appends `column operator marker`, `sql` takes the new text, and
        the value is placed at the number of `?` in front of the marker (first when there are
        none, last when the count is past the end; a null is dropped unless it goes first). */
    method ApplyWhere(column: string, value: Value, op: string, uniq: string)
      modifies this, helper
      ensures Current() == WhereStep(old(Current()), Condition(column, value, op, uniq))
      ensures sql == Render(helper.query)
      ensures old(InStep()) && Admissible(old(helper.query), Condition(column, value, op, uniq)) ==>
        InStep() && params == old(params) + [value]
    {
      ghost var e, c := Current(), Condition(column, value, op, uniq);
      if InStep() && Admissible(helper.query, c) {
        WhereStepAligned(e, c);
        WhereStepTail(e, c);
      }
      var id := Marker(uniq);
      sql := helper.Where(column, id, op);
      var before := Before(sql, id);
      var occurrences := Count(before, '?');
      if occurrences == 0 {
        params := [value] + params;
      } else {
        var at := if occurrences < |params| then occurrences else |params|;
        params := params[..at] + AsArray(value) + params[at..];
      }
    }

    /** `filterOne`: `applyWhere(column, value)` for each entry, in order. */
    method FilterOne(condition: seq<(string, Value)>, uniqs: seq<string>)
      requires |uniqs| == |condition|
      modifies this, helper
      ensures Current() == WhereAll(old(Current()), Equalities(condition, uniqs))
      ensures condition == [] ==> sql == old(sql)
      ensures condition != [] ==> sql == Render(helper.query)
      ensures old(InStep()) && AllAdmissible(old(Current()), Equalities(condition, uniqs)) ==>
        InStep() && params == old(params) + Values(Equalities(condition, uniqs))
    {
      ghost var e, cs := Current(), Equalities(condition, uniqs);
      ghost var ok := InStep() && AllAdmissible(e, cs);
      for i := 0 to |condition|
        invariant Current() == WhereAll(e, Equalities(condition[..i], uniqs[..i]))
        invariant i == 0 ==> sql == old(sql)
        invariant i > 0 ==> sql == Render(helper.query)
      {
        ghost var c := Condition(condition[i].0, condition[i].1, "=", uniqs[i]);
        ghost var before := Current();
        ApplyWhere(condition[i].0, condition[i].1, "=", uniqs[i]);
        assert Current() == WhereStep(before, c);
        EqualitiesSnoc(condition, uniqs, i);
        WhereAllSnoc(e, Equalities(condition[..i], uniqs[..i]), c);
      }
      EqualitiesAll(condition, uniqs);
      if ok {
        WhereAllAligned(e, cs);
      }
    }

    /** `applyFilterSelect`: the same calls as `filterOne`. */
    method ApplyFilterSelect(condition: seq<(string, Value)>, uniqs: seq<string>)
      requires |uniqs| == |condition|
      modifies this, helper
      ensures Current() == WhereAll(old(Current()), Equalities(condition, uniqs))
      ensures sql == if condition == [] then old(sql) else Render(helper.query)
      ensures old(InStep()) && AllAdmissible(old(Current()), Equalities(condition, uniqs)) ==>
        InStep() && params == old(params) + Values(Equalities(condition, uniqs))
    {
      FilterOne(condition, uniqs);
    }

    /** `applyFilterDate`: `DATE(column) = day`, where `day` is the filter value as `Y-m-d`. */
    method ApplyFilterDate(column: string, day: string, uniq: string)
      modifies this, helper
      ensures Current() == WhereStep(old(Current()), Condition(DateColumn(column), Str(day), "=", uniq))
      ensures sql == Render(helper.query)
      ensures old(InStep()) && Admissible(old(helper.query), Condition(DateColumn(column), Str(day), "=", uniq)) ==>
        InStep() && params == old(params) + [Str(day)]
    {
      ApplyWhere(DateColumn(column), Str(day), "=", uniq);
    }

    /** The from/to calls of the range filters. */
    method ApplyBounds(column: string, from: Value, to: Value, fromArg: Value, toArg: Value,
                       uFrom: string, uTo: string)
      modifies this, helper
      ensures Current() == WhereAll(old(Current()), Bounds(column, from, to, fromArg, toArg, uFrom, uTo))
      ensures sql == if !Truthy(from) && !Truthy(to) then old(sql) else Render(helper.query)
      ensures var cs := Bounds(column, from, to, fromArg, toArg, uFrom, uTo);
        old(InStep()) && AllAdmissible(old(Current()), cs) ==> InStep() && params == old(params) + Values(cs)
    {
      ghost var e, cs := Current(), Bounds(column, from, to, fromArg, toArg, uFrom, uTo);
      if InStep() && AllAdmissible(e, cs) {
        WhereAllAligned(e, cs);
      }
      var lower: seq<Condition> := if Truthy(from) then [Condition(column, fromArg, ">=", uFrom)] else [];
      if Truthy(from) {
        WhereAllSnoc(Current(), [], lower[0]);
        ApplyWhere(column, fromArg, ">=", uFrom);
      }
      assert Current() == WhereAll(old(Current()), lower);
      if Truthy(to) {
        WhereAllSnoc(old(Current()), lower, Condition(column, toArg, "<=", uTo));
        ApplyWhere(column, toArg, "<=", uTo);
      }
    }

    /** `applyFilterRange`: `column >= from` when `from` is truthy, then `column <= to` when `to`
        is truthy. */
    method ApplyFilterRange(column: string, from: Value, to: Value, uFrom: string, uTo: string)
      modifies this, helper
      ensures Current() == WhereAll(old(Current()), RangeConditions(column, from, to, uFrom, uTo))
      ensures sql == if !Truthy(from) && !Truthy(to) then old(sql) else Render(helper.query)
      ensures var cs := RangeConditions(column, from, to, uFrom, uTo);
        old(InStep()) && AllAdmissible(old(Current()), cs) ==> InStep() && params == old(params) + Values(cs)
    {
      ApplyBounds(column, from, to, from, to, uFrom, uTo);
    }

    /** `applyFilterDateRange`: `DATE(column) >= fromDay` when `from` is truthy, then
        `DATE(column) <= toDay` when `to` is truthy; the days are the bounds as `Y-m-d`. */
    method ApplyFilterDateRange(column: string, from: Value, to: Value, fromDay: string, toDay: string,
                                uFrom: string, uTo: string)
      modifies this, helper
      ensures Current() == WhereAll(old(Current()), DateRangeConditions(column, from, to, fromDay, toDay, uFrom, uTo))
      ensures sql == if !Truthy(from) && !Truthy(to) then old(sql) else Render(helper.query)
      ensures var cs := DateRangeConditions(column, from, to, fromDay, toDay, uFrom, uTo);
        old(InStep()) && AllAdmissible(old(Current()), cs) ==> InStep() && params == old(params) + Values(cs)
    {
      ApplyBounds(DateColumn(column), from, to, Str(fromDay), Str(toDay), uFrom, uTo);
    }

    /** `applyFilterText`: the predicate goes to `whereSql`, whose result is dropped, so `sql`
        stays as it was; the arguments are appended to the values. `parse` gives the first
        WHERE node the parser returns for a text. */
    method ApplyFilterText(condition: seq<(string, string)>, parse: string -> Node)
      modifies this, helper
      ensures Current() == TextStep(old(Current()), parse(HelperSql(PhpString(TextPredicate(condition)))),
                                    TextArgs(condition))
      ensures sql == old(sql)
      ensures var text := PhpString(TextPredicate(condition));
        old(InStep()) && Placeholders(parse(HelperSql(text)).base) == Placeholders(text) &&
        |condition| > 1 && (forall i :: 0 <= i < |condition| ==> '?' !in condition[i].0) ==>
        InStep() && (old(sql == Render(helper.query)) ==> Placeholders(sql) + |TextArgs(condition)| == |params|)
    {
      ghost var e := Current();
      ghost var ok := InStep() && Placeholders(parse(HelperSql(PhpString(TextPredicate(condition)))).base) ==
        Placeholders(PhpString(TextPredicate(condition))) &&
        |condition| > 1 && (forall i :: 0 <= i < |condition| ==> '?' !in condition[i].0);
      var or, args := BuildTextFilter(condition);
      var node := parse(HelperSql(PhpString(or)));
      if ok {
        TextFilterAligned(e, condition, node);
      }
      WhereSqlAppend(node, args);
    }

    /** The tail of `applyFilterText`: `whereSql` with the predicate's node, whose result is
        dropped, then the arguments appended to the values one by one. */
    method WhereSqlAppend(node: Node, args: seq<Value>)
      modifies this, helper
      ensures Current() == TextStep(old(Current()), node, args)
      ensures sql == old(sql)
    {
      var ignored := helper.WhereSql(node);
      for i := 0 to |args|
        invariant params == old(params) + args[..i]
        invariant helper.query == old(helper.query).(where := AddNode(old(helper.query).where, node))
        invariant sql == old(sql)
      {
        params := params + [args[i]];
      }
      assert args[..|args|] == args;
    }

    /** `limit`: LIMIT is replaced and the query is sent with the new text, which `sql` does
        not take. Returns the arguments sent to the connection. */
    method Limit(offset: string, limit: string) returns (call: seq<Value>)
      modifies helper
      ensures helper.query == old(helper.query).(limit := Some(LimitClause(offset, limit)))
      ensures call == QueryArgs(Render(helper.query))
      ensures old(Aligned(Current()) && TailFree(helper.query)) && '?' !in offset && '?' !in limit ==>
        Count(call[0].s, '?') == |call| - 1
    {
      if Aligned(Current()) && TailFree(helper.query) && '?' !in offset && '?' !in limit {
        LimitAligned(helper.query, params, offset, limit);
      }
      var s := helper.Limit(limit, offset);
      call := QueryArgs(s);
    }

    /** `getCount`: the count statement is sent with the current values. Returns the
        arguments sent to the connection. */
    method GetCount() returns (call: seq<Value>)
      ensures call == QueryArgs(Render(CountStatement(helper.query)))
    {
      var s := helper.GetCountSelect();
      call := QueryArgs(s);
    }

    /** `sort` without a callback: `orderBy` per entry, so only the last entry is kept; with a
        callback nothing here changes. */
    method Sort(sort: seq<(string, string)>, hasCallback: bool)
      modifies this, helper
      ensures params == old(params)
      ensures if hasCallback || sort == [] then helper.query == old(helper.query) && sql == old(sql)
        else helper.query == old(helper.query).(order := [OrderItem(sort[|sort| - 1].0, sort[|sort| - 1].1)]) &&
             sql == Render(helper.query)
      ensures (old(InStep()) && !hasCallback && sort != [] &&
               '?' !in sort[|sort| - 1].0 && '?' !in sort[|sort| - 1].1) ==> InStep()
    {
      if !hasCallback && sort != [] && InStep() && '?' !in sort[|sort| - 1].0 && '?' !in sort[|sort| - 1].1 {
        OrderByAligned(helper.query, params, sort[|sort| - 1].0, sort[|sort| - 1].1);
      }
      if hasCallback {
        return;
      }
      if sort != [] {
        for i := 0 to |sort|
          invariant params == old(params)
          invariant i == 0 ==> helper.query == old(helper.query) && sql == old(sql)
          invariant i > 0 ==> helper.query == old(helper.query).(order := [OrderItem(sort[i - 1].0, sort[i - 1].1)])
          invariant i > 0 ==> sql == Render(helper.query)
        {
          sql := helper.OrderBy(sort[i].0, sort[i].1);
        }
      }
    }
  }
}
