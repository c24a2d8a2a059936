/** QueryHelper: holds the parsed query and changes it in place, clause by clause. Every
    mutator returns the re-rendered SQL. */
module Helper {
  import opened Strings
  import opened Statements

  class QueryHelper {
    /** `$this->query`, the parsed statement. */
    var query: Statement

    /** `parsed` is what the SQL parser returns for the caller's SQL; it is folded by `Prepare`. */
    constructor (parsed: Statement)
      ensures query == parsed.(where := Folded(parsed.where))
    {
      var prepared := Prepare(parsed);
      query := prepared;
    }

    /** `prepare`: a WHERE list of more than one node is placed within one bracket expression,
        whose text is accumulated node by node and then trimmed. */
    static method Prepare(q: Statement) returns (r: Statement)
      ensures r == q.(where := Folded(q.where))
    {
      r := q;
      if |q.where| > 1 {
        var w := q.where;
        var base := "";
        for i := 0 to |w|
          invariant i == 0 ==> base == ""
          invariant i > 0 ==> base == " " + Join(" ", Bases(w[..i]))
        {
          if i > 0 {
            JoinConcat(" ", Bases(w[..i]), [w[i].base]);
            assert Bases(w[..i + 1]) == Bases(w[..i]) + [w[i].base];
          } else {
            assert Bases(w[..1]) == [w[0].base];
          }
          base := base + " " + w[i].base;
        }
        assert w[..|w|] == w;
        TrimLeadingSpace(Join(" ", Bases(w)));
        r := q.(where := [Bracket("(" + Trim(base) + ")", w)]);
      }
    }

    /** `getCountSelect`: renders a copy whose projection is `COUNT(*) AS count`; the stored
        query is left as it is. */
    method GetCountSelect() returns (sql: string)
      ensures sql == Render(CountStatement(query))
    {
      var copy := query;
      copy := copy.(select := CountProjection);
      sql := Render(copy);
    }

    /** `limit`: LIMIT is replaced by the given offset and row count. */
    method Limit(limit: string, offset: string) returns (sql: string)
      modifies this
      ensures query == old(query).(limit := Some(LimitClause(offset, limit)))
      ensures sql == Render(query)
    {
      query := query.(limit := Some(LimitClause(offset, limit)));
      sql := Render(query);
    }

    /** `orderBy`: ORDER is replaced by the single given column and direction. */
    method OrderBy(column: string, order: string) returns (sql: string)
      modifies this
      ensures query == old(query).(order := [OrderItem(column, order)])
      ensures sql == Render(query)
    {
      query := query.(order := [OrderItem(column, order)]);
      sql := Render(query);
    }

    /** `where`: appends `[AND,] column operator value` to WHERE; nothing else changes. */
    method Where(column: string, value: string, op: string) returns (sql: string)
      modifies this
      ensures query == old(query).(where := AddCondition(old(query).where, column, value, op))
      ensures sql == Render(query)
    {
      var w := query.where;
      if w != [] {
        w := w + [AndNode];
      }
      w := w + [ColumnRef(column)];
      w := w + [Operator(op)];
      w := w + [Const(value)];
      assert w == AddCondition(query.where, column, value, op);
      query := query.(where := w);
      sql := Render(query);
    }

    /** `whereSql`: appends `[AND,]` and the first WHERE node the parser returned for the
        helper query `SELECT * FROM TEMP WHERE<sql>`; nothing else changes. */
    method WhereSql(node: Node) returns (sql: string)
      modifies this
      ensures query == old(query).(where := AddNode(old(query).where, node))
      ensures sql == Render(query)
    {
      var w := query.where;
      if w != [] {
        w := w + [AndNode];
      }
      w := w + [node];
      query := query.(where := w);
      sql := Render(query);
    }
  }

  /** The text `whereSql` hands to the parser for a fragment: note that no space separates
      the keyword from the fragment. */
  function HelperSql(fragment: string): (sql: string)
    ensures |sql| == 24 + |fragment| && sql[24..] == fragment
  {
    "SELECT * FROM TEMP WHERE" + fragment
  }
}
