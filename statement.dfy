/** The parsed query the helper keeps (`$this->query` of QueryHelper), the text the
    SQL creator renders from it, and the effect of each helper mutation on it. */
module Statements {
  import opened Strings
  import opened Markers

  /** One entry of the WHERE list, by its `expr_type`; `base` is its `base_expr`. */
  datatype Node =
    | ColRef(base: string, parts: seq<string>)
    | Operator(base: string)
    | Const(base: string)
    | Bracket(base: string, subTree: seq<Node>)
    | Other(exprType: string, base: string)

  datatype OrderItem = OrderItem(column: string, direction: string)

  datatype LimitClause = LimitClause(offset: string, rowCount: string)

  datatype Option<T> = None | Some(value: T)

  /** The clauses of a parsed SELECT. `select`, `from` and `rest` (GROUP BY, HAVING) are kept
      as opaque text; they may hold `?` placeholders of their own. */
  datatype Statement = Statement(
    select: string,
    from: string,
    where: seq<Node>,
    rest: string,
    order: seq<OrderItem>,
    limit: Option<LimitClause>)

  function Bases(w: seq<Node>): seq<string>
  {
    seq(|w|, i requires 0 <= i < |w| => w[i].base)
  }

  lemma BasesConcat(v: seq<Node>, w: seq<Node>)
    ensures Bases(v + w) == Bases(v) + Bases(w)
  {
  }

  // The renderer: the pieces of the statement, in clause order, joined by single spaces.
  // WHERE nodes are rendered left to right by their base text.

  function HeadTokens(q: Statement): seq<string>
  {
    ["SELECT", q.select, "FROM", q.from]
  }

  /** The keywords the renderer emits. */
  predicate IsKeyword(k: string)
  {
    k == "SELECT" || k == "FROM" || k == "WHERE" || k == "AND" || k == "ORDER BY" || k == "LIMIT"
  }

  /** A keyword holds no `?`. */
  lemma KeywordFree(k: string)
    requires IsKeyword(k)
    ensures Placeholders(k) == 0 && Count(k, '?') == 0
  {
    NoPlaceholders(k);
  }

  function WhereTokens(w: seq<Node>): seq<string>
  {
    if w == [] then [] else ["WHERE"] + Bases(w)
  }

  function OrderTokens(os: seq<OrderItem>): seq<string>
  {
    if os == [] then []
    else ["ORDER BY", Join(", ", seq(|os|, i requires 0 <= i < |os| => os[i].column + " " + os[i].direction))]
  }

  function LimitTokens(l: Option<LimitClause>): seq<string>
  {
    match l
    case None => []
    case Some(c) => ["LIMIT", c.offset + ", " + c.rowCount]
  }

  /** Everything the renderer emits after the WHERE clause. */
  function TailTokens(q: Statement): seq<string>
  {
    (if q.rest == "" then [] else [q.rest]) + OrderTokens(q.order) + LimitTokens(q.limit)
  }

  function Tokens(q: Statement): seq<string>
  {
    HeadTokens(q) + WhereTokens(q.where) + TailTokens(q)
  }

  /** `PHPSQLCreator::create`, as assumed here. */
  function Render(q: Statement): string
  {
    Join(" ", Tokens(q))
  }

  /** The placeholders of a rendered statement are those of its clauses, added up. */
  lemma RenderPlaceholders(q: Statement)
    ensures Placeholders(Render(q)) ==
      SumPlaceholders(HeadTokens(q)) + SumPlaceholders(WhereTokens(q.where)) + SumPlaceholders(TailTokens(q))
    ensures Count(Render(q), '?') ==
      SumCount(HeadTokens(q)) + SumCount(WhereTokens(q.where)) + SumCount(TailTokens(q))
  {
    JoinSpaces(Tokens(q));
    SumConcat(HeadTokens(q), WhereTokens(q.where));
    SumConcat(HeadTokens(q) + WhereTokens(q.where), TailTokens(q));
  }

  const AndNode: Node := Operator("AND")

  /** The colref node `where` appends for a column: `alias.column` keeps the first two
      dot-separated segments, anything else is used whole. */
  function ColumnRef(column: string): (n: Node)
    ensures n.ColRef?
  {
    if '.' in column then
      var pieces := Split(column, '.');
      ColRef(pieces[0] + "." + pieces[1], [pieces[0], pieces[1]])
    else
      ColRef(column, [column])
  }

  /** The parts of the colref are the dot-free segments its text is made of. */
  lemma ColumnRefParts(column: string)
    ensures |ColumnRef(column).parts| == (if '.' in column then 2 else 1)
    ensures Join(".", ColumnRef(column).parts) == ColumnRef(column).base
    ensures forall i :: 0 <= i < |ColumnRef(column).parts| ==> '.' !in ColumnRef(column).parts[i]
  {
    var n := ColumnRef(column);
    if '.' in column {
      assert n.parts[1..] == [n.parts[1]];
    }
  }

  /** The colref text is the column itself when it has at most one dot, and a proper prefix
      of it (the first two segments) when it has more. */
  lemma {:induction false} ColumnRefPrefix(column: string)
    ensures StartsWith(column, ColumnRef(column).base)
    ensures ColumnRef(column).base == column <==> Count(column, '.') <= 1
  {
    if '.' in column {
      var pieces := Split(column, '.');
      var b := pieces[0] + "." + pieces[1];
      SplitJoin(column, '.');
      if |pieces| == 2 {
        assert pieces[1..] == [pieces[1]];
        assert column == b;
      } else {
        var more := Join(".", pieces[2..]);
        assert pieces[1..][1..] == pieces[2..];
        assert Join(".", pieces[1..]) == pieces[1] + "." + more;
        assert column == b + ("." + more);
        assert column[..|b|] == b;
      }
    }
  }

  /** WHERE after `where(column, value, operator)`: `AND` when the list was not empty, then the
      column, the operator and the value as a constant; what was there stays. */
  function AddCondition(w: seq<Node>, column: string, value: string, op: string): (r: seq<Node>)
    ensures |r| == |w| + (if w == [] then 3 else 4)
    ensures r[..|w|] == w
    ensures w != [] ==> r[|w|] == AndNode
    ensures r[|r| - 3] == ColumnRef(column) && r[|r| - 2] == Operator(op) && r[|r| - 1] == Const(value)
  {
    (if w == [] then [] else w + [AndNode]) + [ColumnRef(column), Operator(op), Const(value)]
  }

  /** WHERE after `whereSql`: `AND` when the list was not empty, then the parsed node. */
  function AddNode(w: seq<Node>, node: Node): (r: seq<Node>)
    ensures |r| == |w| + (if w == [] then 1 else 2)
    ensures r[..|w|] == w
    ensures w != [] ==> r[|w|] == AndNode
    ensures r[|r| - 1] == node
  {
    (if w == [] then [] else w + [AndNode]) + [node]
  }

  /** WHERE after `prepare`: a list of more than one node becomes one bracket expression whose
      sub-tree is the list and whose text is the trimmed, space-joined node texts in brackets. */
  function Folded(w: seq<Node>): (r: seq<Node>)
    ensures |w| <= 1 ==> r == w
    ensures |w| > 1 ==> |r| == 1 && r[0].Bracket? && r[0].subTree == w
    ensures |w| > 1 ==> r[0].base == "(" + Trim(Join(" ", Bases(w))) + ")"
  {
    if |w| > 1 then [Bracket("(" + Trim(Join(" ", Bases(w))) + ")", w)] else w
  }

  /** Folding is idempotent: a folded list has at most one node. */
  lemma FoldedIdempotent(w: seq<Node>)
    ensures Folded(Folded(w)) == Folded(w)
  {
  }

  /** Whitespace around a text adds no placeholders: `s` has those of `s[i..j]` when all
      of it outside that slice is whitespace. */
  lemma {:induction false} PlaceholdersPadded(s: string, i: nat, j: nat)
    requires i <= j <= |s|
    requires forall k :: 0 <= k < i ==> IsTrimSpace(s[k])
    requires forall k :: j <= k < |s| ==> IsTrimSpace(s[k])
    ensures Placeholders(s) == Placeholders(s[i..j])
    decreases i + |s| - j
  {
    if i > 0 {
      var t := s[1..];
      assert s == [] + [s[0]] + t;
      PlaceholdersSep([], s[0], t);
      assert t[i - 1..j - 1] == s[i..j];
      PlaceholdersPadded(t, i - 1, j - 1);
    } else if j < |s| {
      var n := |s| - 1;
      var t := s[..n];
      assert s == t + [s[n]] + [];
      PlaceholdersSep(t, s[n], []);
      assert t[i..j] == s[i..j];
      PlaceholdersPadded(t, i, j);
    } else {
      assert s[i..j] == s;
    }
  }

  lemma PlaceholdersTrim(s: string)
    ensures Placeholders(Trim(s)) == Placeholders(s)
  {
    var i, j := TrimSlice(s);
    PlaceholdersPadded(s, i, j);
  }

  /** Brackets around a text add no placeholders. */
  lemma PlaceholdersBracketed(t: string)
    ensures Placeholders("(" + t + ")") == Placeholders(t)
  {
    assert "(" + t + ")" == [] + ['('] + (t + [')'] + []);
    PlaceholdersSep([], '(', t + [')'] + []);
    PlaceholdersSep(t, ')', []);
  }

  lemma WherePlaceholders(w: seq<Node>)
    ensures SumPlaceholders(WhereTokens(w)) == SumPlaceholders(Bases(w))
    ensures SumCount(WhereTokens(w)) == SumCount(Bases(w))
  {
    if w != [] {
      SumConcat(["WHERE"], Bases(w));
      KeywordFree("WHERE");
    }
  }

  /** Folding keeps the placeholders of the WHERE clause: the brackets and the trimmed
      whitespace hold none. */
  lemma FoldedPlaceholders(w: seq<Node>)
    ensures SumPlaceholders(WhereTokens(Folded(w))) == SumPlaceholders(WhereTokens(w))
  {
    if |w| > 1 {
      var j := Join(" ", Bases(w));
      WherePlaceholders(w);
      WherePlaceholders(Folded(w));
      assert Bases(Folded(w)) == ["(" + Trim(j) + ")"];
      PlaceholdersBracketed(Trim(j));
      PlaceholdersTrim(j);
      JoinSpaces(Bases(w));
    }
  }

  const CountProjection := "COUNT(*) AS count"

  /** The statement `getCountSelect` renders: the stored one with `COUNT(*) AS count` as its
      only projection. */
  function CountStatement(q: Statement): (r: Statement)
    ensures r.select == CountProjection && r.(select := q.select) == q
  {
    q.(select := CountProjection)
  }

  lemma HeadPlaceholders(q: Statement)
    ensures SumPlaceholders(HeadTokens(q)) == Placeholders(q.select) + Placeholders(q.from)
    ensures SumCount(HeadTokens(q)) == Count(q.select, '?') + Count(q.from, '?')
  {
    var h := HeadTokens(q);
    assert h[1..] == [q.select, "FROM", q.from];
    assert h[1..][1..] == ["FROM", q.from];
    SumPair("FROM", q.from);
    KeywordFree("SELECT");
    KeywordFree("FROM");
  }

  lemma CountProjectionPlaceholders()
    ensures Placeholders(CountProjection) == 0
  {
    assert forall i :: 0 <= i < |CountProjection| ==> CountProjection[i] != '?';
    NoPlaceholders(CountProjection);
  }

  /** The count statement renders the same text as the stored one except for the projection. */
  lemma CountStatementTokens(q: Statement)
    ensures Tokens(CountStatement(q))[0] == "SELECT"
    ensures Tokens(CountStatement(q))[1] == CountProjection
    ensures Tokens(CountStatement(q))[2..] == Tokens(q)[2..]
  {
  }

  /** The count statement has the placeholders of the stored one less those of its projection. */
  lemma CountStatementPlaceholders(q: Statement)
    ensures Placeholders(Render(CountStatement(q))) + Placeholders(q.select) == Placeholders(Render(q))
  {
    var c := CountStatement(q);
    var w, t := SumPlaceholders(WhereTokens(q.where)), SumPlaceholders(TailTokens(q));
    assert WhereTokens(c.where) == WhereTokens(q.where);
    assert TailTokens(c) == TailTokens(q);
    RenderPlaceholders(q);
    RenderPlaceholders(c);
    HeadPlaceholders(q);
    HeadPlaceholders(c);
    assert Placeholders(Render(q)) == Placeholders(q.select) + Placeholders(q.from) + w + t;
    CountProjectionPlaceholders();
    assert Placeholders(Render(c)) == Placeholders(q.from) + w + t;
  }
}
