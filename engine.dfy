/** The pair the data source keeps in step: the helper's parsed query and the flat array of
    bind values, and what `applyWhere` and the text filter do to it. */
module Engine {
  import opened Strings
  import opened Markers
  import opened Statements

  /** A bind value; PHP scalars. */
  datatype Value = Str(s: string) | Int(i: int) | Null

  /** One `applyWhere(column, value, operator)` call, with the `uniqid()` it draws. */
  datatype Condition = Condition(column: string, value: Value, op: string, uniq: string)

  /** The helper's parsed query and `$this->query_parameters`. */
  datatype State = State(query: Statement, params: seq<Value>)

  /** PHP's `(array)` cast of a scalar: `null` becomes the empty array, any other scalar the
      array holding it. */
  function AsArray(v: Value): (r: seq<Value>)
    ensures r == [] <==> v == Null
    ensures |r| <= 1 && forall x :: x in r ==> x == v
  {
    if v == Null then [] else [v]
  }

  /** `array_splice($ps, $i, 0, $vs)`: the elements of `vs` go in at index `i`, and the rest
      shifts right. */
  function Insert(ps: seq<Value>, i: nat, vs: seq<Value>): (r: seq<Value>)
    requires i <= |ps|
    ensures |r| == |ps| + |vs| && r[i..i + |vs|] == vs
    ensures r[..i] == ps[..i] && r[i + |vs|..] == ps[i..]
  {
    ps[..i] + vs + ps[i..]
  }

  /** `substr_count($before, '?')`, where `$before` is the first piece of `explode($id, $sql)`. */
  function SpliceIndex(sql: string, marker: string): (k: nat)
    ensures k <= Count(sql, '?')
  {
    var b := Before(sql, marker);
    CountPrefix(sql, |b|, '?');
    Count(b, '?')
  }

  /** `array_unshift` when no `?` precedes the marker, otherwise `array_splice($params, $k, 0,
      $value)`, which inserts at `k`, or appends when `k` is past the end. The replacement is
      cast to an array, so a null is not inserted at all. */
  function WhereSplice(ps: seq<Value>, k: nat, v: Value): (r: seq<Value>)
    ensures k == 0 ==> r == [v] + ps
    ensures k > 0 && v == Null ==> r == ps
    ensures k > 0 && v != Null ==> var i := if k < |ps| then k else |ps|;
      |r| == |ps| + 1 && r[i] == v && r[..i] + r[i + 1..] == ps
  {
    if k == 0 then [v] + ps else Insert(ps, if k < |ps| then k else |ps|, AsArray(v))
  }

  /** Inserting after position `o` leaves the value at `o` in place. */
  lemma SpliceKeeps(ps: seq<Value>, k: nat, v: Value, o: nat)
    requires o < k && o < |ps|
    ensures WhereSplice(ps, k, v)[o] == ps[o]
  {
    if v != Null {
      var r := WhereSplice(ps, k, v);
      var at := if k < |ps| then k else |ps|;
      assert r[..at] + r[at + 1..] == ps;
      assert r[o] == (r[..at] + r[at + 1..])[o];
    }
  }

  /** An index at or past the end appends the value, unless it is a null spliced after
      other values, which is dropped. */
  lemma SpliceAtEnd(ps: seq<Value>, k: nat, v: Value)
    requires k >= |ps|
    ensures WhereSplice(ps, k, v) == if k > 0 && v == Null then ps else ps + [v]
  {
    if k > 0 && v != Null {
      assert Insert(ps, |ps|, [v]) == ps + [v];
    }
  }

  /** `applyWhere`: the helper appends `column operator marker`, and the value goes to the
      index found by counting `?` in front of the marker in the re-rendered SQL. Only WHERE
      changes, growing by 3 nodes when empty and by 4 otherwise, and one value is added
      when it is not null (a null spliced after a `?` adds none: `WhereStepDropsNull`). */
  function WhereStep(e: State, c: Condition): (r: State)
    ensures r.query.(where := e.query.where) == e.query
    ensures |r.query.where| == |e.query.where| + (if e.query.where == [] then 3 else 4)
    ensures r.query.where[..|e.query.where|] == e.query.where
    ensures |e.params| <= |r.params| <= |e.params| + 1
    ensures c.value != Null ==> |r.params| == |e.params| + 1
  {
    var q := e.query.(where := AddCondition(e.query.where, c.column, Marker(c.uniq), c.op));
    State(q, WhereSplice(e.params, SpliceIndex(Render(q), Marker(c.uniq)), c.value))
  }

  /** `applyWhere` for each condition in turn. A call never removes a value and adds at most
      one, and a null spliced after a `?` adds none (`WhereStepDropsNull`); with admissible
      calls each adds exactly its own (`WhereAllAligned`). */
  function WhereAll(e: State, cs: seq<Condition>): (r: State)
    ensures |e.params| <= |r.params| <= |e.params| + |cs|
    decreases |cs|
  {
    if cs == [] then e else WhereStep(WhereAll(e, cs[..|cs| - 1]), cs[|cs| - 1])
  }

  /** One more call runs after the earlier ones. */
  lemma WhereAllSnoc(e: State, cs: seq<Condition>, c: Condition)
    ensures WhereAll(e, cs + [c]) == WhereStep(WhereAll(e, cs), c)
  {
    assert (cs + [c])[..|cs|] == cs;
  }

  function Values(cs: seq<Condition>): seq<Value>
  {
    seq(|cs|, i requires 0 <= i < |cs| => cs[i].value)
  }

  lemma ValuesSnoc(ps: seq<Value>, cs: seq<Condition>)
    requires cs != []
    ensures ps + Values(cs) == ps + Values(cs[..|cs| - 1]) + [cs[|cs| - 1].value]
  {
    assert Values(cs) == Values(cs[..|cs| - 1]) + [cs[|cs| - 1].value];
  }

  /** Each `applyWhere` changes WHERE only, and appends 3 nodes to an empty WHERE or 4 to a
      non-empty one. */
  lemma {:induction false} WhereAllShape(e: State, cs: seq<Condition>)
    ensures WhereAll(e, cs).query.(where := e.query.where) == e.query
    ensures |WhereAll(e, cs).query.where| ==
      |e.query.where| + 4 * |cs| - (if e.query.where == [] && cs != [] then 1 else 0)
    ensures WhereAll(e, cs).query.where[..|e.query.where|] == e.query.where
    decreases |cs|
  {
    if cs != [] {
      var prev := cs[..|cs| - 1];
      WhereAllShape(e, prev);
      var d := WhereAll(e, prev);
      var w, w' := d.query.where, WhereAll(e, cs).query.where;
      assert w == [] ==> e.query.where == [] && prev == [];
      assert w'[..|e.query.where|] == w[..|e.query.where|];
    }
  }

  /** The bind values and the SQL are in step: as many placeholders as values. */
  predicate Aligned(e: State)
  {
    Placeholders(Render(e.query)) == |e.params|
  }

  /** No `?` is rendered after the WHERE clause (none in GROUP BY, HAVING, ORDER, LIMIT). */
  predicate TailFree(q: Statement)
  {
    SumCount(TailTokens(q)) == 0
  }

  /** The text rendered in front of the marker `where` appends for a condition. */
  function PreTokens(q: Statement, column: string, op: string): seq<string>
  {
    HeadTokens(q) + ["WHERE"] + Bases(q.where) + (if q.where == [] then [] else ["AND"]) +
    [ColumnRef(column).base, op]
  }

  /** What locating the marker needs of a call: the id is what `uniqid()` returns and occurs
      nowhere in the text in front of it, and neither column nor operator holds a `?`. */
  predicate Fresh(q: Statement, c: Condition)
  {
    IsUniqId(c.uniq) && '?' !in c.column && '?' !in c.op &&
    forall t :: t in PreTokens(q, c.column, c.op) ==> !Occurs(Marker(c.uniq), t)
  }

  /** What the alignment argument needs of a call: a fresh marker, and a value that is not
      null, since `array_splice` drops a null (`WhereStepDropsNull`). */
  predicate Admissible(q: Statement, c: Condition)
  {
    Fresh(q, c) && c.value != Null
  }

  /** The WHERE tokens after `where`: the old ones, `AND` when there were any, then the column,
      the operator and the value. */
  lemma WhereTokensAfter(w: seq<Node>, column: string, value: string, op: string)
    ensures WhereTokens(AddCondition(w, column, value, op)) ==
      ["WHERE"] + Bases(w) + (if w == [] then [] else ["AND"]) + [ColumnRef(column).base, op, value]
  {
    var added := [ColumnRef(column), Operator(op), Const(value)];
    assert Bases(added) == [ColumnRef(column).base, op, value];
    if w == [] {
      assert AddCondition(w, column, value, op) == added;
    } else {
      assert AddCondition(w, column, value, op) == w + ([AndNode] + added);
      BasesConcat(w, [AndNode] + added);
      assert Bases([AndNode] + added) == ["AND"] + Bases(added);
    }
  }

  lemma TokensAfterWhere(q: Statement, column: string, value: string, op: string)
    ensures Tokens(q.(where := AddCondition(q.where, column, value, op))) ==
      PreTokens(q, column, op) + [value] + TailTokens(q)
  {
    var q' := q.(where := AddCondition(q.where, column, value, op));
    WhereTokensAfter(q.where, column, value, op);
    assert HeadTokens(q') == HeadTokens(q);
    assert TailTokens(q') == TailTokens(q);
  }

  /** Joining by spaces around one piece: the text in front, a space, the piece, and the rest. */
  lemma JoinAround(pre: seq<string>, value: string, tail: seq<string>)
    requires pre != []
    ensures Join(" ", pre + [value] + tail) ==
      Join(" ", pre) + [' '] + value + (if tail == [] then "" else " " + Join(" ", tail))
  {
    JoinConcat(" ", pre, [value] + tail);
    assert pre + [value] + tail == pre + ([value] + tail);
    if tail != [] {
      JoinConcat(" ", [value], tail);
    }
  }

  /** The rendered SQL after `where` is the text in front, a space, the value and the rest. */
  lemma RenderAfterWhere(q: Statement, column: string, value: string, op: string)
    ensures var pre, tail := PreTokens(q, column, op), TailTokens(q);
      Render(q.(where := AddCondition(q.where, column, value, op))) ==
      Join(" ", pre) + [' '] + value + (if tail == [] then "" else " " + Join(" ", tail))
  {
    var pre := PreTokens(q, column, op);
    TokensAfterWhere(q, column, value, op);
    assert pre[0] == "SELECT";
    JoinAround(pre, value, TailTokens(q));
  }

  lemma SumAtMost(xs: seq<string>)
    ensures SumPlaceholders(xs) <= SumCount(xs)
  {
    if xs != [] {
      SumGap(xs, 0);
    }
  }

  /** The old WHERE nodes sit right after the head and the keyword. */
  lemma PreTokensAt(q: Statement, column: string, op: string, i: nat)
    requires i < |q.where|
    ensures PreTokens(q, column, op)[5 + i] == q.where[i].base
  {
    var h := HeadTokens(q) + ["WHERE"];
    var bs := Bases(q.where);
    assert |h| == 5;
    assert PreTokens(q, column, op) == h + (bs + ((if q.where == [] then [] else ["AND"]) +
      [ColumnRef(column).base, op]));
    assert bs[i] == q.where[i].base;
  }



  /** Pieces without `?` around the WHERE list add nothing to its sums or the head's. */
  lemma PreSums(h: seq<string>, bs: seq<string>, conj: seq<string>, last: seq<string>)
    requires forall i :: 0 <= i < |conj| ==> '?' !in conj[i]
    requires forall i :: 0 <= i < |last| ==> '?' !in last[i]
    ensures SumPlaceholders(h + ["WHERE"] + bs + conj + last) == SumPlaceholders(h) + SumPlaceholders(bs)
    ensures SumCount(h + ["WHERE"] + bs + conj + last) == SumCount(h) + SumCount(bs)
  {
    KeywordFree("WHERE");
    SumSingle("WHERE");
    SumFree(conj);
    SumFree(last);
    SumConcat(h, ["WHERE"]);
    SumConcat(h + ["WHERE"], bs);
    SumConcat(h + ["WHERE"] + bs, conj);
    SumConcat(h + ["WHERE"] + bs + conj, last);
  }

  /** The text in front of the new marker holds the placeholders (and the `?`) of the head
      and of the old WHERE clause, and no others. */
  lemma PreTokensSums(q: Statement, column: string, op: string)
    requires '?' !in column && '?' !in op
    ensures SumPlaceholders(PreTokens(q, column, op)) ==
      SumPlaceholders(HeadTokens(q)) + SumPlaceholders(Bases(q.where))
    ensures SumCount(PreTokens(q, column, op)) == SumCount(HeadTokens(q)) + SumCount(Bases(q.where))
  {
    var b := ColumnRef(column).base;
    ColumnRefPrefix(column);
    assert '?' !in b by {
      assert forall j :: 0 <= j < |b| ==> b[j] == column[j];
    }
    KeywordFree("AND");
    PreSums(HeadTokens(q), Bases(q.where), if q.where == [] then [] else ["AND"], [b, op]);
  }

  /** The text `explode` cuts off in front of a fresh marker is the text of the tokens before
      it and one space. */
  lemma BeforeMarker(q: Statement, c: Condition)
    requires Fresh(q, c)
    ensures Before(Render(q.(where := AddCondition(q.where, c.column, Marker(c.uniq), c.op))), Marker(c.uniq)) ==
      Join(" ", PreTokens(q, c.column, c.op)) + [' ']
  {
    var m := Marker(c.uniq);
    var pre, tail := PreTokens(q, c.column, c.op), TailTokens(q);
    var rest := if tail == [] then "" else " " + Join(" ", tail);
    RenderAfterWhere(q, c.column, m, c.op);
    MarkerShape(c.uniq);
    OccursJoin(m, ' ', pre);
    BeforeFirst(Join(" ", pre), ' ', m, rest);
  }

  /** The `?` and the placeholders of the tokens in front of the marker, and a space. */
  lemma PreTextSums(pre: seq<string>)
    ensures Count(Join(" ", pre) + [' '], '?') == SumCount(pre)
    ensures Placeholders(Join(" ", pre) + [' ']) == SumPlaceholders(pre)
  {
    var j := Join(" ", pre);
    JoinSpaces(pre);
    CountConcat(j, [' '], '?');
    PlaceholdersSep(j, ' ', []);
    assert j + [' '] + [] == j + [' '];
  }

  /** The placeholders of the SQL after `where` with a fresh marker: those in front, the
      marker's one, and those after the WHERE clause. */
  lemma PlaceholdersAfterWhere(q: Statement, c: Condition)
    requires IsUniqId(c.uniq)
    ensures Placeholders(Render(q.(where := AddCondition(q.where, c.column, Marker(c.uniq), c.op)))) ==
      SumPlaceholders(PreTokens(q, c.column, c.op)) + 1 + SumPlaceholders(TailTokens(q))
  {
    var m := Marker(c.uniq);
    var pre, tail := PreTokens(q, c.column, c.op), TailTokens(q);
    TokensAfterWhere(q, c.column, m, c.op);
    JoinSpaces(pre + [m] + tail);
    SumConcat(pre, [m]);
    SumConcat(pre + [m], tail);
    ResolveMarker(c.uniq);
    SumSingle(m);
  }

  /** Where the value of an admissible call lands, in terms of the old state: the text in front
      of the marker is split off exactly, its `?` give the splice index, and its placeholders
      are the head's and the old WHERE clause's. */
  lemma WhereStepIndex(e: State, c: Condition)
    requires Fresh(e.query, c)
    ensures var q := e.query;
      var pre := PreTokens(q, c.column, c.op);
      var r := Render(WhereStep(e, c).query);
      Before(r, Marker(c.uniq)) == Join(" ", pre) + [' '] &&
      SpliceIndex(r, Marker(c.uniq)) == SumCount(pre) &&
      Placeholders(Before(r, Marker(c.uniq))) == SumPlaceholders(pre) &&
      Placeholders(r) == SumPlaceholders(pre) + 1 + SumPlaceholders(TailTokens(q))
  {
    BeforeMarker(e.query, c);
    PreTextSums(PreTokens(e.query, c.column, c.op));
    PlaceholdersAfterWhere(e.query, c);
  }

  /** The placeholders of an old state, split at the WHERE clause's end. */
  lemma AlignedSplit(e: State)
    ensures Placeholders(Render(e.query)) ==
      SumPlaceholders(HeadTokens(e.query)) + SumPlaceholders(Bases(e.query.where)) +
      SumPlaceholders(TailTokens(e.query))
  {
    RenderPlaceholders(e.query);
    WherePlaceholders(e.query.where);
  }

  /** With no `?` after the WHERE clause, the old values are exactly the placeholders in front
      of the marker, and the count of raw `?` there is at least as large. */
  lemma WhereStepCounts(e: State, c: Condition)
    requires Aligned(e) && TailFree(e.query) && Fresh(e.query, c)
    ensures var pre := PreTokens(e.query, c.column, c.op);
      SumPlaceholders(pre) == |e.params| <= SumCount(pre) && SumPlaceholders(TailTokens(e.query)) == 0
  {
    var q := e.query;
    PreTokensSums(q, c.column, c.op);
    AlignedSplit(e);
    SumAtMost(TailTokens(q));
    SumAtMost(PreTokens(q, c.column, c.op));
  }

  /** The central property. When nothing after the WHERE clause holds a `?`, `applyWhere` keeps
      the values in step with the placeholders: the new value goes last, which is exactly the
      position of its placeholder among all placeholders of the rewritten SQL. */
  lemma WhereStepAligned(e: State, c: Condition)
    requires Aligned(e) && TailFree(e.query) && Admissible(e.query, c)
    ensures WhereStep(e, c).params == e.params + [c.value]
    ensures Aligned(WhereStep(e, c))
    ensures Placeholders(Before(Render(WhereStep(e, c).query), Marker(c.uniq))) == |e.params|
  {
    WhereStepIndex(e, c);
    WhereStepCounts(e, c);
    SpliceAtEnd(e.params, SpliceIndex(Render(WhereStep(e, c).query), Marker(c.uniq)), c.value);
  }

  /** As written, a null value is lost once any `?` precedes the marker: the splice casts it
      to an empty array and inserts nothing, while the SQL gains a placeholder. */
  lemma WhereStepDropsNull(e: State, c: Condition)
    requires Aligned(e) && TailFree(e.query) && Fresh(e.query, c)
    requires c.value == Null && e.params != []
    ensures WhereStep(e, c).params == e.params
    ensures Placeholders(Render(WhereStep(e, c).query)) == |e.params| + 1
    ensures !Aligned(WhereStep(e, c))
  {
    WhereStepIndex(e, c);
    WhereStepCounts(e, c);
  }

  /** As written, the count overshoots when an earlier marker precedes: each marker holds two
      `?`. With a placeholder after the WHERE clause (in HAVING, say) the value then lands past
      its own placeholder, and an older value sits at the new placeholder's position. */
  lemma WhereStepOvershoot(e: State, c: Condition, i: nat, u: string)
    requires Aligned(e) && Fresh(e.query, c)
    requires SumPlaceholders(TailTokens(e.query)) > 0
    requires i < |e.query.where| && IsUniqId(u) && e.query.where[i].base == Marker(u)
    ensures var r := Render(WhereStep(e, c).query);
      var k := SpliceIndex(r, Marker(c.uniq));
      var o := Placeholders(Before(r, Marker(c.uniq)));
      o < |e.params| && (if k < |e.params| then k else |e.params|) > o &&
      WhereStep(e, c).params[o] == e.params[o]
  {
    var q := e.query;
    var pre := PreTokens(q, c.column, c.op);
    WhereStepIndex(e, c);
    PreTokensSums(q, c.column, c.op);
    AlignedSplit(e);
    PreTokensAt(q, c.column, c.op, i);
    SumGap(pre, 5 + i);
    MarkerShape(u);
    ResolveMarker(u);
    SpliceKeeps(e.params, SumCount(pre), c.value, SumPlaceholders(pre));
  }

  /** `where` leaves everything after the WHERE clause alone. */
  lemma WhereStepTail(e: State, c: Condition)
    ensures TailTokens(WhereStep(e, c).query) == TailTokens(e.query)
  {
  }

  /** Every call of a sequence is admissible in the state the calls before it left. */
  predicate AllAdmissible(e: State, cs: seq<Condition>)
    decreases |cs|
  {
    cs == [] ||
    (AllAdmissible(e, cs[..|cs| - 1]) && Admissible(WhereAll(e, cs[..|cs| - 1]).query, cs[|cs| - 1]))
  }

  /** Repeated `applyWhere` (filterOne, the select and range filters) keeps the values in step
      and in call order, as long as nothing after the WHERE clause holds a `?`. */
  lemma {:induction false} WhereAllAligned(e: State, cs: seq<Condition>)
    requires Aligned(e) && TailFree(e.query) && AllAdmissible(e, cs)
    ensures Aligned(WhereAll(e, cs)) && TailFree(WhereAll(e, cs).query)
    ensures WhereAll(e, cs).params == e.params + Values(cs)
    decreases |cs|
  {
    if cs != [] {
      var prev, c := cs[..|cs| - 1], cs[|cs| - 1];
      WhereAllAligned(e, prev);
      var s := WhereAll(e, prev);
      var t := WhereStep(s, c);
      assert WhereAll(e, cs) == t;
      WhereStepAligned(s, c);
      WhereStepTail(s, c);
      ValuesSnoc(e.params, cs);
    }
  }

  /** `Aligned` is a count, and every admissible call keeps it, whatever follows the WHERE
      clause; `TailFree` is needed only to put the value at its own placeholder
      (`WhereStepOvershoot`). */
  lemma WhereStepKeepsCount(e: State, c: Condition)
    requires Aligned(e) && Admissible(e.query, c)
    ensures Aligned(WhereStep(e, c))
  {
    WhereStepIndex(e, c);
    PreTokensSums(e.query, c.column, c.op);
    AlignedSplit(e);
  }

  /** The tokens `t` and then the marker of `u` open the text of `q` up to the end of its WHERE
      clause, and the marker occurs in no token of `t`: `explode` on the marker cuts exactly
      after `t`. */
  predicate Anchored(q: Statement, t: seq<string>, u: string)
  {
    IsUniqId(u) && t != [] && (forall x :: x in t ==> !Occurs(Marker(u), x)) &&
    t + [Marker(u)] <= HeadTokens(q) + WhereTokens(q.where)
  }

  /** The text in front of an anchored marker is the text of the tokens in front of it. */
  lemma AnchoredBefore(q: Statement, t: seq<string>, u: string)
    requires Anchored(q, t, u)
    ensures Before(Render(q), Marker(u)) == Join(" ", t) + [' ']
  {
    var m := Marker(u);
    var hw := HeadTokens(q) + WhereTokens(q.where);
    var r := hw[|t| + 1..] + TailTokens(q);
    assert hw == t + [m] + hw[|t| + 1..];
    assert Tokens(q) == t + [m] + r;
    JoinAround(t, m, r);
    MarkerShape(u);
    OccursJoin(m, ' ', t);
    BeforeFirst(Join(" ", t), ' ', m, if r == [] then "" else " " + Join(" ", r));
  }

  /** The WHERE tokens of a list extend those of any prefix of it. */
  lemma WhereTokensPrefix(w: seq<Node>, w': seq<Node>)
    requires w <= w'
    ensures WhereTokens(w) <= WhereTokens(w')
  {
    if w != [] {
      assert w' == w + w'[|w|..];
      BasesConcat(w, w'[|w|..]);
    }
  }

  /** Extending WHERE and changing nothing else keeps every anchor. */
  lemma AnchoredKept(q: Statement, q': Statement, t: seq<string>, u: string)
    requires Anchored(q, t, u)
    requires q'.(where := q.where) == q && q.where <= q'.where
    ensures Anchored(q', t, u)
  {
    WhereTokensPrefix(q.where, q'.where);
    var h, w, w' := HeadTokens(q), WhereTokens(q.where), WhereTokens(q'.where);
    assert HeadTokens(q') == h;
    assert (h + w') [..|h + w|] == h + w;
  }

  lemma Regroup(h: seq<string>, x: seq<string>, conj: seq<string>, b: string, op: string, m: string)
    ensures h + (["WHERE"] + x + conj + [b, op, m]) == h + ["WHERE"] + x + conj + [b, op] + [m]
  {
  }

  /** Up to the end of WHERE, the text after `where` is the text in front of the value, then
      the value. */
  lemma HeadWhereAfter(q: Statement, column: string, value: string, op: string)
    ensures var q' := q.(where := AddCondition(q.where, column, value, op));
      HeadTokens(q') + WhereTokens(q'.where) == PreTokens(q, column, op) + [value]
  {
    WhereTokensAfter(q.where, column, value, op);
    Regroup(HeadTokens(q), Bases(q.where), if q.where == [] then [] else ["AND"], ColumnRef(column).base, op, value);
  }

  /** After `where`, the new marker is anchored behind the text in front of it. */
  lemma WhereStepAnchors(e: State, c: Condition)
    requires Fresh(e.query, c)
    ensures Anchored(WhereStep(e, c).query, PreTokens(e.query, c.column, c.op), c.uniq)
  {
    HeadWhereAfter(e.query, c.column, Marker(c.uniq), c.op);
  }

  lemma LastSplit(cs: seq<Condition>)
    requires cs != []
    ensures cs == cs[..|cs| - 1] + [cs[|cs| - 1]]
  {
  }

  /** The text in front of the `j`-th call's marker, at that call. */
  function PreAt(e: State, cs: seq<Condition>, j: nat): seq<string>
    requires j < |cs|
  {
    PreTokens(WhereAll(e, cs[..j]).query, cs[j].column, cs[j].op)
  }

  /** One more call leaves the text in front of an earlier call's marker as it was. */
  lemma PreAtSnoc(e: State, cs: seq<Condition>, c: Condition, j: nat)
    requires j < |cs|
    ensures PreAt(e, cs + [c], j) == PreAt(e, cs, j)
  {
    assert (cs + [c])[..j] == cs[..j];
  }

  /** The `j`-th of the calls `cs` is anchored in `q`: its marker follows the text that was in
      front of it at its own call, and that text holds one placeholder per earlier value. */
  predicate AnchoredAt(e: State, cs: seq<Condition>, q: Statement, j: nat)
    requires j < |cs|
  {
    Anchored(q, PreAt(e, cs, j), cs[j].uniq) && SumPlaceholders(PreAt(e, cs, j)) == |e.params| + j
  }

  /** The last call of a series is anchored right after it is applied. */
  lemma AnchoredLast(e: State, prev: seq<Condition>, c: Condition)
    requires Aligned(e) && TailFree(e.query) && AllAdmissible(e, prev)
    requires Fresh(WhereAll(e, prev).query, c)
    ensures AnchoredAt(e, prev + [c], WhereStep(WhereAll(e, prev), c).query, |prev|)
  {
    WhereAllAligned(e, prev);
    var d := WhereAll(e, prev);
    assert (prev + [c])[..|prev|] == prev;
    WhereStepAnchors(d, c);
    WhereStepCounts(d, c);
  }

  /** Growing the WHERE clause at its end keeps every earlier call anchored. */
  lemma AnchorsGrow(e: State, prev: seq<Condition>, c: Condition, cs: seq<Condition>, q: Statement, q': Statement)
    requires cs == prev + [c]
    requires forall j :: 0 <= j < |prev| ==> AnchoredAt(e, prev, q, j)
    requires q'.(where := q.where) == q && q.where <= q'.where
    requires AnchoredAt(e, cs, q', |prev|)
    ensures forall j :: 0 <= j < |cs| ==> AnchoredAt(e, cs, q', j)
  {
    forall j | 0 <= j < |cs|
      ensures AnchoredAt(e, cs, q', j)
    {
      if j < |prev| {
        assert AnchoredAt(e, prev, q, j);
        PreAtSnoc(e, prev, c, j);
        AnchoredKept(q, q', PreAt(e, prev, j), prev[j].uniq);
      }
    }
  }

  /** Through a series of admissible calls with no `?` after WHERE, each call's marker stays
      anchored behind the text in front of it at its own call, which holds exactly the values
      that came before it. */
  lemma {:induction false} WhereAllAnchored(e: State, cs: seq<Condition>)
    requires Aligned(e) && TailFree(e.query) && AllAdmissible(e, cs)
    ensures forall j :: 0 <= j < |cs| ==> AnchoredAt(e, cs, WhereAll(e, cs).query, j)
    decreases |cs|
  {
    if cs != [] {
      var prev, c := cs[..|cs| - 1], cs[|cs| - 1];
      LastSplit(cs);
      WhereAllAnchored(e, prev);
      var d := WhereAll(e, prev);
      WhereAllSnoc(e, prev, c);
      var q' := WhereAll(e, cs).query;
      assert q' == WhereStep(d, c).query;
      AnchoredLast(e, prev, c);
      AnchorsGrow(e, prev, c, cs, d.query, q');
    }
  }

  /** An anchored call's marker has exactly one placeholder per earlier value in front of it. */
  lemma AnchoredCount(e: State, cs: seq<Condition>, q: Statement, j: nat)
    requires j < |cs| && AnchoredAt(e, cs, q, j)
    ensures Placeholders(Before(Render(q), Marker(cs[j].uniq))) == |e.params| + j
  {
    var t := PreAt(e, cs, j);
    AnchoredBefore(q, t, cs[j].uniq);
    PreTextSums(t);
  }

  /** Each value sits at its own placeholder: after a series of admissible calls with no `?`
      after WHERE, the value of the `j`-th call is at index `|e.params| + j`, and exactly that
      many placeholders precede its marker in the final SQL. */
  lemma WhereAllPositions(e: State, cs: seq<Condition>)
    requires Aligned(e) && TailFree(e.query) && AllAdmissible(e, cs)
    ensures WhereAll(e, cs).params == e.params + Values(cs)
    ensures forall j :: 0 <= j < |cs| ==>
      WhereAll(e, cs).params[|e.params| + j] == cs[j].value &&
      Placeholders(Before(Render(WhereAll(e, cs).query), Marker(cs[j].uniq))) == |e.params| + j
  {
    WhereAllAligned(e, cs);
    WhereAllAnchored(e, cs);
    AnchoredPositions(e, cs, WhereAll(e, cs));
  }

  /** The positions, for any state whose values and markers are laid out by the calls `cs`. */
  lemma AnchoredPositions(e: State, cs: seq<Condition>, r: State)
    requires r.params == e.params + Values(cs)
    requires forall j :: 0 <= j < |cs| ==> AnchoredAt(e, cs, r.query, j)
    ensures forall j :: 0 <= j < |cs| ==>
      r.params[|e.params| + j] == cs[j].value &&
      Placeholders(Before(Render(r.query), Marker(cs[j].uniq))) == |e.params| + j
  {
    forall j | 0 <= j < |cs|
      ensures r.params[|e.params| + j] == cs[j].value
      ensures Placeholders(Before(Render(r.query), Marker(cs[j].uniq))) == |e.params| + j
    {
      assert AnchoredAt(e, cs, r.query, j);
      AnchoredCount(e, cs, r.query, j);
    }
  }

  /** The text filter's change: the helper appends the parsed node, and its arguments are
      appended to the values. */
  function TextStep(e: State, node: Node, args: seq<Value>): (r: State)
    ensures r.query.(where := e.query.where) == e.query
    ensures |r.query.where| == |e.query.where| + (if e.query.where == [] then 1 else 2)
    ensures r.query.where[..|e.query.where|] == e.query.where && r.query.where[|r.query.where| - 1] == node
    ensures |r.params| == |e.params| + |args| && r.params[..|e.params|] == e.params && r.params[|e.params|..] == args
  {
    State(e.query.(where := AddNode(e.query.where, node)), e.params + args)
  }

  /** The node `whereSql` appends brings its own placeholders, the `AND` none. */
  lemma AddNodePlaceholders(w: seq<Node>, node: Node)
    ensures SumPlaceholders(Bases(AddNode(w, node))) == SumPlaceholders(Bases(w)) + Placeholders(node.base)
  {
    SumSingle(node.base);
    if w == [] {
      assert Bases(AddNode(w, node)) == [node.base];
    } else {
      assert AddNode(w, node) == w + [AndNode, node];
      BasesConcat(w, [AndNode, node]);
      assert Bases([AndNode, node]) == ["AND", node.base];
      SumConcat(Bases(w), ["AND", node.base]);
      SumPair("AND", node.base);
      KeywordFree("AND");
    }
  }

  /** Appending the arguments at the end is right when the node has one placeholder per
      argument and nothing after the WHERE clause holds a `?`. */
  lemma TextStepAligned(e: State, node: Node, args: seq<Value>)
    requires Aligned(e) && TailFree(e.query)
    requires Placeholders(node.base) == |args|
    ensures Aligned(TextStep(e, node, args)) && TailFree(TextStep(e, node, args).query)
    ensures TextStep(e, node, args).params[|e.params|..] == args
  {
    var e' := TextStep(e, node, args);
    AddNodePlaceholders(e.query.where, node);
    assert TailTokens(e'.query) == TailTokens(e.query);
    assert HeadTokens(e'.query) == HeadTokens(e.query);
    AlignedSplit(e);
    AlignedSplit(e');
  }

  /** Replacing WHERE by a list with as many placeholders keeps those of the rendering. */
  lemma WhereReplaced(q: Statement, w: seq<Node>)
    requires SumPlaceholders(WhereTokens(w)) == SumPlaceholders(WhereTokens(q.where))
    ensures Placeholders(Render(q.(where := w))) == Placeholders(Render(q))
  {
    var q' := q.(where := w);
    RenderPlaceholders(q);
    RenderPlaceholders(q');
  }

  /** `prepare` keeps the values in step: folding the WHERE list changes no placeholder. */
  lemma PrepareAligned(q: Statement, params: seq<Value>)
    requires Aligned(State(q, params))
    ensures Aligned(State(q.(where := Folded(q.where)), params))
  {
    FoldedPlaceholders(q.where);
    WhereReplaced(q, Folded(q.where));
  }

  /** The `?` after the WHERE clause, clause by clause. */
  lemma TailCount(q: Statement)
    ensures SumCount(TailTokens(q)) ==
      SumCount(if q.rest == "" then [] else [q.rest]) + SumCount(OrderTokens(q.order)) + SumCount(LimitTokens(q.limit))
  {
    var r: seq<string> := if q.rest == "" then [] else [q.rest];
    SumConcat(r, OrderTokens(q.order));
    SumConcat(r + OrderTokens(q.order), LimitTokens(q.limit));
  }

  /** Replacing what follows the WHERE clause with `?`-free text keeps the values in step. */
  lemma TailReplaced(q: Statement, q': Statement, params: seq<Value>)
    requires Aligned(State(q, params)) && TailFree(q)
    requires q'.select == q.select && q'.from == q.from && q'.where == q.where
    requires SumCount(TailTokens(q')) == 0
    ensures Aligned(State(q', params)) && TailFree(q')
  {
    RenderPlaceholders(q);
    RenderPlaceholders(q');
    SumAtMost(TailTokens(q));
    SumAtMost(TailTokens(q'));
  }

  /** `orderBy` with a column and a direction without `?` keeps the values in step. */
  lemma OrderByAligned(q: Statement, params: seq<Value>, column: string, direction: string)
    requires Aligned(State(q, params)) && TailFree(q)
    requires '?' !in column && '?' !in direction
    ensures Aligned(State(q.(order := [OrderItem(column, direction)]), params))
    ensures TailFree(q.(order := [OrderItem(column, direction)]))
  {
    var q' := q.(order := [OrderItem(column, direction)]);
    var item := column + " " + direction;
    assert OrderTokens(q'.order) == ["ORDER BY", Join(", ", [item])];
    assert '?' !in item;
    NoPlaceholders(item);
    KeywordFree("ORDER BY");
    SumPair("ORDER BY", item);
    TailCount(q);
    TailCount(q');
    TailReplaced(q, q', params);
  }

  /** `limit` with an offset and a row count without `?` keeps the values in step. */
  lemma LimitAligned(q: Statement, params: seq<Value>, offset: string, rowCount: string)
    requires Aligned(State(q, params)) && TailFree(q)
    requires '?' !in offset && '?' !in rowCount
    ensures Aligned(State(q.(limit := Some(LimitClause(offset, rowCount))), params))
    ensures TailFree(q.(limit := Some(LimitClause(offset, rowCount))))
  {
    var q' := q.(limit := Some(LimitClause(offset, rowCount)));
    var text := offset + ", " + rowCount;
    assert '?' !in text;
    NoPlaceholders(text);
    KeywordFree("LIMIT");
    SumPair("LIMIT", text);
    TailCount(q);
    TailCount(q');
    TailReplaced(q, q', params);
  }

  /** `SELECT <select> FROM <from> WHERE a = ?` after `prepare`. */
  function ExampleQuery(select: string, from: string): Statement
  {
    Statement(select, from, [Bracket("(a = ?)", [])], "", [], None)
  }

  /** The verifier evaluates the rewrite on this short text directly. */
  lemma ExampleBracket()
    ensures Placeholders("(a = ?)") == 1
  {
  }

  lemma ExampleWhere(select: string, from: string)
    ensures SumPlaceholders(Bases(ExampleQuery(select, from).where)) == 1
  {
    ExampleBracket();
    assert Bases(ExampleQuery(select, from).where) == ["(a = ?)"];
    SumSingle("(a = ?)");
  }

  lemma ExampleAligned(select: string, from: string)
    requires '?' !in select && '?' !in from
    ensures Aligned(State(ExampleQuery(select, from), [Int(1)]))
  {
    var e := State(ExampleQuery(select, from), [Int(1)]);
    ExampleWhere(select, from);
    ExampleHead(select, from);
    AlignedSplit(e);
    assert TailTokens(e.query) == [];
  }

  lemma ExampleHead(select: string, from: string)
    requires '?' !in select && '?' !in from
    ensures SumPlaceholders(HeadTokens(ExampleQuery(select, from))) == 0
  {
    HeadPlaceholders(ExampleQuery(select, from));
    NoPlaceholders(select);
    NoPlaceholders(from);
  }

  lemma ExampleTailFree(select: string, from: string)
    ensures TailFree(ExampleQuery(select, from))
  {
    assert TailTokens(ExampleQuery(select, from)) == [];
  }

  lemma ExampleFresh(select: string, from: string, u: string, v: Value)
    requires IsUniqId(u) && |select| < 17 && |from| < 17
    ensures Fresh(ExampleQuery(select, from), Condition("b", v, "=", u))
  {
    assert ColumnRef("b").base == "b";
    var pre := PreTokens(ExampleQuery(select, from), "b", "=");
    assert pre == ["SELECT", select, "FROM", from, "WHERE", "(a = ?)", "AND", "b", "="];
    MarkerShape(u);
    forall t | t in pre
      ensures !Occurs(Marker(u), t)
    {
      ShortNoOccur(Marker(u), t);
    }
  }

  /** The intended insertion order: with `WHERE a = ?` (folded into a bracket by `prepare`)
      and the values `[1]`, `applyWhere('b', 2)` yields `[1, 2]`, not `[2, 1]`; here for any
      SELECT list and FROM text without `?` and shorter than a marker, `*` and `t` among them. */
  lemma InsertionOrderExample(select: string, from: string, u: string)
    requires IsUniqId(u) && '?' !in select && '?' !in from && |select| < 17 && |from| < 17
    ensures WhereStep(State(ExampleQuery(select, from), [Int(1)]), Condition("b", Int(2), "=", u)).params ==
      [Int(1), Int(2)]
  {
    ExampleAligned(select, from);
    ExampleTailFree(select, from);
    ExampleFresh(select, from, u, Int(2));
    WhereStepAligned(State(ExampleQuery(select, from), [Int(1)]), Condition("b", Int(2), "=", u));
  }

  /** The same query with `applyWhere('b', null)`: the values stay `[1]` while the SQL now
      holds two placeholders. */
  lemma NullDroppedExample(select: string, from: string, u: string)
    requires IsUniqId(u) && '?' !in select && '?' !in from && |select| < 17 && |from| < 17
    ensures var e := WhereStep(State(ExampleQuery(select, from), [Int(1)]), Condition("b", Null, "=", u));
      e.params == [Int(1)] && Placeholders(Render(e.query)) == 2
  {
    ExampleAligned(select, from);
    ExampleTailFree(select, from);
    ExampleFresh(select, from, u, Null);
    WhereStepDropsNull(State(ExampleQuery(select, from), [Int(1)]), Condition("b", Null, "=", u));
  }
}
