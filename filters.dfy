/** The predicates the data source's filters produce: the conditions of the range and date-range
    filters, and the `LIKE` text and arguments the text filter builds. */
module Filters {
  import opened Strings
  import opened Markers
  import opened Statements
  import opened Engine

  /** PHP truthiness of a filter bound: `""`, `"0"`, `0` and `null` are false. */
  predicate Truthy(v: Value)
    ensures Truthy(v) ==> v !in {Null, Str(""), Str("0"), Int(0)}
  {
    match v
    case Str(s) => s != "" && s != "0"
    case Int(i) => i != 0
    case Null => false
  }

  /** The calls a from/to filter makes: `column >= fromArg` when the raw `from` is truthy, then
      `column <= toArg` when the raw `to` is truthy. Each call draws its own id. */
  function Bounds(column: string, from: Value, to: Value, fromArg: Value, toArg: Value,
                  uFrom: string, uTo: string): (r: seq<Condition>)
    ensures |r| == (if Truthy(from) then 1 else 0) + (if Truthy(to) then 1 else 0)
    ensures forall i :: 0 <= i < |r| ==> r[i].column == column
  {
    (if Truthy(from) then [Condition(column, fromArg, ">=", uFrom)] else []) +
    (if Truthy(to) then [Condition(column, toArg, "<=", uTo)] else [])
  }

  /** `applyFilterRange`: the bounds are compared as given, so every call is on the column
      and passes a bound, never a null one. */
  function RangeConditions(column: string, from: Value, to: Value, uFrom: string, uTo: string): (r: seq<Condition>)
    ensures forall i :: 0 <= i < |r| ==>
      r[i].column == column && (r[i].value == from || r[i].value == to) && r[i].value != Null
  {
    Bounds(column, from, to, from, to, uFrom, uTo)
  }

  /** `applyFilterDateRange`: the column is wrapped in `DATE(...)` and each bound is compared
      as the `Y-m-d` text of the date it was parsed to; whether a bound is used depends on the
      raw text, so a `"0"` bound adds nothing even though it would name a day. */
  function DateRangeConditions(column: string, from: Value, to: Value, fromDay: string, toDay: string,
                               uFrom: string, uTo: string): (r: seq<Condition>)
    ensures from == Str("0") && to == Str("0") ==> r == []
    ensures forall i :: 0 <= i < |r| ==> r[i].column == DateColumn(column) && r[i].value.Str?
  {
    Bounds(DateColumn(column), from, to, Str(fromDay), Str(toDay), uFrom, uTo)
  }

  /** `DATE({$column})`: the wrapping brings no `?` of its own. */
  function DateColumn(column: string): (r: string)
    ensures |r| == |column| + 6 && r[5..|r| - 1] == column
    ensures '?' in r <==> '?' in column
  {
    "DATE(" + column + ")"
  }

  /** A `>=` call is made exactly when `from` is truthy, a `<=` call exactly when `to` is, the
      `>=` call comes first, and no other call is made. */
  lemma BoundsCalls(column: string, from: Value, to: Value, fromArg: Value, toArg: Value,
                    uFrom: string, uTo: string)
    ensures var r := Bounds(column, from, to, fromArg, toArg, uFrom, uTo);
      |r| == (if Truthy(from) then 1 else 0) + (if Truthy(to) then 1 else 0) &&
      (Truthy(from) <==> exists i :: 0 <= i < |r| && r[i].op == ">=") &&
      (Truthy(to) <==> exists i :: 0 <= i < |r| && r[i].op == "<=") &&
      (forall i :: 0 <= i < |r| ==> r[i].column == column) &&
      (forall i :: 0 <= i < |r| && r[i].op == ">=" ==> r[i].value == fromArg && r[i].uniq == uFrom && i == 0) &&
      (forall i :: 0 <= i < |r| && r[i].op == "<=" ==> r[i].value == toArg && r[i].uniq == uTo && i == |r| - 1)
  {
    var r := Bounds(column, from, to, fromArg, toArg, uFrom, uTo);
    assert ">=" != "<=" by {
      assert ">="[0] != "<="[0];
    }
    if Truthy(from) {
      assert r[0].op == ">=";
    }
    if Truthy(to) {
      assert r[|r| - 1].op == "<=";
    }
  }

  // The text filter.

  /** One searched word: `column LIKE ?`. */
  function LikeTerm(column: string): (r: string)
    ensures Count(r, '?') == Count(column, '?') + 1
  {
    CountConcat(column, " LIKE ?", '?');
    column + " LIKE ?"
  }

  /** The words of a searched value: `explode(' ', value)`. */
  function Words(value: string): (r: seq<string>)
    ensures |r| == Count(value, ' ') + 1 && Join(" ", r) == value
  {
    SplitJoin(value, ' ');
    Split(value, ' ')
  }

  /** The group of one column: one term per word, joined by ` OR `, in brackets. */
  function Group(column: string, value: string): (r: string)
    ensures |r| >= 2 && r[0] == '(' && r[|r| - 1] == ')'
  {
    "(" + Join(" OR ", seq(|Words(value)|, j => LikeTerm(column))) + ")"
  }

  /** The arguments of one column's group: `%word%` per word, in word order. */
  function GroupArgs(value: string): (r: seq<Value>)
    ensures |r| == Count(value, ' ') + 1
  {
    seq(|Words(value)|, j requires 0 <= j < |Words(value)| => Str("%" + Words(value)[j] + "%"))
  }

  /** The groups of all columns, in column order. */
  function Groups(condition: seq<(string, string)>): (r: seq<string>)
    ensures |r| == |condition|
    ensures forall i :: 0 <= i < |r| ==> |r[i]| >= 2 && r[i][0] == '(' && r[i][|r[i]| - 1] == ')'
  {
    seq(|condition|, i requires 0 <= i < |condition| => Group(condition[i].0, condition[i].1))
  }

  /** The arguments of all columns, concatenated in column order. */
  function TextArgs(condition: seq<(string, string)>): (r: seq<Value>)
    ensures |r| >= |condition|
    ensures forall i :: 0 <= i < |r| ==> r[i].Str?
  {
    if condition == [] then []
    else TextArgs(condition[..|condition| - 1]) + GroupArgs(condition[|condition| - 1].1)
  }

  /** What `whereSql` receives: a string, or a PHP array of strings. */
  datatype Fragment = Text(s: string) | Arr(items: seq<string>)

  /** A fragment as PHP's string concatenation sees it: an array becomes `"Array"`. */
  function PhpString(f: Fragment): (r: string)
    ensures f.Text? ==> r == f.s
    ensures f.Arr? ==> '?' !in r && r != []
  {
    match f
    case Text(s) => s
    case Arr(_) => "Array"
  }

  /** The predicate `applyFilterText` hands to `whereSql`: with more than one column, the
      groups joined by ` OR ` in brackets; otherwise the array of (at most one) groups itself. */
  function TextPredicate(condition: seq<(string, string)>): (r: Fragment)
    ensures |condition| > 1 ==> r.Text? && |r.s| >= 2 && r.s[0] == '(' && r.s[|r.s| - 1] == ')'
    ensures |condition| <= 1 ==> r.Arr? && |r.items| == |condition|
  {
    if |condition| > 1 then Text("(" + Join(" OR ", Groups(condition)) + ")")
    else Arr(Groups(condition))
  }

  /** `x + sep` for every piece, concatenated: what a loop that appends a piece and a separator
      each round accumulates. */
  function Terminated(xs: seq<string>, sep: string): string
  {
    if xs == [] then "" else xs[0] + sep + Terminated(xs[1..], sep)
  }

  lemma {:induction false} TerminatedSnoc(xs: seq<string>, x: string, sep: string)
    ensures Terminated(xs + [x], sep) == Terminated(xs, sep) + x + sep
    ensures forall p :: p + Terminated(xs + [x], sep) == p + Terminated(xs, sep) + x + sep
  {
    if xs == [] {
      assert [x][1..] == [];
    } else {
      assert (xs + [x])[1..] == xs[1..] + [x];
      TerminatedSnoc(xs[1..], x, sep);
    }
  }

  lemma AppendTerm(like: string, column: string)
    ensures like + column + " LIKE ? OR " == like + LikeTerm(column) + " OR "
  {
  }

  /** Dropping the last separator of the accumulated text leaves the joined pieces. */
  lemma {:induction false} TerminatedJoin(xs: seq<string>, sep: string)
    requires xs != []
    ensures Terminated(xs, sep) == Join(sep, xs) + sep
  {
    if |xs| == 1 {
      assert xs[1..] == [];
    } else {
      TerminatedJoin(xs[1..], sep);
    }
  }

  /** Cutting the trailing ` OR ` (`substr($s, 0, strlen($s) - 4)`) and closing the bracket. */
  lemma CloseGroup(xs: seq<string>)
    requires xs != []
    ensures var s := "(" + Terminated(xs, " OR ");
      |s| >= 4 && s[..|s| - 4] + ")" == "(" + Join(" OR ", xs) + ")"
  {
    TerminatedJoin(xs, " OR ");
    var s := "(" + Terminated(xs, " OR ");
    assert s == ("(" + Join(" OR ", xs)) + " OR ";
  }

  /** One more column adds its group and its arguments at the end. */
  lemma PrefixSnoc(condition: seq<(string, string)>, i: nat)
    requires i < |condition|
    ensures Groups(condition[..i + 1]) == Groups(condition[..i]) + [Group(condition[i].0, condition[i].1)]
    ensures TextArgs(condition[..i + 1]) == TextArgs(condition[..i]) + GroupArgs(condition[i].1)
  {
    assert condition[..i + 1][..i] == condition[..i];
  }

  /** The accumulated text of all groups, closed, is the multi-column predicate. */
  lemma CloseBigOr(condition: seq<(string, string)>, bigOr: string)
    requires |condition| > 1 && bigOr == "(" + Terminated(Groups(condition), " OR ")
    ensures |bigOr| >= 4 && Text(bigOr[..|bigOr| - 4] + ")") == TextPredicate(condition)
  {
    CloseGroup(Groups(condition));
  }

  lemma SingleTextArgs(condition: seq<(string, string)>)
    requires |condition| == 1
    ensures TextArgs(condition) == GroupArgs(condition[0].1)
  {
    assert condition[..0] == [];
  }

  /** `applyFilterText`'s inner loop: a term and an argument per word, then the trailing
      ` OR ` cut and the bracket closed. */
  method BuildGroup(column: string, value: string) returns (like: string, args: seq<Value>)
    ensures like == Group(column, value)
    ensures args == GroupArgs(value)
  {
    var words := Split(value, ' ');
    like := "(";
    args := [];
    for j := 0 to |words|
      invariant like == "(" + Terminated(seq(j, k => LikeTerm(column)), " OR ")
      invariant args == seq(j, k requires 0 <= k < j => Str("%" + words[k] + "%"))
    {
      TerminatedSnoc(seq(j, k => LikeTerm(column)), LikeTerm(column), " OR ");
      assert seq(j + 1, k => LikeTerm(column)) == seq(j, k => LikeTerm(column)) + [LikeTerm(column)];
      AppendTerm(like, column);
      like := like + column + " LIKE ? OR ";
      args := args + [Str("%" + words[j] + "%")];
    }
    CloseGroup(seq(|words|, k => LikeTerm(column)));
    like := like[..|like| - 4] + ")";
  }

  /** `applyFilterText`'s loops: per column, the terms and arguments of each word; the groups
      and their arguments are accumulated, and the single-column case keeps the array. */
  method BuildTextFilter(condition: seq<(string, string)>) returns (or: Fragment, args: seq<Value>)
    ensures or == TextPredicate(condition)
    ensures args == TextArgs(condition)
  {
    var ors: seq<string> := [];
    args := [];
    var bigOr := "(";
    var bigOrArgs: seq<Value> := [];
    for i := 0 to |condition|
      invariant ors == Groups(condition[..i])
      invariant bigOr == "(" + Terminated(ors, " OR ")
      invariant bigOrArgs == TextArgs(condition[..i])
      invariant args == if i == 0 then [] else GroupArgs(condition[i - 1].1)
    {
      var like;
      like, args := BuildGroup(condition[i].0, condition[i].1);
      TerminatedSnoc(ors, like, " OR ");
      PrefixSnoc(condition, i);
      ors := ors + [like];
      bigOr := bigOr + like + " OR ";
      bigOrArgs := bigOrArgs + args;
    }
    assert condition[..|condition|] == condition;
    if |ors| > 1 {
      CloseBigOr(condition, bigOr);
      or := Text(bigOr[..|bigOr| - 4] + ")");
      args := bigOrArgs;
    } else {
      or := Arr(ors);
      if |condition| == 1 {
        SingleTextArgs(condition);
      }
    }
  }

  // Placeholders of the text predicate.

  /** Each term holds one placeholder when the column holds no `?`. */
  lemma LikeTermPlaceholders(column: string)
    requires '?' !in column
    ensures Placeholders(LikeTerm(column)) == 1
  {
    assert LikeTerm(column) == column + [' '] + ("LIKE" + [' '] + "?");
    PlaceholdersSep(column, ' ', "LIKE" + [' '] + "?");
    PlaceholdersSep("LIKE", ' ', "?");
    NoPlaceholders(column);
    NoPlaceholders("LIKE");
    PlaceholdersQuestionMark();
  }

  /** Pieces joined by ` OR ` hold the placeholders of the pieces and no others. */
  lemma {:induction false} JoinOrPlaceholders(xs: seq<string>)
    ensures Placeholders(Join(" OR ", xs)) == SumPlaceholders(xs)
  {
    if |xs| == 1 {
      SumSingle(xs[0]);
    } else if |xs| > 1 {
      var rest := Join(" OR ", xs[1..]);
      JoinOrPlaceholders(xs[1..]);
      assert Join(" OR ", xs) == xs[0] + [' '] + ("OR" + [' '] + rest);
      PlaceholdersSep(xs[0], ' ', "OR" + [' '] + rest);
      PlaceholdersSep("OR", ' ', rest);
      NoPlaceholders("OR");
    }
  }

  lemma {:induction false} SumOnes(xs: seq<string>)
    requires forall i :: 0 <= i < |xs| ==> Placeholders(xs[i]) == 1
    ensures SumPlaceholders(xs) == |xs|
  {
    if xs != [] {
      SumOnes(xs[1..]);
    }
  }

  /** A column's group holds exactly one placeholder per argument, one per word of the value. */
  lemma GroupPlaceholders(column: string, value: string)
    requires '?' !in column
    ensures Placeholders(Group(column, value)) == |GroupArgs(value)| == Count(value, ' ') + 1
  {
    var terms := seq(|Words(value)|, j => LikeTerm(column));
    LikeTermPlaceholders(column);
    SumOnes(terms);
    JoinOrPlaceholders(terms);
    PlaceholdersBracketed(Join(" OR ", terms));
  }

  lemma {:induction false} GroupsPlaceholders(condition: seq<(string, string)>)
    requires forall i :: 0 <= i < |condition| ==> '?' !in condition[i].0
    ensures SumPlaceholders(Groups(condition)) == |TextArgs(condition)|
    decreases |condition|
  {
    if condition != [] {
      var n := |condition| - 1;
      var g := Group(condition[n].0, condition[n].1);
      PrefixSnoc(condition, n);
      assert condition[..n + 1] == condition;
      GroupsPlaceholders(condition[..n]);
      SumConcat(Groups(condition[..n]), [g]);
      SumSingle(g);
      GroupPlaceholders(condition[n].0, condition[n].1);
    }
  }

  /** With more than one column the predicate holds one placeholder per argument, in the order
      the arguments are appended. */
  lemma TextPredicatePlaceholders(condition: seq<(string, string)>)
    requires |condition| > 1
    requires forall i :: 0 <= i < |condition| ==> '?' !in condition[i].0
    ensures TextPredicate(condition).Text?
    ensures Placeholders(PhpString(TextPredicate(condition))) == |TextArgs(condition)|
  {
    GroupsPlaceholders(condition);
    JoinOrPlaceholders(Groups(condition));
    PlaceholdersBracketed(Join(" OR ", Groups(condition)));
  }

  /** The text filter with several columns keeps the values in step, when the parsed node holds
      the predicate's placeholders and nothing after the WHERE clause holds a `?`: its
      arguments are appended exactly where their placeholders are. */
  lemma TextFilterAligned(e: State, condition: seq<(string, string)>, node: Node)
    requires Aligned(e) && TailFree(e.query)
    requires |condition| > 1 && forall i :: 0 <= i < |condition| ==> '?' !in condition[i].0
    requires Placeholders(node.base) == Placeholders(PhpString(TextPredicate(condition)))
    ensures Aligned(TextStep(e, node, TextArgs(condition)))
    ensures TailFree(TextStep(e, node, TextArgs(condition)).query)
  {
    TextPredicatePlaceholders(condition);
    TextStepAligned(e, node, TextArgs(condition));
  }

  /** With one column the array reaches `whereSql`, whose text is then `...WHERE Array`: the
      predicate holds no placeholder although arguments are appended. */
  lemma SingleColumnPassesArray(condition: seq<(string, string)>)
    requires |condition| == 1
    ensures PhpString(TextPredicate(condition)) == "Array"
    ensures Placeholders(PhpString(TextPredicate(condition))) == 0 < |TextArgs(condition)|
  {
    assert condition[..0] == [];
    NoPlaceholders("Array");
  }

  /** The word inside a `%word%` argument. */
  function Unwrapped(a: Value): string
  {
    if a.Str? && |a.s| >= 2 then a.s[1..|a.s| - 1] else ""
  }

  /** The arguments search for the words of the value: their unwrapped words, joined by a
      space, give the value back. */
  lemma GroupArgsWords(value: string)
    ensures var a := GroupArgs(value);
      Join(" ", seq(|a|, j requires 0 <= j < |a| => Unwrapped(a[j]))) == value
  {
    var a := GroupArgs(value);
    var ws := seq(|a|, j requires 0 <= j < |a| => Unwrapped(a[j]));
    assert ws == Words(value) by {
      forall j | 0 <= j < |a|
        ensures ws[j] == Words(value)[j]
      {
        var w := Words(value)[j];
        assert a[j].s == "%" + w + "%";
      }
    }
    SplitJoin(value, ' ');
  }
}
