/** The PHP string functions the data source relies on, over `string` (a `seq<char>`). */
module Strings {

  /** Occurrences of the character `c` in `s` (`substr_count` with a one-character needle). */
  function Count(s: string, c: char): (n: nat)
    ensures n <= |s|
    ensures n == 0 <==> c !in s
  {
    if s == [] then 0 else (if s[0] == c then 1 else 0) + Count(s[1..], c)
  }

  lemma {:induction false} CountConcat(a: string, b: string, c: char)
    ensures Count(a + b, c) == Count(a, c) + Count(b, c)
  {
    if a == [] {
      assert a + b == b;
    } else {
      assert (a + b)[1..] == a[1..] + b;
      CountConcat(a[1..], b, c);
    }
  }

  /** A prefix holds no more of a character than the whole text. */
  lemma CountPrefix(s: string, n: nat, c: char)
    requires n <= |s|
    ensures Count(s[..n], c) <= Count(s, c)
  {
    assert s[..n] + s[n..] == s;
    CountConcat(s[..n], s[n..], c);
  }

  /** `implode(sep, xs)`: the pieces with `sep` between neighbours. */
  function Join(sep: string, xs: seq<string>): string
  {
    if xs == [] then ""
    else if |xs| == 1 then xs[0]
    else xs[0] + sep + Join(sep, xs[1..])
  }

  lemma {:induction false} JoinConcat(sep: string, xs: seq<string>, ys: seq<string>)
    requires xs != [] && ys != []
    ensures Join(sep, xs + ys) == Join(sep, xs) + sep + Join(sep, ys)
  {
    if |xs| == 1 {
      assert (xs + ys)[1..] == ys;
    } else {
      assert (xs + ys)[1..] == xs[1..] + ys;
      JoinConcat(sep, xs[1..], ys);
    }
  }

  /** `explode(c, s)` for a one-character delimiter: the pieces between the delimiters.
      There is always one piece more than there are delimiters, and no piece holds one. */
  function Split(s: string, c: char): (r: seq<string>)
    ensures |r| == Count(s, c) + 1
    ensures forall i :: 0 <= i < |r| ==> c !in r[i]
  {
    if s == [] then [""]
    else
      var tail := Split(s[1..], c);
      if s[0] == c then [""] + tail
      else [[s[0]] + tail[0]] + tail[1..]
  }

  /** Joining the pieces of `explode` with the delimiter gives the text back. */
  lemma {:induction false} SplitJoin(s: string, c: char)
    ensures Join([c], Split(s, c)) == s
  {
    if s != [] {
      var tail := Split(s[1..], c);
      SplitJoin(s[1..], c);
      if s[0] == c {
        assert ([""] + tail)[1..] == tail;
      } else if |tail| > 1 {
        var r := [[s[0]] + tail[0]] + tail[1..];
        assert r[1..] == tail[1..];
        assert Join([c], tail) == tail[0] + [c] + Join([c], tail[1..]);
      }
    }
  }

  /** The whitespace PHP's `trim` removes by default: " \t\n\r\0\x0B". */
  predicate IsTrimSpace(ch: char)
  {
    ch == ' ' || ch == '\t' || ch == '\n' || ch == '\r' || ch == '\0' || ch == '\U{000B}'
  }

  function TrimLeft(s: string): (r: string)
    ensures |r| <= |s| && r == s[|s| - |r|..]
    ensures forall i :: 0 <= i < |s| - |r| ==> IsTrimSpace(s[i])
    ensures r != [] ==> !IsTrimSpace(r[0])
  {
    if s != [] && IsTrimSpace(s[0]) then TrimLeft(s[1..]) else s
  }

  function TrimRight(s: string): (r: string)
    ensures |r| <= |s| && r == s[..|r|]
    ensures forall i :: |r| <= i < |s| ==> IsTrimSpace(s[i])
    ensures r != [] ==> !IsTrimSpace(r[|r| - 1])
  {
    if s != [] && IsTrimSpace(s[|s| - 1]) then TrimRight(s[..|s| - 1]) else s
  }

  /** PHP's `trim`: neither end of the result is whitespace. */
  function Trim(s: string): (r: string)
    ensures |r| <= |s|
    ensures r != [] ==> !IsTrimSpace(r[0]) && !IsTrimSpace(r[|r| - 1])
  {
    TrimRight(TrimLeft(s))
  }

  /** `trim` removes whitespace only: `s` is leading whitespace, `Trim(s)`, trailing whitespace. */
  lemma TrimSlice(s: string) returns (i: nat, j: nat)
    ensures i <= j <= |s| && Trim(s) == s[i..j]
    ensures forall k :: 0 <= k < i ==> IsTrimSpace(s[k])
    ensures forall k :: j <= k < |s| ==> IsTrimSpace(s[k])
  {
    var l := TrimLeft(s);
    i := |s| - |l|;
    var r := TrimRight(l);
    j := i + |r|;
    forall k | j <= k < |s|
      ensures IsTrimSpace(s[k])
    {
      assert s[k] == l[k - i];
    }
  }

  lemma TrimLeadingSpace(s: string)
    ensures Trim(" " + s) == Trim(s)
  {
    assert (" " + s)[1..] == s;
  }

  predicate StartsWith(s: string, p: string)
  {
    |p| <= |s| && s[..|p|] == p
  }

  /** `p` is a substring of `s`. */
  predicate Occurs(p: string, s: string)
  {
    StartsWith(s, p) || (s != [] && Occurs(p, s[1..]))
  }

  /** A pattern longer than a text does not occur in it. */
  lemma {:induction false} ShortNoOccur(p: string, s: string)
    requires |s| < |p|
    ensures !Occurs(p, s)
  {
    if s != [] {
      ShortNoOccur(p, s[1..]);
    }
  }

  /** The first piece of `explode(p, s)`: the text before the first occurrence of `p`,
      or all of `s` when `p` does not occur. */
  function Before(s: string, p: string): (r: string)
    ensures |r| <= |s| && r == s[..|r|]
    ensures forall j :: 0 <= j < |r| ==> !StartsWith(s[j..], p)
    ensures |r| == |s| || StartsWith(s[|r|..], p)
  {
    if s == [] || StartsWith(s, p) then ""
    else
      var t := Before(s[1..], p);
      assert forall j :: 1 <= j <= |s| ==> s[1..][j - 1..] == s[j..];
      [s[0]] + t
  }

  /** A pattern that does not hold the separator occurs in `a + [c] + b` only inside `a` or `b`. */
  lemma {:induction false} OccursAcross(p: string, a: string, c: char, b: string)
    requires c !in p && p != []
    requires !Occurs(p, a) && !Occurs(p, b)
    ensures !Occurs(p, a + [c] + b)
    decreases |a|
  {
    var s := a + [c] + b;
    if |p| <= |a| {
      assert s[..|p|] == a[..|p|];
    } else if |p| <= |s| {
      assert s[..|p|][|a|] == c;
    }
    if a == [] {
      assert s[1..] == b;
    } else {
      assert s[1..] == a[1..] + [c] + b;
      OccursAcross(p, a[1..], c, b);
    }
  }

  /** A pattern without the separator that occurs in none of the pieces does not occur in their join. */
  lemma {:induction false} OccursJoin(p: string, c: char, xs: seq<string>)
    requires c !in p && p != []
    requires forall i :: 0 <= i < |xs| ==> !Occurs(p, xs[i])
    ensures !Occurs(p, Join([c], xs))
  {
    if xs == [] {
      assert !StartsWith("", p);
    } else if |xs| > 1 {
      OccursJoin(p, c, xs[1..]);
      OccursAcross(p, xs[0], c, Join([c], xs[1..]));
      assert Join([c], xs) == xs[0] + [c] + Join([c], xs[1..]);
    }
  }

  /** A text that starts with `a` and a separator foreign to `p`, where `p` does not occur in
      `a`, does not start with `p`. */
  lemma NoMatchInFront(a: string, c: char, p: string, rest: string)
    requires c !in p && !Occurs(p, a)
    ensures !StartsWith(a + [c] + p + rest, p)
  {
    var s := a + [c] + p + rest;
    if |p| <= |a| {
      assert s[..|p|] == a[..|p|];
    } else if |p| <= |s| {
      assert s[..|p|][|a|] == c;
    }
  }

  /** `explode` splits at the first occurrence: when `p` does not occur in `a`, and the
      separator `c` is not part of `p`, the text before `p` in `a + [c] + p + rest` is `a + [c]`. */
  lemma {:induction false} BeforeFirst(a: string, c: char, p: string, rest: string)
    requires c !in p && p != []
    requires !Occurs(p, a)
    ensures Before(a + [c] + p + rest, p) == a + [c]
    decreases |a|
  {
    var s := a + [c] + p + rest;
    NoMatchInFront(a, c, p, rest);
    if a == [] {
      assert s[1..] == p + rest;
      assert StartsWith(p + rest, p);
    } else {
      assert s[1..] == a[1..] + [c] + p + rest;
      BeforeFirst(a[1..], c, p, rest);
    }
  }
}
