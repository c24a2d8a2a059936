/** The temporary markers `applyWhere` puts in place of a bind placeholder, and the
    rewrite `_\?\w{13}\?_` -> `?` that `getQuery` and `query` apply before the SQL leaves. */
module Markers {
  import opened Strings

  /** A character PCRE's `\w` matches (no locale). */
  predicate IsWordChar(ch: char)
  {
    'a' <= ch <= 'z' || 'A' <= ch <= 'Z' || '0' <= ch <= '9' || ch == '_'
  }

  /** A character that can be part of a marker. Anything else separates markers. */
  predicate IsMarkerChar(ch: char)
  {
    ch == '?' || IsWordChar(ch)
  }

  /** Text that `uniqid()` returns: thirteen word characters (hexadecimal digits). */
  predicate IsUniqId(u: string)
  {
    |u| == 13 && forall j :: 0 <= j < 13 ==> IsWordChar(u[j])
  }

  /** The marker `'_?' . uniqid() . '?_'` of an `applyWhere` call. */
  function Marker(u: string): (m: string)
    ensures |m| == |u| + 4 && m[0] == '_' && m[1] == '?'
  {
    "_?" + u + "?_"
  }

  /** `s` begins with text the pattern `_\?\w{13}\?_` matches. */
  predicate StartsWithMarker(s: string)
  {
    |s| >= 17 && s[0] == '_' && s[1] == '?' && s[15] == '?' && s[16] == '_' &&
    forall j :: 2 <= j < 15 ==> IsWordChar(s[j])
  }

  lemma MarkerShape(u: string)
    requires IsUniqId(u)
    ensures StartsWithMarker(Marker(u)) && |Marker(u)| == 17
    ensures Count(Marker(u), '?') == 2
    ensures ' ' !in Marker(u)
  {
    var m := Marker(u);
    assert forall j :: 2 <= j < 15 ==> m[j] == u[j - 2];
    assert '?' !in u;
    CountConcat("_?" + u, "?_", '?');
    CountConcat("_?", u, '?');
  }

  lemma MarkerChars(s: string)
    requires StartsWithMarker(s)
    ensures forall j :: 0 <= j < 17 ==> IsMarkerChar(s[j])
  {
  }

  /** `preg_replace('/_\?\w{13}\?_/', '?', s)`: scanning from the left, every match of the
      pattern becomes one `?`, and scanning resumes after the match. */
  function Resolve(s: string): (r: string)
    ensures |r| <= |s|
  {
    if s == [] then ""
    else if StartsWithMarker(s) then "?" + Resolve(s[17..])
    else [s[0]] + Resolve(s[1..])
  }

  /** A match holds at least one `?` of its own, in front of what follows it. */
  lemma MarkerCountStep(s: string)
    requires StartsWithMarker(s)
    ensures Count(s, '?') >= 1 + Count(s[17..], '?')
  {
    assert s == s[..17] + s[17..];
    CountConcat(s[..17], s[17..], '?');
    assert s[..17][1] == '?';
  }

  /** The rewrite never adds a `?`: each match of two becomes one. */
  lemma {:induction false} ResolveCount(s: string)
    ensures Count(Resolve(s), '?') <= Count(s, '?')
    decreases |s|
  {
    if s != [] {
      if StartsWithMarker(s) {
        ResolveCount(s[17..]);
        MarkerCountStep(s);
        var r := Resolve(s[17..]);
        assert Resolve(s) == "?" + r;
        assert ("?" + r)[1..] == r;
      } else {
        ResolveCount(s[1..]);
        var r := Resolve(s[1..]);
        assert Resolve(s) == [s[0]] + r;
        assert ([s[0]] + r)[1..] == r;
      }
    }
  }

  /** The bind placeholders the database sees in `s`: the `?` left after the marker rewrite. */
  function Placeholders(s: string): nat
  {
    Count(Resolve(s), '?')
  }

  /** A marker rewrites to exactly one placeholder. */
  lemma ResolveMarker(u: string)
    requires IsUniqId(u)
    ensures Resolve(Marker(u)) == "?"
  {
    MarkerShape(u);
    assert Marker(u)[17..] == "";
  }

  /** The rewrite leaves text without `?` alone. */
  lemma {:induction false} ResolveNoQuestion(s: string)
    requires '?' !in s
    ensures Resolve(s) == s
  {
    if s != [] {
      if |s| >= 17 {
        assert s[1] in s;
      }
      assert '?' !in s[1..];
      ResolveNoQuestion(s[1..]);
    }
  }

  lemma ResolveMarkerStep(s: string)
    requires StartsWithMarker(s)
    ensures Resolve(s) == "?" + Resolve(s[17..])
  {
  }

  lemma ResolvePlainStep(s: string)
    requires s != [] && !StartsWithMarker(s)
    ensures Resolve(s) == [s[0]] + Resolve(s[1..])
  {
  }

  /** Whether text starts with a marker depends on its first 17 characters only. */
  lemma MarkerPrefix(a: string, b: string)
    requires |a| >= 17
    ensures StartsWithMarker(a + b) <==> StartsWithMarker(a)
    ensures (a + b)[17..] == a[17..] + b
  {
    assert (a + b)[..17] == a[..17];
  }

  /** A marker cannot begin in `a` and run into a character that is not a marker character. */
  lemma NoMarkerAcross(a: string, c: char, b: string)
    requires !IsMarkerChar(c) && |a| < 17
    ensures !StartsWithMarker(a + [c] + b)
  {
    var s := a + [c] + b;
    assert s[|a|] == c;
    if StartsWithMarker(s) {
      MarkerChars(s);
    }
  }

  /** No match spans a character that cannot be part of a marker, so the rewrite works
      piece by piece on text cut at such a character (a space, a bracket, whitespace). */
  lemma {:induction false} ResolveSep(a: string, c: char, b: string)
    requires !IsMarkerChar(c)
    ensures Resolve(a + [c] + b) == Resolve(a) + [c] + Resolve(b)
    decreases |a|, 1
  {
    var s := a + [c] + b;
    if a == [] {
      assert s == [c] + b && s[1..] == b;
    } else if |a| >= 17 {
      ResolveSepLong(a, c, b);
    } else {
      NoMarkerAcross(a, c, b);
      assert s[1..] == a[1..] + [c] + b;
      ResolveSep(a[1..], c, b);
    }
  }

  /** `ResolveSep` when `a` is long enough to hold a whole marker. */
  lemma {:induction false} ResolveSepLong(a: string, c: char, b: string)
    requires !IsMarkerChar(c) && |a| >= 17
    ensures Resolve(a + [c] + b) == Resolve(a) + [c] + Resolve(b)
    decreases |a|, 0
  {
    var s := a + [c] + b;
    MarkerPrefix(a, [c] + b);
    assert s == a + ([c] + b);
    if StartsWithMarker(a) {
      assert s[17..] == a[17..] + [c] + b;
      ResolveSep(a[17..], c, b);
      ResolveMarkerStep(s);
      ResolveMarkerStep(a);
    } else {
      assert s[1..] == a[1..] + [c] + b;
      ResolveSep(a[1..], c, b);
      ResolvePlainStep(s);
      ResolvePlainStep(a);
    }
  }

  lemma PlaceholdersSep(a: string, c: char, b: string)
    requires !IsMarkerChar(c)
    ensures Placeholders(a + [c] + b) == Placeholders(a) + Placeholders(b)
  {
    ResolveSep(a, c, b);
    CountConcat(Resolve(a) + [c], Resolve(b), '?');
    CountConcat(Resolve(a), [c], '?');
  }

  lemma NoPlaceholders(s: string)
    requires '?' !in s
    ensures Placeholders(s) == 0 && Count(s, '?') == 0
  {
    ResolveNoQuestion(s);
  }

  lemma PlaceholdersQuestionMark()
    ensures Placeholders("?") == 1
  {
    assert Resolve("?") == "?" by {
      assert !StartsWithMarker("?");
      assert "?"[1..] == "";
    }
  }

  lemma PlaceholdersAtMostCount(s: string)
    ensures Placeholders(s) <= Count(s, '?')
  {
    ResolveCount(s);
  }

  /** Placeholders of each piece, added up. */
  function SumPlaceholders(xs: seq<string>): nat
  {
    if xs == [] then 0 else Placeholders(xs[0]) + SumPlaceholders(xs[1..])
  }

  /** Raw `?` characters of each piece, added up. */
  function SumCount(xs: seq<string>): nat
  {
    if xs == [] then 0 else Count(xs[0], '?') + SumCount(xs[1..])
  }

  lemma SumSingle(x: string)
    ensures SumPlaceholders([x]) == Placeholders(x) && SumCount([x]) == Count(x, '?')
  {
    assert [x][1..] == [];
  }

  lemma SumPair(x: string, y: string)
    ensures SumPlaceholders([x, y]) == Placeholders(x) + Placeholders(y)
    ensures SumCount([x, y]) == Count(x, '?') + Count(y, '?')
  {
    assert [x, y][1..] == [y];
    SumSingle(y);
  }

  lemma {:induction false} SumConcat(xs: seq<string>, ys: seq<string>)
    ensures SumPlaceholders(xs + ys) == SumPlaceholders(xs) + SumPlaceholders(ys)
    ensures SumCount(xs + ys) == SumCount(xs) + SumCount(ys)
  {
    if xs == [] {
      assert xs + ys == ys;
    } else {
      assert (xs + ys)[1..] == xs[1..] + ys;
      SumConcat(xs[1..], ys);
    }
  }

  /** Pieces without `?` add nothing. */
  lemma {:induction false} SumFree(xs: seq<string>)
    requires forall i :: 0 <= i < |xs| ==> '?' !in xs[i]
    ensures SumPlaceholders(xs) == 0 && SumCount(xs) == 0
  {
    if xs != [] {
      NoPlaceholders(xs[0]);
      SumFree(xs[1..]);
    }
  }

  /** Pieces joined by spaces: placeholders and `?` characters add up piece by piece. */
  lemma {:induction false} JoinSpaces(xs: seq<string>)
    ensures Placeholders(Join(" ", xs)) == SumPlaceholders(xs)
    ensures Count(Join(" ", xs), '?') == SumCount(xs)
  {
    if |xs| == 1 {
      assert xs[1..] == [];
    } else if |xs| > 1 {
      JoinSpaces(xs[1..]);
      assert Join(" ", xs) == xs[0] + [' '] + Join(" ", xs[1..]);
      PlaceholdersSep(xs[0], ' ', Join(" ", xs[1..]));
      CountConcat(xs[0] + [' '], Join(" ", xs[1..]), '?');
      CountConcat(xs[0], [' '], '?');
    }
  }

  /** Every piece has at least as many `?` as placeholders; the gap of one piece is a lower
      bound for the gap of all of them. */
  lemma {:induction false} SumGap(xs: seq<string>, i: nat)
    requires i < |xs|
    ensures SumPlaceholders(xs) <= SumCount(xs)
    ensures SumCount(xs) - SumPlaceholders(xs) >= Count(xs[i], '?') - Placeholders(xs[i])
  {
    PlaceholdersAtMostCount(xs[0]);
    if |xs| > 1 {
      SumGap(xs[1..], if i == 0 then 0 else i - 1);
    }
  }
}
