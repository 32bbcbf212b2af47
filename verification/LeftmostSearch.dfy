/**
 What the search accepts, without the search.  A '*' acts as one unless the '*' right before
 it does; the token behind an acting '*' is taken literally, whatever it is, and its '*'
 covers no level equal to it.  The topic is cut in just one such way, or the search rejects.
 */
module LeftmostSearch {
  import opened Topics
  import opened Matching

  /** In a run of '*' the first, the third and so on stand for levels, the others for themselves. */
  predicate ActsAsStar(p: seq<Token>, i: nat)
    requires i < |p|
  {
    p[i] == STAR && !(i > 0 && ActsAsStar(p, i - 1))
  }

  /** The token is looked up literally. */
  predicate IsAnchor(p: seq<Token>, i: nat)
    requires i < |p|
  {
    i > 0 && ActsAsStar(p, i - 1)
  }

  ghost predicate Fits(p: seq<Token>, i: nat, levels: seq<Token>)
    requires i < |p|
  {
    if ActsAsStar(p, i) then
      if i == |p| - 1 then levels != [] else p[i + 1] !in levels
    else if IsAnchor(p, i) then levels == [p[i]]
    else |levels| == 1 && (p[i] == PLUS || p[i] == levels[0])
  }

  /** One stretch of levels for each pattern token, each '*' going no further than to its anchor. */
  ghost predicate LeftmostSplits(p: seq<Token>, t: seq<Token>, parts: seq<seq<Token>>) {
    && |parts| == |p| && Flat(parts) == t
    && forall i :: 0 <= i < |p| ==> Fits(p, i, parts[i])
  }

  ghost predicate HasCut(p: seq<Token>, t: seq<Token>) {
    exists parts :: LeftmostSplits(p, t, parts)
  }

  // ----- suffixes of the pattern

  lemma {:induction false} ActsSuffix(p: seq<Token>, k: nat, i: nat)
    requires k <= i < |p| && (k == 0 || !ActsAsStar(p, k - 1))
    ensures ActsAsStar(p[k..], i - k) <==> ActsAsStar(p, i)
    decreases i
  {
    if i == k {
    } else {
      ActsSuffix(p, k, i - 1);
    }
  }

  lemma FitsSuffix(p: seq<Token>, k: nat, i: nat, levels: seq<Token>)
    requires k <= i < |p| && (k == 0 || !ActsAsStar(p, k - 1))
    ensures Fits(p[k..], i - k, levels) <==> Fits(p, i, levels)
  {
    ActsSuffix(p, k, i);
    if i > k { ActsSuffix(p, k, i - 1); }
  }

  lemma {:induction false} FlatConcat(a: seq<seq<Token>>, b: seq<seq<Token>>)
    ensures Flat(a + b) == Flat(a) + Flat(b)
  {
    if a == [] {
      assert a + b == b;
    } else {
      assert (a + b)[1..] == a[1..] + b;
      FlatConcat(a[1..], b);
    }
  }

  /** A way to cut the front and one to cut the rest. */
  lemma SplitsJoin(p: seq<Token>, k: nat, front: seq<seq<Token>>, t: seq<Token>, rest: seq<seq<Token>>)
    requires k == |front| <= |p| && (k == 0 || !ActsAsStar(p, k - 1))
    requires forall i :: 0 <= i < k ==> Fits(p, i, front[i])
    requires LeftmostSplits(p[k..], t, rest)
    ensures LeftmostSplits(p, Flat(front) + t, front + rest)
  {
    FlatConcat(front, rest);
    forall i | 0 <= i < |p| ensures Fits(p, i, (front + rest)[i]) {
      if i >= k {
        assert Fits(p[k..], i - k, rest[i - k]);
        FitsSuffix(p, k, i, rest[i - k]);
      }
    }
  }

  lemma SplitsRest(p: seq<Token>, k: nat, t: seq<Token>, parts: seq<seq<Token>>)
    requires k <= |p| && (k == 0 || !ActsAsStar(p, k - 1)) && LeftmostSplits(p, t, parts)
    ensures t == Flat(parts[..k]) + Flat(parts[k..]) && LeftmostSplits(p[k..], Flat(parts[k..]), parts[k..])
  {
    assert parts == parts[..k] + parts[k..];
    FlatConcat(parts[..k], parts[k..]);
    forall i | 0 <= i < |p[k..]| ensures Fits(p[k..], i, parts[k..][i]) {
      FitsSuffix(p, k, i + k, parts[i + k]);
    }
  }

  // ----- the search finds the cut, and there is no other

  lemma FlatTwo(a: seq<Token>, b: seq<Token>)
    ensures Flat([a, b]) == a + b && Flat([a]) == a
  {
    assert [a, b][1..] == [b] && [b][1..] == [] && [a][1..] == [];
    assert Flat([b]) == b + Flat([]) && Flat([a]) == a + Flat([]);
  }

  lemma {:induction false} AcceptedSplits(p: seq<Token>, t: seq<Token>) returns (parts: seq<seq<Token>>)
    requires Greedy(p, t)
    ensures LeftmostSplits(p, t, parts)
    decreases |p|
  {
    if p == [] {
      parts := [];
    } else if p[0] != STAR {
      var rest := AcceptedSplits(p[1..], t[1..]);
      parts := [[t[0]]] + rest;
      FlatTwo([t[0]], []);
      SplitsJoin(p, 1, [[t[0]]], t[1..], rest);
      assert [t[0]] + t[1..] == t;
    } else if |p| == 1 {
      parts := [t];
      FlatTwo(t, []);
    } else {
      var j := FindFrom(t, p[1], 0);
      var rest := AcceptedSplits(p[2..], t[j + 1..]);
      var front := [t[..j], [p[1]]];
      parts := front + rest;
      FlatTwo(t[..j], [p[1]]);
      SplitsJoin(p, 2, front, t[j + 1..], rest);
      assert t[..j] + [p[1]] + t[j + 1..] == t;
    }
  }

  lemma {:induction false} SplitsAccepted(p: seq<Token>, t: seq<Token>, parts: seq<seq<Token>>)
    requires LeftmostSplits(p, t, parts)
    ensures Greedy(p, t)
    decreases |p|
  {
    if p == [] {
    } else if p[0] != STAR {
      SplitsRest(p, 1, t, parts);
      assert Fits(p, 0, parts[0]) && parts[..1] == [parts[0]];
      FlatTwo(parts[0], []);
      assert t[0] == parts[0][0] && t[1..] == Flat(parts[1..]);
      SplitsAccepted(p[1..], t[1..], parts[1..]);
    } else if |p| == 1 {
      assert Fits(p, 0, parts[0]) && parts == [parts[0]];
      FlatTwo(parts[0], []);
    } else {
      SplitsRest(p, 2, t, parts);
      assert Fits(p, 0, parts[0]) && Fits(p, 1, parts[1]) && parts[..2] == [parts[0], parts[1]];
      FlatTwo(parts[0], parts[1]);
      var j := |parts[0]|;
      assert t == parts[0] + [p[1]] + Flat(parts[2..]);
      assert t[j] == p[1] && t[j + 1..] == Flat(parts[2..]) && forall k :: 0 <= k < j ==> t[k] == parts[0][k];
      assert FindFrom(t, p[1], 0) == j;
      SplitsAccepted(p[2..], t[j + 1..], parts[2..]);
    }
  }

  /** The search, for every pattern and every topic: it accepts exactly what can be cut in this way. */
  lemma SearchExactly(p: seq<Token>, t: seq<Token>)
    ensures Greedy(p, t) <==> HasCut(p, t)
  {
    if Greedy(p, t) {
      var parts := AcceptedSplits(p, t);
    }
    if parts :| LeftmostSplits(p, t, parts) {
      SplitsAccepted(p, t, parts);
    }
  }

  // ----- the two kinds of subscription

  lemma {:induction false} LiteralAnchors(p: seq<Token>, i: nat)
    requires NoWildcardAfterStar(p) && i < |p|
    ensures ActsAsStar(p, i) <==> p[i] == STAR
    ensures IsAnchor(p, i) ==> !IsWildcard(p[i])
  {
    if i > 0 {
      assert p[i - 1] == STAR ==> !IsWildcard(p[i - 1 + 1]);
      LiteralAnchors(p, i - 1);
    }
  }

  lemma LiteralFits(p: seq<Token>, i: nat, levels: seq<Token>)
    requires NoWildcardAfterStar(p) && i < |p|
    ensures Fits(p, i, levels) <==>
            && Covers(p[i], levels, if i == |p| - 1 then 1 else 0)
            && (i < |p| - 1 && p[i] == STAR ==> p[i + 1] !in levels)
  {
    LiteralAnchors(p, i);
    if |levels| == 1 { assert levels == [levels[0]]; }
  }

  /** Each '*' that a literal follows covers the levels up to the first such literal. */
  ghost predicate StopsAtFirst(p: seq<Token>, parts: seq<seq<Token>>) {
    forall i :: 0 <= i < |p| - 1 && i < |parts| && p[i] == STAR ==> p[i + 1] !in parts[i]
  }

  /** Where only literals follow a '*', the search is the declarative relation with each '*' as short as it can be. */
  lemma LiteralSearchExactly(p: seq<Token>, t: seq<Token>)
    requires NoWildcardAfterStar(p)
    ensures Greedy(p, t) <==> exists parts :: Splits(p, t, parts, 1) && StopsAtFirst(p, parts)
  {
    SearchExactly(p, t);
    if parts :| LeftmostSplits(p, t, parts) {
      forall i | 0 <= i < |p|
        ensures Covers(p[i], parts[i], if i == |p| - 1 then 1 else 0)
        ensures i < |p| - 1 && p[i] == STAR ==> p[i + 1] !in parts[i]
      {
        LiteralFits(p, i, parts[i]);
      }
      assert Splits(p, t, parts, 1) && StopsAtFirst(p, parts);
    }
    if parts :| Splits(p, t, parts, 1) && StopsAtFirst(p, parts) {
      forall i | 0 <= i < |p| ensures Fits(p, i, parts[i]) {
        LiteralFits(p, i, parts[i]);
      }
      assert LeftmostSplits(p, t, parts);
    }
  }

  /** Of a '*' and a wildcard behind it one is looked up as a token. */
  lemma WildcardAnchor(p: seq<Token>, n: nat) returns (i: nat)
    requires n < |p| - 1 && p[n] == STAR && IsWildcard(p[n + 1])
    ensures 0 < i < |p| && IsAnchor(p, i) && IsWildcard(p[i])
  {
    i := if ActsAsStar(p, n) then n + 1 else n;
  }

  lemma {:induction false} InFlat(parts: seq<seq<Token>>, i: nat, x: Token)
    requires i < |parts| && x in parts[i]
    ensures x in Flat(parts)
  {
    if i == 0 {
    } else {
      assert parts[1..][i - 1] == parts[i];
      InFlat(parts[1..], i - 1, x);
    }
  }

  /** Where a wildcard follows a '*', no topic without wildcards is accepted. */
  lemma WildcardSearchRejects(p: seq<Token>, t: seq<Token>)
    requires WildcardFree(t) && !NoWildcardAfterStar(p)
    ensures !Greedy(p, t)
  {
    var n :| 0 <= n < |p| - 1 && p[n] == STAR && IsWildcard(p[n + 1]);
    var i := WildcardAnchor(p, n);
    SearchExactly(p, t);
    if parts :| LeftmostSplits(p, t, parts) {
      assert Fits(p, i, parts[i]) && p[i] in parts[i];
      InFlat(parts, i, p[i]);
    }
  }

  /** Only the first `pressure` counts: the second one is never tried. */
  lemma FirstAnchorOnly()
    ensures !Greedy(["*", "pressure"], ["upb", "pressure", "ec", "pressure"])
    ensures Greedy(["*", "pressure"], ["upb", "ec", "pressure"])
  {
    var p: seq<Token>, t: seq<Token> := ["*", "pressure"], ["upb", "pressure", "ec", "pressure"];
    assert FindFrom(t, "pressure", 0) == 1;
    assert p[2..] == [] && t[2..] == ["ec", "pressure"];
    var s: seq<Token> := ["upb", "ec", "pressure"];
    assert FindFrom(s, "pressure", 0) == 2;
    assert s[3..] == [];
  }
}
