/**
 The wildcard matcher of the server: a subscription pattern against the topic of a
 publication, both cut into tokens.  '*' stands for any number of levels and '+' for one.
 The search keeps two indices and never goes back.
 */
module Matching {
  import opened Topics

  const STAR: Token := "*"
  const PLUS: Token := "+"

  predicate IsWildcard(x: Token) { x == STAR || x == PLUS }

  ghost predicate WildcardFree(tokens: seq<Token>) {
    forall k :: 0 <= k < |tokens| ==> !IsWildcard(tokens[k])
  }

  // ----- the declarative relation

  /** Pattern token `x` covers exactly the topic levels `levels`. */
  ghost predicate Covers(x: Token, levels: seq<Token>, least: nat) {
    if x == STAR then least <= |levels|
    else |levels| == 1 && (x == PLUS || x == levels[0])
  }

  function Flat(parts: seq<seq<Token>>): seq<Token> {
    if parts == [] then [] else parts[0] + Flat(parts[1..])
  }

  /**
   `parts` cuts the topic into consecutive stretches, one for each pattern token.
   A '*' that ends the pattern must cover at least `least` levels, any other '*' may cover none.
   */
  ghost predicate Splits(p: seq<Token>, t: seq<Token>, parts: seq<seq<Token>>, least: nat) {
    && |parts| == |p| && Flat(parts) == t
    && forall i :: 0 <= i < |p| ==> Covers(p[i], parts[i], if i == |p| - 1 then least else 0)
  }

  /** The pattern describes the topic; the code asks a final '*' to cover one level or more. */
  ghost predicate Matches(p: seq<Token>, t: seq<Token>) {
    exists parts :: Splits(p, t, parts, 1)
  }

  /** The reading of the documentation: any '*' may cover no level at all. */
  ghost predicate MatchesLoosely(p: seq<Token>, t: seq<Token>) {
    exists parts :: Splits(p, t, parts, 0)
  }

  /** The same relation, consuming the pattern from its front. */
  ghost predicate Peels(p: seq<Token>, t: seq<Token>) {
    if p == [] then t == []
    else if p[0] == STAR then
      exists k :: (if |p| == 1 then 1 else 0) <= k <= |t| && Peels(p[1..], t[k..])
    else t != [] && (p[0] == PLUS || p[0] == t[0]) && Peels(p[1..], t[1..])
  }

  lemma SplitsCons(p: seq<Token>, part: seq<Token>, rest: seq<seq<Token>>)
    requires p != [] && Covers(p[0], part, if |p| == 1 then 1 else 0)
    requires Splits(p[1..], Flat(rest), rest, 1)
    ensures Splits(p, part + Flat(rest), [part] + rest, 1)
  {
    forall i | 0 <= i < |p|
      ensures Covers(p[i], ([part] + rest)[i], if i == |p| - 1 then 1 else 0)
    {
      if i > 0 { assert p[1..][i - 1] == p[i]; }
    }
    assert ([part] + rest)[1..] == rest;
  }

  lemma {:induction false} SplitsPeels(p: seq<Token>, t: seq<Token>, parts: seq<seq<Token>>)
    requires Splits(p, t, parts, 1)
    ensures Peels(p, t)
    decreases |p|
  {
    if p == [] {
    } else {
      var part, rest := parts[0], parts[1..];
      assert Covers(p[0], part, if |p| == 1 then 1 else 0);
      assert t[..|part|] == part && t[|part|..] == Flat(rest);
      forall i | 0 <= i < |p[1..]|
        ensures Covers(p[1..][i], rest[i], if i == |p[1..]| - 1 then 1 else 0)
      {
        assert Covers(p[i + 1], parts[i + 1], if i + 1 == |p| - 1 then 1 else 0);
      }
      SplitsPeels(p[1..], t[|part|..], rest);
    }
  }

  lemma {:induction false} PeelsMatches(p: seq<Token>, t: seq<Token>)
    requires Peels(p, t)
    ensures Matches(p, t)
    decreases |p|
  {
    if p == [] {
      assert Splits(p, t, [], 1);
    } else {
      var least := if |p| == 1 then 1 else 0;
      var k := 1;
      if p[0] == STAR { k :| least <= k <= |t| && Peels(p[1..], t[k..]); }
      PeelsMatches(p[1..], t[k..]);
      var rest :| Splits(p[1..], t[k..], rest, 1);
      SplitsCons(p, t[..k], rest);
      assert t == t[..k] + t[k..];
    }
  }

  /** Splitting the topic all at once and peeling the pattern are the same relation. */
  lemma MatchesPeels(p: seq<Token>, t: seq<Token>)
    ensures Matches(p, t) <==> Peels(p, t)
  {
    if Matches(p, t) {
      var parts :| Splits(p, t, parts, 1);
      SplitsPeels(p, t, parts);
    }
    if Peels(p, t) {
      PeelsMatches(p, t);
    }
  }

  lemma {:induction false} PeelsSelf(p: seq<Token>)
    ensures Peels(p, p)
  {
    if p == [] {
    } else {
      PeelsSelf(p[1..]);
    }
  }

  /** Every token vector matches itself: each of its '*' covers one level. */
  lemma MatchesSelf(p: seq<Token>)
    ensures Matches(p, p)
  {
    PeelsSelf(p);
    MatchesPeels(p, p);
  }

  /** What the code accepts, the documentation's reading accepts. */
  lemma MatchesIsLoose(p: seq<Token>, t: seq<Token>)
    requires Matches(p, t)
    ensures MatchesLoosely(p, t)
  {
    var parts :| Splits(p, t, parts, 1);
    assert Splits(p, t, parts, 0);
  }

  lemma {:induction false} FlatSnoc(parts: seq<seq<Token>>, last: seq<Token>)
    ensures Flat(parts + [last]) == Flat(parts) + last
  {
    if parts == [] {
      assert ([] + [last])[1..] == [];
      assert Flat([last]) == last + Flat([]);
    } else {
      assert (parts + [last])[1..] == parts[1..] + [last];
      FlatSnoc(parts[1..], last);
    }
  }

  /** The two readings differ only where a final '*' has no level left to cover. */
  lemma LooseMatchesIff(p: seq<Token>, t: seq<Token>)
    ensures MatchesLoosely(p, t) <==>
            Matches(p, t) || (p != [] && p[|p| - 1] == STAR && MatchesLoosely(p[..|p| - 1], t))
  {
    var n := |p| - 1;
    if MatchesLoosely(p, t) {
      var parts :| Splits(p, t, parts, 0);
      if !Splits(p, t, parts, 1) {
        assert parts == parts[..n] + [parts[n]];
        FlatSnoc(parts[..n], parts[n]);
        assert Splits(p[..n], t, parts[..n], 0);
      }
    }
    if Matches(p, t) {
      MatchesIsLoose(p, t);
    }
    if p != [] && p[n] == STAR && MatchesLoosely(p[..n], t) {
      var init :| Splits(p[..n], t, init, 0);
      FlatSnoc(init, []);
      assert forall i :: 0 <= i < n ==> p[..n][i] == p[i];
      assert Splits(p, t, init + [[]], 0);
    }
  }

  // ----- the search

  /** The first position at or after `from` that holds exactly `x`, or |t|. */
  function FindFrom(t: seq<Token>, x: Token, from: nat): (r: nat)
    requires from <= |t|
    ensures from <= r <= |t|
    ensures forall k :: from <= k < r ==> t[k] != x
    ensures r < |t| ==> t[r] == x
    decreases |t| - from
  {
    if from == |t| || t[from] == x then from else FindFrom(t, x, from + 1)
  }

  /**
   The greedy search: after a '*' the next pattern token is looked up literally, at its
   leftmost place, and that choice is final.
   */
  predicate Greedy(p: seq<Token>, t: seq<Token>)
    decreases |p|
  {
    if p == [] || t == [] then p == [] && t == []
    else if p[0] == STAR then
      |p| == 1 || (var j := FindFrom(t, p[1], 0); j < |t| && Greedy(p[2..], t[j + 1..]))
    else (p[0] == PLUS || p[0] == t[0]) && Greedy(p[1..], t[1..])
  }

  lemma {:induction false} FindFromSuffix(t: seq<Token>, x: Token, start: nat, from: nat)
    requires start <= from <= |t|
    ensures FindFrom(t[start..], x, from - start) == FindFrom(t, x, from) - start
    decreases |t| - from
  {
    if from == |t| || t[from] == x {
    } else {
      FindFromSuffix(t, x, start, from + 1);
    }
  }

  /** The search on what is left from pattern position `i` and topic position `j` on. */
  predicate GreedyFrom(p: seq<Token>, t: seq<Token>, i: nat, j: nat)
    requires i <= |p| && j <= |t|
    decreases |p| - i
  {
    if i == |p| || j == |t| then i == |p| && j == |t|
    else if p[i] == STAR then
      i + 1 == |p| || (var k := FindFrom(t, p[i + 1], j); k < |t| && GreedyFrom(p, t, i + 2, k + 1))
    else (p[i] == PLUS || p[i] == t[j]) && GreedyFrom(p, t, i + 1, j + 1)
  }

  lemma {:induction false} GreedyFromIsGreedy(p: seq<Token>, t: seq<Token>, i: nat, j: nat)
    requires i <= |p| && j <= |t|
    ensures GreedyFrom(p, t, i, j) == Greedy(p[i..], t[j..])
    decreases |p| - i
  {
    if i == |p| || j == |t| {
    } else {
      var q, s := p[i..], t[j..];
      if p[i] != STAR {
        assert q[1..] == p[i + 1..] && s[1..] == t[j + 1..];
        GreedyFromIsGreedy(p, t, i + 1, j + 1);
      } else if i + 1 < |p| {
        FindFromSuffix(t, p[i + 1], j, j);
        var k := FindFrom(t, p[i + 1], j);
        if k < |t| {
          assert q[2..] == p[i + 2..] && s[k - j + 1..] == t[k + 1..];
          GreedyFromIsGreedy(p, t, i + 2, k + 1);
        }
      }
    }
  }

  /** Strictly increasing positions below `bound`: each position at most once. */
  ghost predicate Logged(s: seq<nat>, bound: int) {
    if s == [] then 0 <= bound
    else s[|s| - 1] < bound && Logged(s[..|s| - 1], s[|s| - 1])
  }

  lemma LoggedSnoc(s: seq<nat>, x: nat)
    requires Logged(s, x)
    ensures Logged(s + [x], x + 1)
  {
    assert (s + [x])[..|s|] == s;
  }

  lemma LoggedMore(s: seq<nat>, a: int, b: int)
    requires Logged(s, a) && a <= b
    ensures Logged(s, b)
  {
  }

  /** A log without repetition is no longer than the topic. */
  lemma {:induction false} LoggedOnce(s: seq<nat>, bound: int)
    requires Logged(s, bound)
    ensures |s| <= bound && forall i, j :: 0 <= i < j < |s| ==> s[i] < s[j]
    ensures forall i :: 0 <= i < |s| ==> s[i] < bound
  {
    if s == [] {
    } else {
      var n := |s| - 1;
      LoggedOnce(s[..n], s[n]);
      assert forall i :: 0 <= i < n ==> s[i] == s[..n][i];
    }
  }

  /**
   The inner loop: on from topic position `from` to the token `afterStar`.  `log` holds the
   topic positions whose token has been compared.
   */
  method AdvanceTo(newTokens: seq<Token>, afterStar: Token, from: nat, ghost log: seq<nat>)
    returns (itNew: nat, ghost compared: seq<nat>)
    requires from <= |newTokens| && Logged(log, from)
    ensures itNew == FindFrom(newTokens, afterStar, from)
    ensures Logged(compared, if itNew < |newTokens| then itNew + 1 else itNew)
  {
    itNew, compared := from, log;
    while true
      invariant from <= itNew <= |newTokens| && Logged(compared, itNew)
      invariant FindFrom(newTokens, afterStar, itNew) == FindFrom(newTokens, afterStar, from)
      decreases |newTokens| - itNew
    {
      if itNew == |newTokens| { return; }
      LoggedSnoc(compared, itNew);
      compared := compared + [itNew];
      if newTokens[itNew] == afterStar { return; }
      itNew := itNew + 1;
    }
  }

  /**
   The two-index loop.  `rounds` counts the outer iterations: no topic token is compared
   twice, and the pattern bounds the iterations.
   */
  method CompareTokenVectors(oldTokens: seq<Token>, newTokens: seq<Token>)
    returns (matched: bool, ghost compared: seq<nat>, ghost rounds: nat)
    ensures matched == Greedy(oldTokens, newTokens)
    ensures Logged(compared, |newTokens|)
    ensures rounds <= |oldTokens| + 1
  {
    compared, rounds := [], 0;
    GreedyFromIsGreedy(oldTokens, newTokens, 0, 0);
    assert oldTokens[0..] == oldTokens && newTokens[0..] == newTokens;
    var newSize := |newTokens|;
    var oldSize := |oldTokens|;
    var itOld := -1;
    var itNew := -1;
    while true
      invariant -1 <= itOld < oldSize && -1 <= itNew < newSize
      invariant GreedyFrom(oldTokens, newTokens, 0, 0) == GreedyFrom(oldTokens, newTokens, itOld + 1, itNew + 1)
      invariant Logged(compared, itNew + 1)
      invariant rounds <= itOld + 1
      decreases oldSize - itOld
    {
      rounds := rounds + 1;
      itOld := itOld + 1;
      itNew := itNew + 1;
      if itOld == oldSize || itNew == newSize { break; }

      if oldTokens[itOld] == STAR {
        itOld := itOld + 1;
        if itOld == oldSize {
          LoggedMore(compared, itNew, newSize);
          return true, compared, rounds;
        }
        var afterStar := oldTokens[itOld];
        itNew, compared := AdvanceTo(newTokens, afterStar, itNew, compared);
        if itNew == newSize { return false, compared, rounds; }
        continue;
      }

      if oldTokens[itOld] == PLUS {
        LoggedMore(compared, itNew, itNew + 1);
        continue;
      }

      LoggedSnoc(compared, itNew);
      compared := compared + [itNew];
      if oldTokens[itOld] != newTokens[itNew] {
        LoggedMore(compared, itNew + 1, newSize);
        return false, compared, rounds;
      }
    }
    LoggedMore(compared, itNew, newSize);
    matched := itOld == oldSize && itNew == newSize;
  }

  // ----- soundness

  /** Whatever the search accepts matches, also where '*' is followed by '+' or '*'. */
  lemma {:induction false} GreedyPeels(p: seq<Token>, t: seq<Token>)
    requires Greedy(p, t)
    ensures Peels(p, t)
    decreases |p|
  {
    if p == [] || t == [] {
    } else {
      if p[0] == STAR {
        if |p| == 1 {
          assert Peels(p[1..], t[|t|..]);
        } else {
          var j := FindFrom(t, p[1], 0);
          GreedyPeels(p[2..], t[j + 1..]);
          var q, s := p[1..], t[j..];
          assert q[1..] == p[2..] && s[1..] == t[j + 1..];
          assert Peels(q, s);
        }
      } else {
        GreedyPeels(p[1..], t[1..]);
      }
    }
  }

  lemma GreedySound(p: seq<Token>, t: seq<Token>)
    requires Greedy(p, t)
    ensures Matches(p, t) && MatchesLoosely(p, t)
  {
    GreedyPeels(p, t);
    MatchesPeels(p, t);
    MatchesIsLoose(p, t);
  }

  /** Without wildcards in the pattern the search is equality of token vectors. */
  lemma {:induction false} GreedyLiteral(p: seq<Token>, t: seq<Token>)
    requires WildcardFree(p)
    ensures Greedy(p, t) <==> p == t
    decreases |p|
  {
    if p == [] || t == [] {
    } else {
      GreedyLiteral(p[1..], t[1..]);
      assert p == [p[0]] + p[1..] && t == [t[0]] + t[1..];
    }
  }

  // ----- completeness where the search has no choice

  ghost predicate NoWildcardAfterStar(p: seq<Token>) {
    forall i :: 0 <= i < |p| - 1 && p[i] == STAR ==> !IsWildcard(p[i + 1])
  }

  /** No literal that directly follows a '*' occurs twice in the topic. */
  ghost predicate AnchorsUnique(p: seq<Token>, t: seq<Token>) {
    forall i, j, k :: 0 <= i < |p| - 1 && p[i] == STAR && 0 <= j < k < |t| && t[j] == p[i + 1] ==> t[k] != p[i + 1]
  }

  lemma AnchorsUniqueSuffix(p: seq<Token>, t: seq<Token>, a: nat, b: nat)
    requires a <= |p| && b <= |t|
    requires NoWildcardAfterStar(p) && AnchorsUnique(p, t)
    ensures NoWildcardAfterStar(p[a..]) && AnchorsUnique(p[a..], t[b..])
  {
    forall i | 0 <= i < |p[a..]| - 1 && p[a..][i] == STAR
      ensures !IsWildcard(p[a..][i + 1])
      ensures forall j, k :: 0 <= j < k < |t[b..]| && t[b..][j] == p[a..][i + 1] ==> t[b..][k] != p[a..][i + 1]
    {
      assert p[a + i] == STAR && p[a + i + 1] == p[a..][i + 1];
      forall j, k | 0 <= j < k < |t[b..]| && t[b..][j] == p[a..][i + 1]
        ensures t[b..][k] != p[a..][i + 1]
      {
        assert t[b + j] == p[a + i + 1] && t[b + k] == t[b..][k];
      }
    }
  }

  lemma {:induction false} UniqueAnchorsPeel(p: seq<Token>, t: seq<Token>)
    requires NoWildcardAfterStar(p) && AnchorsUnique(p, t)
    requires Peels(p, t)
    ensures Greedy(p, t)
    decreases |p|
  {
    assert |p| > 1 && p[0] == STAR ==> !IsWildcard(p[0 + 1]);
    if p == [] || t == [] {
    } else {
      if p[0] != STAR {
        AnchorsUniqueSuffix(p, t, 1, 1);
        UniqueAnchorsPeel(p[1..], t[1..]);
      } else if |p| > 1 {
        var k :| 0 <= k <= |t| && Peels(p[1..], t[k..]);
        var q, s := p[1..], t[k..];
        assert q[0] == p[0 + 1] && !IsWildcard(q[0]);
        assert s != [] && s[0] == t[k] == p[0 + 1];
        var j := FindFrom(t, p[1], 0);
        assert j == k;
        assert q[1..] == p[2..] && s[1..] == t[j + 1..];
        AnchorsUniqueSuffix(p, t, 2, j + 1);
        UniqueAnchorsPeel(p[2..], t[j + 1..]);
      }
    }
  }

  /** Where every literal after a '*' occurs at most once in the topic, search and relation agree. */
  lemma CompleteByUniqueness(p: seq<Token>, t: seq<Token>)
    requires NoWildcardAfterStar(p) && AnchorsUnique(p, t)
    ensures Greedy(p, t) <==> Matches(p, t)
  {
    MatchesPeels(p, t);
    if Greedy(p, t) {
      GreedyPeels(p, t);
    } else if Peels(p, t) {
      UniqueAnchorsPeel(p, t);
    }
  }

  // ----- a topic against its own token vector

  /** The number of '*' at the front. */
  function StarRun(p: seq<Token>): (n: nat)
    ensures n <= |p|
    ensures forall k :: 0 <= k < n ==> p[k] == STAR
    ensures n < |p| ==> p[n] != STAR
  {
    if p == [] || p[0] != STAR then 0 else
      var n := StarRun(p[1..]);
      assert forall k :: 1 <= k < 1 + n ==> p[k] == p[1..][k - 1];
      1 + n
  }

  /** Every maximal run of adjacent '*' has odd length. */
  predicate StarRunsOdd(p: seq<Token>)
    decreases |p|
  {
    if p == [] then true
    else if p[0] != STAR then StarRunsOdd(p[1..])
    else StarRun(p) % 2 == 1 && StarRunsOdd(p[StarRun(p)..])
  }

  /** The first run of even length, if there is one, is directly followed by a '+', and another '*' comes later. */
  predicate Misaligned(p: seq<Token>)
    decreases |p|
  {
    if p == [] then false
    else if p[0] != STAR then Misaligned(p[1..])
    else
      var n := StarRun(p);
      if n % 2 == 1 then Misaligned(p[n..]) else n < |p| && p[n] == PLUS && STAR in p[n..]
  }

  ghost predicate NoAdjacentStars(p: seq<Token>) {
    forall i :: 0 <= i < |p| - 1 && p[i] == STAR ==> p[i + 1] != STAR
  }

  lemma {:induction false} NoAdjacentStarsOdd(p: seq<Token>)
    requires NoAdjacentStars(p)
    ensures StarRunsOdd(p)
    decreases |p|
  {
    if p == [] {
    } else {
      var n := if p[0] == STAR then 1 else 0;
      assert forall i :: 0 <= i < |p[1..]| ==> p[1..][i] == p[i + 1];
      if p[0] == STAR {
        assert |p| > 1 ==> p[0 + 1] != STAR;
        assert StarRun(p) == 1;
      }
      NoAdjacentStarsOdd(p[1..]);
    }
  }

  /** Without a '*' the search consumes one level for each pattern token. */
  lemma {:induction false} StarFreeLength(p: seq<Token>, t: seq<Token>)
    requires STAR !in p && Greedy(p, t)
    ensures |p| == |t|
    decreases |p|
  {
    if p == [] {
    } else {
      StarFreeLength(p[1..], t[1..]);
    }
  }

  /** Against itself with `n` '*' before it, a pattern without leading '*' is lost but in the misaligned kind. */
  lemma RestRejects(r: seq<Token>, t: seq<Token>, n: nat)
    requires 0 < n <= |t| && t[n..] == r && t[0] == STAR && (r == [] || r[0] != STAR)
    ensures r == [] || r[0] != PLUS || STAR !in r ==> !Greedy(r, t)
  {
    if STAR !in r && Greedy(r, t) { StarFreeLength(r, t); }
  }

  /** Two adjacent '*' eat one '*' of the topic. */
  lemma TwoStarsStep(p: seq<Token>, t: seq<Token>)
    requires |p| >= 2 && p[0] == STAR && p[1] == STAR && t != [] && t[0] == STAR
    ensures Greedy(p, t) <==> Greedy(p[2..], t[1..])
  {
    assert FindFrom(t, STAR, 0) == 0;
  }

  /** One '*' before `r` eats all the '*' before `r` in the topic. */
  lemma OneStarStep(p: seq<Token>, t: seq<Token>, n: nat, r: seq<Token>)
    requires p != [] && p[0] == STAR && p[1..] == r && n > 0
    requires n <= |t| && t[n..] == r && forall k :: 0 <= k < n ==> t[k] == STAR
    requires r == [] || r[0] != STAR
    ensures Greedy(p, t) <==> r == [] || Greedy(r[1..], r[1..])
  {
    if r != [] {
      assert p[1] == r[0] && t[n] == r[0];
      assert FindFrom(t, p[1], 0) == n;
      assert p[2..] == r[1..] && t[n + 1..] == r[1..];
    }
  }

  /** A run of m stars eats one topic star for every two of its own. */
  lemma {:induction false} RunAgainstRun(p: seq<Token>, t: seq<Token>, m: nat, n: nat, r: seq<Token>)
    requires m <= |p| && n <= |t| && 1 <= m < 2 * n
    requires p[m..] == r && t[n..] == r
    requires (forall k :: 0 <= k < m ==> p[k] == STAR) && (forall k :: 0 <= k < n ==> t[k] == STAR)
    requires r == [] || r[0] != STAR
    ensures m % 2 == 1 ==> (Greedy(p, t) <==> r == [] || Greedy(r[1..], r[1..]))
    ensures m % 2 == 0 && (r == [] || r[0] != PLUS || STAR !in r) ==> !Greedy(p, t)
    decreases m
  {
    hide *;
    if m == 1 {
      OneStarStep(p, t, n, r);
    } else {
      TwoStarsStep(p, t);
      var q, s := p[2..], t[1..];
      assert q[m - 2..] == r && s[n - 1..] == r;
      if m == 2 {
        RestRejects(q, s, n - 1);
      } else {
        RunAgainstRun(q, s, m - 2, n - 1, r);
      }
    }
  }

  /** A token vector accepts itself exactly when its runs of '*' are odd, the misaligned kind aside. */
  lemma {:induction false} SelfMatch(p: seq<Token>)
    ensures StarRunsOdd(p) ==> Greedy(p, p)
    ensures !Misaligned(p) ==> (Greedy(p, p) <==> StarRunsOdd(p))
    decreases |p|
  {
    if p == [] {
    } else {
      if p[0] != STAR {
        SelfMatch(p[1..]);
      } else {
        var m := StarRun(p);
        var r := p[m..];
        RunAgainstRun(p, p, m, m, r);
        SelfMatch(r);
      }
    }
  }

  /** With an even run before a '+' and a later '*' both outcomes occur. */
  lemma MisalignedExamples()
    ensures var p: seq<Token> := ["*", "*", "+", "a", "*"]; Misaligned(p) && !Greedy(p, p)
    ensures var p: seq<Token> := ["*", "*", "+", "*"]; Misaligned(p) && Greedy(p, p)
  {
    var p: seq<Token> := ["*", "*", "+", "a", "*"];
    assert StarRun(p) == 2;
    assert FindFrom(p, STAR, 0) == 0;
    assert p[2..] == ["+", "a", "*"] && p[1..] == ["*", "+", "a", "*"];
    assert p[2..][1..] == ["a", "*"] && p[1..][1..] == ["+", "a", "*"];
    var q: seq<Token> := ["*", "*", "+", "*"];
    assert StarRun(q) == 2;
    assert FindFrom(q, STAR, 0) == 0;
    assert q[2..] == ["+", "*"] && q[1..] == ["*", "+", "*"];
    assert q[2..][1..] == ["*"] && q[1..][1..] == ["+", "*"];
  }
}
