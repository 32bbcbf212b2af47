/**
 For which subscriptions does the search without backtracking find every match?  Exactly for
 those in which each '*' ends the pattern or is followed by one literal, any number of '+'
 and another '*'.  Such a pattern misses nothing, by an exchange argument; every other
 pattern misses a topic that is constructed here.
 */
module Completeness {
  import opened Topics
  import opened Matching

  /** The pattern without the '+' at its front. */
  function SkipPluses(p: seq<Token>): (r: seq<Token>)
    ensures |r| <= |p| && r == p[|p| - |r|..]
    ensures forall k :: 0 <= k < |p| - |r| ==> p[k] == PLUS
    ensures r != [] ==> r[0] != PLUS
  {
    if p == [] || p[0] != PLUS then p
    else
      var r := SkipPluses(p[1..]);
      assert forall k :: 1 <= k < |p| - |r| ==> p[k] == p[1..][k - 1];
      r
  }

  /** What may follow a '*': nothing, or a literal and then, past any '+', another '*'. */
  predicate SafeAfterStar(q: seq<Token>) {
    q == [] || (!IsWildcard(q[0]) && SkipPluses(q[1..]) != [] && SkipPluses(q[1..])[0] == STAR)
  }

  predicate NeverMisses(p: seq<Token>) {
    forall i :: 0 <= i < |p| && p[i] == STAR ==> SafeAfterStar(p[i + 1..])
  }

  // ----- patterns of the class miss nothing

  lemma NeverMissesSuffix(p: seq<Token>, a: nat)
    requires NeverMisses(p) && a <= |p|
    ensures NeverMisses(p[a..])
  {
    forall i | 0 <= i < |p[a..]| && p[a..][i] == STAR
      ensures SafeAfterStar(p[a..][i + 1..])
    {
      assert p[a + i] == STAR && p[a..][i + 1..] == p[a + i + 1..];
    }
  }

  /** Exchange: a '*' past some '+' also covers the levels that an earlier choice leaves over. */
  lemma {:induction false} StarAbsorbs(p: seq<Token>, t: seq<Token>, d: nat)
    requires SkipPluses(p) != [] && SkipPluses(p)[0] == STAR
    requires d <= |t| && Peels(p, t[d..])
    ensures Peels(p, t)
  {
    if p[0] == STAR {
      var k :| (if |p| == 1 then 1 else 0) <= k <= |t[d..]| && Peels(p[1..], t[d..][k..]);
      assert t[d..][k..] == t[d + k..];
    } else {
      assert t[d..][1..] == t[1..][d..];
      StarAbsorbs(p[1..], t[1..], d);
    }
  }

  /** The leftmost place of the literal after a '*' is as good as any other. */
  lemma LeftmostPeels(p: seq<Token>, t: seq<Token>)
    requires |p| > 1 && p[0] == STAR && SafeAfterStar(p[1..]) && Peels(p, t)
    ensures FindFrom(t, p[1], 0) < |t|
    ensures Peels(p[2..], t[FindFrom(t, p[1], 0) + 1..])
  {
    var q := p[1..];
    var k :| 0 <= k <= |t| && Peels(q, t[k..]);
    var j := FindFrom(t, p[1], 0);
    assert q[0] == p[1] && q[1..] == p[2..];
    assert t[k] == t[k..][0] == p[1];
    assert j <= k && t[k..][1..] == t[j + 1..][k - j..];
    StarAbsorbs(p[2..], t[j + 1..], k - j);
  }

  lemma {:induction false} ExchangePeels(p: seq<Token>, t: seq<Token>)
    requires NeverMisses(p) && Peels(p, t)
    ensures Greedy(p, t)
    decreases |p|
  {
    assert p != [] && p[0] == STAR ==> SafeAfterStar(p[0 + 1..]);
    if p == [] || t == [] {
    } else {
      if p[0] != STAR {
        NeverMissesSuffix(p, 1);
        ExchangePeels(p[1..], t[1..]);
      } else if |p| > 1 {
        LeftmostPeels(p, t);
        NeverMissesSuffix(p, 2);
        ExchangePeels(p[2..], t[FindFrom(t, p[1], 0) + 1..]);
      }
    }
  }

  lemma CompleteByExchange(p: seq<Token>, t: seq<Token>)
    requires NeverMisses(p)
    ensures Greedy(p, t) <==> Matches(p, t)
  {
    MatchesPeels(p, t);
    if Greedy(p, t) {
      GreedyPeels(p, t);
    } else if Peels(p, t) {
      ExchangePeels(p, t);
    }
  }

  // ----- every other pattern misses a topic

  function Repeat(x: Token, n: nat): (r: seq<Token>)
    ensures |r| == n && forall k :: 0 <= k < n ==> r[k] == x
  {
    seq(n, _ => x)
  }

  /** The topic that a pattern describes when '+' reads `z` and '*' covers as little as it may. */
  function Instance(p: seq<Token>, z: Token): seq<Token> {
    if p == [] then []
    else if p[0] == STAR then if |p| == 1 then [z] else Instance(p[1..], z)
    else [if p[0] == PLUS then z else p[0]] + Instance(p[1..], z)
  }

  /** Made of tokens of the pattern and of `z`, and written with at most `bound` characters. */
  ghost predicate BuiltFrom(t: seq<Token>, p: seq<Token>, z: Token, bound: int) {
    (forall x :: x in t ==> x in p || x == z) && |Terminated(t)| <= bound
  }

  /** The same for a stretch of a pattern that more tokens follow. */
  function Stem(p: seq<Token>, z: Token): seq<Token> {
    if p == [] then []
    else if p[0] == STAR then Stem(p[1..], z)
    else [if p[0] == PLUS then z else p[0]] + Stem(p[1..], z)
  }

  lemma BuiltConcat(a: seq<Token>, b: seq<Token>, p: seq<Token>, z: Token, m: int, n: int)
    requires BuiltFrom(a, p, z, m) && BuiltFrom(b, p, z, n)
    ensures BuiltFrom(a + b, p, z, m + n)
  {
    TerminatedConcat(a, b);
  }

  /** One level for one pattern token: the literal itself, or `z` for a '+' or a final '*'. */
  lemma LevelBuilt(x: Token, p: seq<Token>, z: Token)
    requires x in p && |z| == 1
    ensures var y := if IsWildcard(x) then z else x; BuiltFrom([y], p, z, |x| + 1)
  {
    var y := if IsWildcard(x) then z else x;
    assert Terminated([y]) == y + [DELIM] + Terminated([]);
  }

  lemma {:induction false} InstanceBuilt(q: seq<Token>, p: seq<Token>, z: Token)
    requires |z| == 1 && forall x :: x in q ==> x in p
    ensures BuiltFrom(Instance(q, z), p, z, |Terminated(q)|)
  {
    if q == [] {
    } else {
      assert forall x :: x in q[1..] ==> x in q;
      InstanceBuilt(q[1..], p, z);
      assert q[0] in q;
      LevelBuilt(q[0], p, z);
      if q[0] != STAR {
        var y := if q[0] == PLUS then z else q[0];
        BuiltConcat([y], Instance(q[1..], z), p, z, |q[0]| + 1, |Terminated(q[1..])|);
      }
    }
  }

  lemma {:induction false} StemBuilt(q: seq<Token>, p: seq<Token>, z: Token)
    requires |z| == 1 && forall x :: x in q ==> x in p
    ensures BuiltFrom(Stem(q, z), p, z, |Terminated(q)|)
  {
    if q == [] {
    } else {
      assert forall x :: x in q[1..] ==> x in q;
      StemBuilt(q[1..], p, z);
      assert q[0] in q;
      LevelBuilt(q[0], p, z);
      if q[0] != STAR {
        var y := if q[0] == PLUS then z else q[0];
        BuiltConcat([y], Stem(q[1..], z), p, z, |q[0]| + 1, |Terminated(q[1..])|);
      }
    }
  }

  lemma {:induction false} RepeatBuilt(p: seq<Token>, z: Token, n: nat)
    requires |z| == 1
    ensures BuiltFrom(Repeat(z, n), p, z, 2 * n)
  {
    if n == 0 {
      assert Repeat(z, 0) == [];
    } else {
      RepeatBuilt(p, z, n - 1);
      assert Repeat(z, n)[1..] == Repeat(z, n - 1);
    }
  }

  ghost predicate Plain(tokens: seq<Token>) { WildcardFree(tokens) && SlashFree(tokens) }

  lemma PlainConcat(a: seq<Token>, b: seq<Token>)
    requires Plain(a) && Plain(b)
    ensures Plain(a + b)
  {
  }

  lemma {:induction false} InstancePeels(p: seq<Token>, z: Token)
    requires SlashFree(p) && Plain([z])
    ensures Peels(p, Instance(p, z)) && Plain(Instance(p, z))
  {
    if p == [] {
    } else {
      assert SlashFree(p[1..]);
      InstancePeels(p[1..], z);
      var t := Instance(p, z);
      assert [z][0] == z;
      if p[0] == STAR {
        assert |p| > 1 ==> t[0..] == t;
        assert |p| == 1 ==> Peels(p[1..], t[1..]);
      } else {
        PlainConcat([if p[0] == PLUS then z else p[0]], Instance(p[1..], z));
      }
    }
  }

  lemma {:induction false} StemPlain(p: seq<Token>, z: Token)
    requires SlashFree(p) && Plain([z])
    ensures Plain(Stem(p, z))
  {
    if p == [] {
    } else {
      assert SlashFree(p[1..]) && [z][0] == z;
      StemPlain(p[1..], z);
      if p[0] != STAR {
        PlainConcat([if p[0] == PLUS then z else p[0]], Stem(p[1..], z));
      }
    }
  }

  /** Any match of the end of a pattern extends to the whole pattern. */
  lemma {:induction false} StemPeels(p: seq<Token>, i: nat, z: Token, s: seq<Token>)
    requires i < |p| && Peels(p[i..], s)
    ensures Peels(p, Stem(p[..i], z) + s)
    decreases i
  {
    if i == 0 {
      assert p[0..] == p && Stem(p[..0], z) + s == s;
    } else {
      assert p[1..][i - 1..] == p[i..] && p[..i][1..] == p[1..][..i - 1];
      StemPeels(p[1..], i - 1, z, s);
      var t := Stem(p[..i], z) + s;
      if p[0] == STAR {
        assert t[0..] == t;
      } else {
        assert t[1..] == Stem(p[1..][..i - 1], z) + s;
      }
    }
  }

  lemma StemStep(q: seq<Token>, z: Token)
    requires |q| >= 2 && q[0] == STAR && !IsWildcard(q[1])
    ensures Stem(q, z) == [q[1]] + Stem(q[2..], z)
  {
    var r := q[1..];
    assert r[1..] == q[2..];
    assert Stem(r, z) == [q[1]] + Stem(r[1..], z);
  }

  /** On the stem the search has only one way to go, so it reaches the '*' behind it. */
  lemma {:induction false} StemGreedy(p: seq<Token>, i: nat, z: Token, s: seq<Token>)
    requires i < |p| && p[i] == STAR
    requires Plain(Stem(p[..i], z) + s)
    requires Greedy(p, Stem(p[..i], z) + s)
    ensures Greedy(p[i..], s)
    decreases i
  {
    var t := Stem(p[..i], z) + s;
    if i == 0 {
      assert p[0..] == p && t == s;
    } else {
      if p[0] == STAR {
        if t != [] && !IsWildcard(p[1]) {
          assert i != 1;
          StemStep(p[..i], z);
          assert p[..i][2..] == p[2..][..i - 2];
          assert t[0] == p[1] && FindFrom(t, p[1], 0) == 0;
          assert t[1..] == Stem(p[2..][..i - 2], z) + s;
          assert p[2..][i - 2..] == p[i..];
          StemGreedy(p[2..], i - 2, z, s);
        }
      } else {
        assert p[..i][1..] == p[1..][..i - 1];
        assert t[1..] == Stem(p[1..][..i - 1], z) + s;
        assert p[1..][i - 1..] == p[i..];
        StemGreedy(p[1..], i - 1, z, s);
      }
    }
  }

  /** Past some '+' the search stands before a literal it cannot find, or before the end too early. */
  lemma {:induction false} PlusesStuck(p: seq<Token>, z: Token, n: nat, s: seq<Token>)
    requires n == |p| - |SkipPluses(p)| + 1 && z !in p
    requires SkipPluses(p) == [] || SkipPluses(p)[0] != STAR
    ensures !Greedy(p, Repeat(z, n) + s)
    decreases |p|
  {
    var t := Repeat(z, n) + s;
    assert t[0] == z;
    if p == [] {
    } else if p[0] == PLUS {
      assert z !in p[1..] by { assert forall x :: x in p[1..] ==> x in p; }
      PlusesStuck(p[1..], z, n - 1, s);
      assert t[1..] == Repeat(z, n - 1) + s;
    } else {
      assert SkipPluses(p) == p;
      assert p[0] in p;
    }
  }

  /** A '*' before another wildcard: the wildcard is looked up literally, and no plain topic has it. */
  lemma WildcardAfterStarMisses(p: seq<Token>, z: Token) returns (s: seq<Token>)
    requires |p| > 1 && p[0] == STAR && IsWildcard(p[1])
    requires SlashFree(p) && Plain([z])
    ensures Plain(s) && Peels(p, s) && !Greedy(p, s)
    ensures |z| == 1 ==> BuiltFrom(s, p, z, |Terminated(p)| - 2)
  {
    assert SlashFree(p[1..]);
    s := Instance(p[1..], z);
    InstancePeels(p[1..], z);
    if |z| == 1 { InstanceBuilt(p[1..], p, z); }
    assert s[0..] == s;
  }

  lemma {:induction false} PlusesLength(p: seq<Token>)
    ensures 2 * (|p| - |SkipPluses(p)|) <= |Terminated(p)|
  {
    if p == [] || p[0] != PLUS {
    } else {
      PlusesLength(p[1..]);
    }
  }

  lemma LiteralBuilt(p: seq<Token>, z: Token, n: nat)
    requires |p| > 1 && p[0] == STAR && !IsWildcard(p[1]) && |z| == 1
    requires n == |p[2..]| - |SkipPluses(p[2..])| + 1
    ensures BuiltFrom([p[1]] + Repeat(z, n) + Instance(p[1..], z), p, z, 2 * |Terminated(p)| - 2)
  {
    assert p[1] in p && p[1..][0] == p[1] && p[1..][1..] == p[2..];
    LevelBuilt(p[1], p, z);
    RepeatBuilt(p, z, n);
    InstanceBuilt(p[1..], p, z);
    PlusesLength(p[2..]);
    BuiltConcat([p[1]], Repeat(z, n), p, z, |p[1]| + 1, 2 * n);
    BuiltConcat([p[1]] + Repeat(z, n), Instance(p[1..], z), p, z, |p[1]| + 1 + 2 * n, |Terminated(p[1..])|);
  }

  lemma LiteralRejected(p: seq<Token>, z: Token, n: nat, base: seq<Token>)
    requires |p| > 1 && p[0] == STAR && z !in p
    requires SkipPluses(p[2..]) == [] || SkipPluses(p[2..])[0] != STAR
    requires n == |p[2..]| - |SkipPluses(p[2..])| + 1
    ensures !Greedy(p, [p[1]] + Repeat(z, n) + base)
  {
    var s := [p[1]] + Repeat(z, n) + base;
    assert z !in p[2..] by { assert forall x :: x in p[2..] ==> x in p; }
    PlusesStuck(p[2..], z, n, base);
    assert FindFrom(s, p[1], 0) == 0;
    assert s[1..] == Repeat(z, n) + base;
  }

  /** A '*' before a literal that no '*' follows: the first such level is the wrong one. */
  lemma LiteralAfterStarMisses(p: seq<Token>, z: Token) returns (s: seq<Token>)
    requires |p| > 1 && p[0] == STAR && !IsWildcard(p[1])
    requires SkipPluses(p[2..]) == [] || SkipPluses(p[2..])[0] != STAR
    requires SlashFree(p) && Plain([z]) && z !in p
    ensures Plain(s) && Peels(p, s) && !Greedy(p, s)
    ensures |z| == 1 ==> BuiltFrom(s, p, z, 2 * |Terminated(p)| - 2)
  {
    assert SlashFree(p[1..]);
    var base := Instance(p[1..], z);
    InstancePeels(p[1..], z);
    var n := |p[2..]| - |SkipPluses(p[2..])| + 1;
    var front := [p[1]] + Repeat(z, n);
    assert [z][0] == z;
    assert Plain(front);
    PlainConcat(front, base);
    s := front + base;
    assert s[n + 1..] == base;
    LiteralRejected(p, z, n, base);
    if |z| == 1 { LiteralBuilt(p, z, n); }
  }

  /** A '*' with an unsafe rest accepts, by the relation, a topic that the search rejects. */
  lemma UnsafeStarMisses(p: seq<Token>, z: Token) returns (s: seq<Token>)
    requires p != [] && p[0] == STAR && !SafeAfterStar(p[1..])
    requires SlashFree(p) && Plain([z]) && z !in p
    ensures Plain(s) && Peels(p, s) && !Greedy(p, s)
    ensures |z| == 1 ==> BuiltFrom(s, p, z, 2 * |Terminated(p)| - 2)
  {
    assert p[1..][0] == p[1] && p[1..][1..] == p[2..];
    if IsWildcard(p[1]) {
      s := WildcardAfterStarMisses(p, z);
    } else {
      s := LiteralAfterStarMisses(p, z);
    }
  }

  function Longest(p: seq<Token>): (n: nat)
    ensures forall x :: x in p ==> |x| <= n
  {
    if p == [] then 0
    else if |p[0]| > Longest(p[1..]) then |p[0]| else Longest(p[1..])
  }

  /** A token that does not occur in the pattern. */
  function FreshToken(p: seq<Token>): (z: Token)
    ensures z !in p && Plain([z])
  {
    var z := seq(Longest(p) + 1, _ => 'z');
    assert forall k :: 0 <= k < |z| ==> z[k] == 'z';
    assert z[0] == 'z';
    z
  }

  /** The character codes that stand alone as a token of the pattern. */
  function LoneCodes(p: seq<Token>): (codes: set<int>)
    ensures |codes| <= |p|
    ensures forall x :: x in p && |x| == 1 ==> x[0] as int in codes
  {
    if p == [] then {}
    else LoneCodes(p[1..]) + if |p[0]| == 1 then {p[0][0] as int} else {}
  }

  function FirstUnused(codes: set<int>, from: nat): (k: nat)
    ensures from <= k <= from + |codes| && k !in codes
    decreases |codes|
  {
    if from !in codes then from else FirstUnused(codes - {from}, from + 1)
  }

  /** A token of one character, an 'A' or a later one, where the pattern leaves one unused. */
  function FreshLetter(p: seq<Token>): (z: Token)
    requires |p| <= 100
    ensures z !in p && Plain([z]) && |z| == 1 && 'A' as int <= z[0] as int <= 'A' as int + |p|
  {
    var k := FirstUnused(LoneCodes(p), 'A' as int);
    var z := [k as char];
    assert z[0] as int == k && [z][0] == z;
    z
  }

  lemma MissedBuilt(p: seq<Token>, i: nat, z: Token, s: seq<Token>)
    requires i <= |p| && |z| == 1 && BuiltFrom(s, p[i..], z, 2 * |Terminated(p[i..])| - 2)
    ensures BuiltFrom(Stem(p[..i], z) + s, p, z, 2 * |Terminated(p)| - 2)
  {
    StemBuilt(p[..i], p, z);
    assert BuiltFrom(s, p, z, 2 * |Terminated(p[i..])| - 2);
    BuiltConcat(Stem(p[..i], z), s, p, z, |Terminated(p[..i])|, 2 * |Terminated(p[i..])| - 2);
    TerminatedConcat(p[..i], p[i..]);
    assert p[..i] + p[i..] == p;
  }

  /** A topic that the pattern misses, made with any token that does not occur in the pattern. */
  lemma MissedTopic(p: seq<Token>, z: Token) returns (t: seq<Token>)
    requires SlashFree(p) && !NeverMisses(p)
    requires Plain([z]) && z !in p
    ensures Plain(t) && Matches(p, t) && !Greedy(p, t)
    ensures |z| == 1 ==> BuiltFrom(t, p, z, 2 * |Terminated(p)| - 2)
  {
    var i :| 0 <= i < |p| && p[i] == STAR && !SafeAfterStar(p[i + 1..]);
    var q := p[i..];
    assert q[1..] == p[i + 1..];
    assert z !in q by { assert forall x :: x in q ==> x in p; }
    var s := UnsafeStarMisses(q, z);
    t := Stem(p[..i], z) + s;
    StemPlain(p[..i], z);
    PlainConcat(Stem(p[..i], z), s);
    StemPeels(p, i, z, s);
    MatchesPeels(p, t);
    if Greedy(p, t) {
      StemGreedy(p, i, z, s);
    }
    if |z| == 1 { MissedBuilt(p, i, z, s); }
  }

  /**
   The subscriptions for which the server's search delivers every topic the relation
   describes: decided by looking at the pattern alone.  The tokens of any subscription are
   free of slashes.
   */
  lemma SearchCompleteExactly(p: seq<Token>)
    requires SlashFree(p)
    ensures NeverMisses(p) <==>
            (forall topic: string :: Matches(p, Tokenize(topic)) ==> Greedy(p, Tokenize(topic)))
  {
    if NeverMisses(p) {
      forall topic: string ensures Matches(p, Tokenize(topic)) ==> Greedy(p, Tokenize(topic)) {
        CompleteByExchange(p, Tokenize(topic));
      }
    } else {
      var t := MissedTopic(p, FreshToken(p));
      TokenizeTerminated(t);
      var topic := Terminated(t);
      assert Matches(p, Tokenize(topic)) && !Greedy(p, Tokenize(topic));
    }
  }

  lemma {:induction false} StemIsInstance(p: seq<Token>, z: Token)
    requires p != [] ==> p[|p| - 1] != STAR
    ensures Stem(p, z) == Instance(p, z)
  {
    if p == [] {
    } else {
      StemIsInstance(p[1..], z);
    }
  }

  /** Behind a safe '*' that does not end the pattern stands another one. */
  lemma AnotherStar(p: seq<Token>, i: nat) returns (m: nat)
    requires i + 1 < |p| && p[i] == STAR && SafeAfterStar(p[i + 1..])
    ensures i + 1 < m < |p| && p[m] == STAR && p[i + 1] != STAR
  {
    var q := p[i + 1..];
    assert q[1..] == p[i + 2..];
    var r := SkipPluses(p[i + 2..]);
    m := |p| - |r|;
    assert r == p[m..];
  }

  lemma {:induction false} LastStar(p: seq<Token>)
    requires STAR in p
    ensures exists i :: 0 <= i < |p| && p[i] == STAR && forall k :: i < k < |p| ==> p[k] != STAR
  {
    var n := |p| - 1;
    if p[n] == STAR {
    } else {
      LastStar(p[..n]);
      var i :| 0 <= i < n && p[..n][i] == STAR && forall k :: i < k < n ==> p[..n][k] != STAR;
      assert p[i] == STAR && forall k :: i < k < n ==> p[k] == p[..n][k];
    }
  }

  /** A safe last '*' ends its pattern, and no '*' stands right before it. */
  lemma LastStarEnds(p: seq<Token>)
    requires NeverMisses(p) && STAR in p
    ensures p[|p| - 1] == STAR && (|p| > 1 ==> p[|p| - 2] != STAR)
  {
    LastStar(p);
    var i :| 0 <= i < |p| && p[i] == STAR && forall k :: i < k < |p| ==> p[k] != STAR;
    if i + 1 < |p| {
      var m := AnotherStar(p, i);
    }
    assert i > 0 && p[i - 1] == STAR ==> SafeAfterStar(p[i - 1 + 1..]);
  }

  lemma LooselyMissedTopic(p: seq<Token>) returns (t: seq<Token>)
    requires SlashFree(p) && STAR in p
    ensures Plain(t) && MatchesLoosely(p, t) && !Greedy(p, t)
  {
    if !NeverMisses(p) {
      t := MissedTopic(p, FreshToken(p));
      MatchesIsLoose(p, t);
    } else {
      LastStarEnds(p);
      var n := |p| - 1;
      var z := FreshToken(p);
      t := Stem(p[..n], z);
      StemPlain(p[..n], z);
      StemIsInstance(p[..n], z);
      InstancePeels(p[..n], z);
      MatchesPeels(p[..n], t);
      MatchesIsLoose(p[..n], t);
      LooseMatchesIff(p, t);
      assert t + [] == t;
      if Greedy(p, t) {
        StemGreedy(p, n, z, []);
      }
    }
  }

  /**
   By the documentation's reading, where any '*' may cover no level, the search is complete
   for no subscription with a '*' in it.
   */
  lemma DocumentedCompleteExactly(pattern: string)
    ensures STAR !in Tokenize(pattern) <==>
            (forall topic: string :: MatchesLoosely(Tokenize(pattern), Tokenize(topic)) ==>
                                     Greedy(Tokenize(pattern), Tokenize(topic)))
  {
    var p := Tokenize(pattern);
    if STAR !in p {
      forall topic: string ensures MatchesLoosely(p, Tokenize(topic)) ==> Greedy(p, Tokenize(topic)) {
        LooseMatchesIff(p, Tokenize(topic));
        CompleteByExchange(p, Tokenize(topic));
      }
    } else {
      var t := LooselyMissedTopic(p);
      TokenizeTerminated(t);
      var topic := Terminated(t);
      assert MatchesLoosely(p, Tokenize(topic)) && !Greedy(p, Tokenize(topic));
    }
  }

  /** Two subscriptions outside the class, with a topic each of them misses. */
  lemma MissedExamples()
    ensures Matches(["*", "a", "b"], ["x", "a", "c", "a", "b"]) && !Greedy(["*", "a", "b"], ["x", "a", "c", "a", "b"])
    ensures Matches(["*", "a"], ["a", "x", "a"]) && !Greedy(["*", "a"], ["a", "x", "a"])
  {
    var p, t := ["*", "a", "b"], ["x", "a", "c", "a", "b"];
    var parts: seq<seq<Token>> := [["x", "a", "c"], ["a"], ["b"]];
    assert parts[1..] == [["a"], ["b"]] && parts[1..][1..] == [["b"]] && parts[1..][1..][1..] == [];
    assert Splits(p, t, parts, 1);
    assert FindFrom(t, "a", 0) == 1;
    assert p[2..] == ["b"] && t[2..] == ["c", "a", "b"];
    var p', t' := ["*", "a"], ["a", "x", "a"];
    var parts': seq<seq<Token>> := [["a", "x"], ["a"]];
    assert parts'[1..] == [["a"]] && parts'[1..][1..] == [];
    assert Splits(p', t', parts', 1);
    assert FindFrom(t', "a", 0) == 0;
    assert p'[2..] == [];
  }
}
