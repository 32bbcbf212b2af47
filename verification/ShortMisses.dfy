/**
 How short a topic can a subscription miss?  A recursion over the pattern decides, for every
 number of characters, whether some topic within it matches the pattern and is rejected by
 the search.  The cheapest fillings are the empty level and one letter that the pattern does
 not have.
 */
module ShortMisses {
  import opened Topics
  import opened Matching
  import opened Completeness

  // ----- the length of the shortest topic with given tokens

  /** A level costs its characters and a '/', the last one its '/' only if it is empty. */
  function Length(t: seq<Token>): (n: nat)
    ensures t != [] ==> n > 0
  {
    if t == [] then 0
    else if |t| == 1 then if t[0] == "" then 1 else |t[0]|
    else |t[0]| + 1 + Length(t[1..])
  }

  lemma {:induction false} LengthSuffix(t: seq<Token>, k: nat)
    requires k <= |t|
    ensures Length(t[k..]) <= Length(t)
    ensures 0 < k < |t| ==> |t[k - 1]| + 1 + Length(t[k..]) <= Length(t)
  {
    if k == 0 {
      assert t[0..] == t;
    } else {
      LengthSuffix(t[1..], k - 1);
      assert t[1..][k - 1..] == t[k..];
      assert k > 1 ==> t[1..][k - 2] == t[k - 1];
    }
  }

  lemma {:induction false} LengthOfJoined(t: seq<Token>)
    requires t != []
    ensures Length(t) == |Joined(t)| + if t[|t| - 1] == "" then 1 else 0
    ensures t[|t| - 1] == "" ==> Joined(t) == "" || Joined(t)[|Joined(t)| - 1] == DELIM
  {
    if |t| == 1 {
    } else {
      var rest := t[1..];
      assert rest[|rest| - 1] == t[|t| - 1];
      LengthOfJoined(rest);
      assert Joined(t) == t[0] + [DELIM] + Joined(rest);
      assert Length(t) == |t[0]| + 1 + Length(rest);
      hide Joined, Length;
      assert Joined(rest) == "" ==> Joined(t)[|Joined(t)| - 1] == DELIM;
    }
  }

  /** No topic with these tokens is shorter. */
  lemma LengthLeast(s: string)
    ensures Length(Tokenize(s)) <= |s|
  {
    JoinRestoresTopic(s);
    if Tokenize(s) != [] {
      LengthOfJoined(Tokenize(s));
    }
  }

  /** One of them has exactly this length. */
  function Shortest(t: seq<Token>): string {
    if t != [] && t[|t| - 1] != "" then Joined(t) else Terminated(t)
  }

  lemma {:induction false} JoinedEnd(t: seq<Token>)
    requires t != [] && t[|t| - 1] != "" && SlashFree(t)
    ensures Joined(t) != "" && Joined(t)[|Joined(t)| - 1] != DELIM
  {
    if |t| == 1 {
      assert t[0][|t[0]| - 1] in t[0];
    } else {
      assert t[1..][|t| - 2] == t[|t| - 1];
      JoinedEnd(t[1..]);
    }
  }

  lemma ShortestHasLength(t: seq<Token>)
    requires SlashFree(t)
    ensures |Shortest(t)| == Length(t) && Tokenize(Shortest(t)) == t
  {
    TokenizeTerminated(t);
    if t != [] {
      LengthOfJoined(t);
      TerminatedJoined(t);
      if t[|t| - 1] != "" {
        JoinedEnd(t);
        TerminatedTokenize(Terminated(t));
        TokenizeKernel(Joined(t), Terminated(t));
      }
    }
  }

  // ----- the shortest match

  /** What a pattern token that is not the last one costs at least. */
  function LevelCost(x: Token): nat {
    if x == STAR then 0 else if x == PLUS then 1 else |x| + 1
  }

  /** The length of the shortest topic that a pattern describes. */
  function Least(p: seq<Token>): (n: nat)
    ensures p != [] ==> n > 0
  {
    if p == [] then 0
    else if |p| == 1 then if IsWildcard(p[0]) || p[0] == "" then 1 else |p[0]|
    else LevelCost(p[0]) + Least(p[1..])
  }

  lemma {:induction false} PeelsLength(p: seq<Token>, t: seq<Token>)
    requires Peels(p, t)
    ensures Least(p) <= Length(t) && (p != [] ==> t != [])
    decreases |p|
  {
    if p == [] {
    } else if p[0] == STAR {
      var k :| (if |p| == 1 then 1 else 0) <= k <= |t| && Peels(p[1..], t[k..]);
      PeelsLength(p[1..], t[k..]);
      LengthSuffix(t, k);
    } else {
      PeelsLength(p[1..], t[1..]);
    }
  }

  lemma {:induction false} InstanceLength(p: seq<Token>)
    ensures Length(Instance(p, "")) == Least(p) && (p != [] ==> Instance(p, "") != [])
  {
    if p == [] {
    } else {
      InstanceLength(p[1..]);
      assert |p| == 1 ==> Instance(p[1..], "") == [];
    }
  }

  lemma InstanceMatches(p: seq<Token>)
    requires SlashFree(p)
    ensures Peels(p, Instance(p, "")) && Plain(Instance(p, ""))
  {
    assert [""][0] == "";
    InstancePeels(p, "");
  }

  /** Made of tokens of the pattern, `z` and empty levels. */
  ghost predicate Fills(t: seq<Token>, p: seq<Token>, z: Token) {
    forall x :: x in t ==> x in p || x == z || x == ""
  }

  lemma {:induction false} InstanceFills(q: seq<Token>, p: seq<Token>, z: Token)
    requires forall x :: x in q ==> x in p
    ensures Fills(Instance(q, ""), p, z)
  {
    if q == [] {
    } else {
      assert q[0] in q && forall x :: x in q[1..] ==> x in q;
      InstanceFills(q[1..], p, z);
    }
  }

  // ----- one level more, and the match is lost

  /**
   Some match of the pattern, at most `extra` longer than the shortest, is lost when the
   level `y` is put before it.
   */
  predicate Apart(y: Token, p: seq<Token>, extra: nat, z: Token)
    decreases |p|
  {
    if p == [] then true
    else if p[0] == STAR then false
    else if p[0] == PLUS then Apart("", p[1..], extra, z) || (extra > 0 && Apart(z, p[1..], extra - 1, z))
    else y != p[0] || Apart(y, p[1..], extra, z)
  }

  lemma ApartFresh(y: Token, p: seq<Token>, extra: nat, z: Token)
    requires Apart(y, p, extra, z) && z !in p
    ensures Apart(z, p, extra, z)
  {
    if p == [] {
    } else {
      assert p[0] in p;
    }
  }

  lemma ApartPlus(y: Token, p: seq<Token>, z: Token)
    requires p != [] && p[0] == PLUS
    ensures Apart(y, p, 1, z) <==> Apart("", p[1..], 1, z) || Apart(z, p[1..], 0, z)
  {
  }

  lemma ApartLiteral(p: seq<Token>, z: Token)
    requires p != [] && !IsWildcard(p[0]) && p[0] != z
    ensures Apart(z, p, 0, z)
  {
  }

  lemma NothingApart(l: Token, z: Token)
    ensures Apart(l, [], 0, z) && Apart(l, [], 1, z)
  {
  }

  /** Past some '+' before a literal or the end, one extra letter is enough. */
  lemma {:induction false} ApartByOne(y: Token, p: seq<Token>, z: Token)
    requires p != [] && p[0] == PLUS && (SkipPluses(p) == [] || SkipPluses(p)[0] != STAR) && z !in p
    ensures Apart(y, p, 1, z)
    decreases |p|
  {
    var q := p[1..];
    assert SkipPluses(p) == SkipPluses(q);
    if q == [] {
      NothingApart("", z);
      ApartPlus(y, p, z);
    } else if q[0] == PLUS {
      assert z !in q by { assert forall x :: x in q ==> x in p; }
      ApartByOne("", q, z);
      ApartPlus(y, p, z);
    } else {
      assert SkipPluses(q) == q;
      assert q[0] == p[1] && q[0] in p;
      ApartLiteral(q, z);
      ApartPlus(y, p, z);
    }
  }

  /** Which matches are lost, seen from the topic. */
  lemma {:induction false} LostApart(y: Token, p: seq<Token>, t: seq<Token>, extra: nat, z: Token)
    requires Peels(p, t) && !Peels(p, [y] + t) && extra <= 1
    requires Length(t) <= Least(p) + extra && z !in p
    ensures Apart(y, p, extra, z)
    decreases |p|
  {
    var s := [y] + t;
    if p == [] {
    } else if p[0] == STAR {
      assert s[1..] == t;
      StarAbsorbs(p, s, 1);
    } else {
      var q, c, r := p[1..], t[0], t[1..];
      assert z !in q by { assert forall x :: x in q ==> x in p; }
      assert s[1..] == t && t == [c] + r;
      PeelsLength(q, r);
      if q != [] {
        if p[0] != PLUS {
          if y == p[0] { LostApart(c, q, r, extra, z); }
        } else if c == "" {
          LostApart("", q, r, extra, z);
        } else {
          LostApart(c, q, r, extra - |c|, z);
          ApartFresh(c, q, extra - |c|, z);
        }
      }
    }
  }

  /** The match that is lost. */
  lemma {:induction false} ApartLoses(y: Token, p: seq<Token>, extra: nat, z: Token) returns (t: seq<Token>)
    requires Apart(y, p, extra, z) && SlashFree(p) && Plain([z]) && |z| == 1
    ensures Peels(p, t) && !Peels(p, [y] + t) && Length(t) <= Least(p) + extra
    ensures Plain(t) && Fills(t, p, z)
    decreases |p|
  {
    assert [""][0] == "" && [z][0] == z;
    if p == [] {
      t := [];
    } else {
      var q := p[1..];
      assert SlashFree(q);
      if p[0] != PLUS && y != p[0] {
        t := Instance(p, "");
        InstanceMatches(p);
        InstanceLength(p);
        InstanceFills(p, p, z);
      } else {
        var c := p[0];
        var left := extra;
        if p[0] == PLUS {
          c := if Apart("", q, extra, z) then "" else z;
          left := extra - |c|;
        }
        var r := ApartLoses(c, q, left, z);
        t := [c] + r;
        assert ([y] + t)[1..] == t && t[1..] == r;
        PeelsLength(q, r);
        PlainConcat([c], r);
        assert p[0] in p && forall x :: x in q ==> x in p;
      }
    }
  }

  /** Empty levels in front lose no match where one level more never does. */
  lemma {:induction false} EmptiesAbsorbed(p: seq<Token>, t: seq<Token>, k: nat, z: Token)
    requires !Apart("", p, 1, z) && Peels(p, t) && z !in p
    ensures Peels(p, Repeat("", k) + t)
    decreases |p|
  {
    var s := Repeat("", k) + t;
    assert s[k..] == t;
    if SkipPluses(p) != [] && SkipPluses(p)[0] == STAR {
      StarAbsorbs(p, s, k);
    } else if p[0] == PLUS {
      ApartByOne("", p, z);
    } else {
      assert z !in p[1..] by { assert forall x :: x in p[1..] ==> x in p; }
      EmptiesAbsorbed(p[1..], t[1..], k, z);
      assert s == [""] + (Repeat("", k) + t[1..]);
    }
  }

  // ----- which patterns miss a topic within `n` characters

  /**
   Behind a '*' stands the literal `l`, then `q`: a topic with `l` twice that is missed, the
   second `l` right behind the first, or behind one level that cannot begin a match of `q`.
   */
  predicate TwiceFits(l: Token, q: seq<Token>, n: int, z: Token) {
    var base := |l| + 1 + Least([l] + q);
    || (base <= n && Apart(l, q, 0, z))
    || (base + 1 <= n && Apart(l, q, 1, z))
    || (q != [] && !IsWildcard(q[0]) && base + (if q[0] == "" then 2 else 1) <= n)
  }

  predicate MissesWithin(p: seq<Token>, n: int, z: Token)
    decreases |p|
  {
    if p == [] then false
    else if p[0] != STAR then MissesWithin(p[1..], n - LevelCost(p[0]), z)
    else if |p| == 1 then false
    else if IsWildcard(p[1]) then Least(p) <= n
    else MissesWithin(p[2..], n - |p[1]| - 1, z) || TwiceFits(p[1], p[2..], n, z)
  }

  lemma {:induction false} MissesWithinMore(p: seq<Token>, m: int, n: int, z: Token)
    requires MissesWithin(p, m, z) && m <= n
    ensures MissesWithin(p, n, z)
    decreases |p|
  {
    if p[0] != STAR {
      MissesWithinMore(p[1..], m - LevelCost(p[0]), n - LevelCost(p[0]), z);
    } else if |p| > 1 && !IsWildcard(p[1]) && MissesWithin(p[2..], m - |p[1]| - 1, z) {
      MissesWithinMore(p[2..], m - |p[1]| - 1, n - |p[1]| - 1, z);
    }
  }

  // ----- no missed topic is shorter

  lemma {:induction false} LengthConcat(a: seq<Token>, b: seq<Token>)
    requires b != []
    ensures Length(a + b) >= |a| + Length(b)
    ensures (exists k :: 0 <= k < |a| && a[k] != "") ==> Length(a + b) >= |a| + 1 + Length(b)
  {
    if a == [] {
      assert a + b == b;
    } else {
      assert (a + b)[1..] == a[1..] + b;
      LengthConcat(a[1..], b);
      if a[0] == "" && exists k :: 0 <= k < |a| && a[k] != "" {
        var k :| 0 <= k < |a| && a[k] != "";
        assert a[1..][k - 1] != "";
      }
    }
  }

  lemma BaseLength(l: Token, q: seq<Token>, t: seq<Token>)
    requires Peels(q, t)
    ensures Least([l] + q) <= Length([l] + t)
    ensures q != [] ==> Least([l] + q) + Length(t) - Least(q) <= Length([l] + t)
  {
    PeelsLength(q, t);
    assert ([l] + t)[1..] == t && ([l] + q)[1..] == q;
    if q == [] {
      assert [l] + t == [l] && [l] + q == [l];
    }
  }

  lemma OneLevelLost(l: Token, q: seq<Token>, t: seq<Token>, n: int, z: Token)
    requires q != [] && (SkipPluses(q) == [] || SkipPluses(q)[0] != STAR)
    requires Peels(q, t) && !Peels(q, [l] + t) && z !in q
    requires |l| + 1 + Length([l] + t) <= n
    ensures TwiceFits(l, q, n, z)
  {
    PeelsLength(q, t);
    BaseLength(l, q, t);
    if Length(t) <= Least(q) + 1 {
      LostApart(l, q, t, Length(t) - Least(q), z);
    } else if q[0] == PLUS {
      ApartByOne(l, q, z);
    }
    hide Apart, Peels, Least, Length;
  }

  lemma SomeNotEmpty(q: seq<Token>, b: seq<Token>, t: seq<Token>, z: Token)
    requires Peels(q, t) && !Peels(q, b + [""] + t) && !Apart("", q, 1, z) && z !in q
    ensures exists k :: 0 <= k < |b| && b[k] != ""
  {
    if forall k :: 0 <= k < |b| ==> b[k] == "" {
      EmptiesAbsorbed(q, t, |b| + 1, z);
      assert b + [""] == Repeat("", |b| + 1);
    }
  }

  lemma BehindLiteral(l: Token, q: seq<Token>, b: seq<Token>, t: seq<Token>, n: int, z: Token)
    requires q != [] && !IsWildcard(q[0]) && b != []
    requires Peels(q, t) && !Peels(q, b + [l] + t) && z !in q
    requires |l| + 1 + Length(b + ([l] + t)) <= n
    ensures TwiceFits(l, q, n, z)
  {
    BaseLength(l, q, t);
    LengthConcat(b, [l] + t);
    if q[0] == "" && l == "" && !Apart("", q, 1, z) {
      SomeNotEmpty(q, b, t, z);
    }
    hide Apart, Peels, Least, Length;
  }

  lemma FitsApart(l: Token, q: seq<Token>, extra: nat, n: int, z: Token)
    requires extra <= 1 && |l| + 1 + Least([l] + q) + extra <= n && Apart(l, q, extra, z)
    ensures TwiceFits(l, q, n, z)
  {
  }

  /** A pattern that begins with neither a '+' nor, past any '+', a '*' begins with a literal. */
  lemma NoWildcard(q: seq<Token>)
    requires q != [] && q[0] != PLUS && (SkipPluses(q) == [] || SkipPluses(q)[0] != STAR)
    ensures !IsWildcard(q[0])
  {
  }

  /** The rest behind the first literal does not match, but the rest behind a later one does. */
  lemma SecondLiteral(l: Token, q: seq<Token>, b: seq<Token>, t: seq<Token>, n: int, z: Token)
    requires Peels(q, t) && !Peels(q, b + [l] + t) && z !in q
    requires |l| + 1 + Length(b + [l] + t) <= n
    ensures TwiceFits(l, q, n, z)
  {
    hide *;
    var d := b + [l] + t;
    assert d == b + ([l] + t) && d[|b| + 1..] == t;
    BaseLength(l, q, t);
    LengthConcat(b, [l] + t);
    if SkipPluses(q) != [] && SkipPluses(q)[0] == STAR {
      StarAbsorbs(q, d, |b| + 1);
    } else if q == [] {
      NothingApart(l, z);
      FitsApart(l, q, 0, n, z);
    } else if b == [] {
      assert d == [l] + t;
      OneLevelLost(l, q, t, n, z);
    } else if q[0] == PLUS {
      ApartByOne(l, q, z);
      FitsApart(l, q, 1, n, z);
    } else {
      NoWildcard(q);
      BehindLiteral(l, q, b, t, n, z);
    }
  }

  lemma {:induction false} MissedBehindLiteral(p: seq<Token>, t: seq<Token>, n: int, z: Token)
    requires |p| > 1 && p[0] == STAR && !IsWildcard(p[1])
    requires Peels(p, t) && !Greedy(p, t) && Length(t) <= n && z !in p
    ensures MissesWithin(p, n, z)
    decreases |p|, 0
  {
    hide *;
    var l, q := p[1], p[2..];
    assert z !in q by { assert forall x :: x in q ==> x in p; }
    var j, k := TwoLiterals(p, t);
    var d := t[j + 1..];
    if Peels(q, d) {
      NotAtEnd(q, d);
      LengthSuffix(t, j + 1);
      MissedIsLong(q, d, n - |l| - 1, z);
    } else {
      assert j < k;
      var b := t[j + 1..k];
      assert d == b + [l] + t[k + 1..];
      LengthSuffix(t, j + 1);
      SecondLiteral(l, q, b, t[k + 1..], n, z);
    }
    LiteralWithin(p, n, z);
  }

  /** Whatever a pattern misses is at least as long as the recursion says. */
  lemma {:induction false} MissedIsLong(p: seq<Token>, t: seq<Token>, n: int, z: Token)
    requires Peels(p, t) && !Greedy(p, t) && Length(t) <= n && z !in p
    ensures MissesWithin(p, n, z)
    decreases |p|
  {
    PeelsLength(p, t);
    if p == [] {
    } else if p[0] != STAR {
      var q := p[1..];
      assert z !in q by { assert forall x :: x in q ==> x in p; }
      PeelsLength(q, t[1..]);
      assert q != [];
      MissedIsLong(q, t[1..], n - LevelCost(p[0]), z);
    } else if |p| > 1 && !IsWildcard(p[1]) {
      MissedBehindLiteral(p, t, n, z);
    }
  }

  /** The first literal, where the search stops, and one behind which the rest matches. */
  lemma TwoLiterals(p: seq<Token>, t: seq<Token>) returns (j: nat, k: nat)
    requires |p| > 1 && p[0] == STAR && !IsWildcard(p[1]) && Peels(p, t)
    ensures j <= k < |t| && t[j] == t[k] == p[1]
    ensures Peels(p[2..], t[k + 1..]) && Greedy(p, t) == Greedy(p[2..], t[j + 1..])
  {
    k :| 0 <= k <= |t| && Peels(p[1..], t[k..]);
    assert Peels(p[1..][1..], t[k..][1..]) && t[k..][0] == p[1..][0];
    hide Peels;
    j := FindFrom(t, p[1], 0);
    assert p[1..][0] == p[1] && p[1..][1..] == p[2..];
    assert t[k..][1..] == t[k + 1..] && t[k..][0] == t[k];
  }

  lemma NotAtEnd(q: seq<Token>, t: seq<Token>)
    requires Peels(q, t) && !Greedy(q, t)
    ensures q != [] && t != []
  {
    PeelsLength(q, t);
  }

  lemma LiteralWithin(p: seq<Token>, n: int, z: Token)
    requires |p| > 1 && p[0] == STAR && !IsWildcard(p[1])
    requires MissesWithin(p[2..], n - |p[1]| - 1, z) || TwiceFits(p[1], p[2..], n, z)
    ensures MissesWithin(p, n, z)
  {
  }

  // ----- a missed topic of that length

  /** A topic of the pattern that the search rejects, within `n` characters. */
  ghost predicate Missed(p: seq<Token>, t: seq<Token>, n: int, z: Token) {
    && Peels(p, t) && !Greedy(p, t) && Length(t) <= n
    && Plain(t) && Fills(t, p, z)
  }

  /** The search stops at the first `l`, and the rest behind it is no match. */
  lemma TwiceMissed(p: seq<Token>, b: seq<Token>, t: seq<Token>, n: int, z: Token)
    requires |p| > 1 && p[0] == STAR && !IsWildcard(p[1]) && SlashFree(p)
    requires Peels(p[2..], t) && !Peels(p[2..], b + [p[1]] + t)
    requires Plain(b) && Plain(t) && Fills(b, p, z) && Fills(t, p, z)
    requires Length([p[1]] + (b + [p[1]] + t)) <= n
    ensures Missed(p, [p[1]] + (b + [p[1]] + t), n, z)
  {
    var l, q := p[1], p[2..];
    var d := b + [l] + t;
    var s := [l] + d;
    assert p[1..][1..] == q && s[|b| + 1..] == [l] + t && ([l] + t)[1..] == t && s[1..] == d;
    assert Peels(p[1..], s[|b| + 1..]);
    assert FindFrom(s, l, 0) == 0;
    if Greedy(q, d) { GreedyPeels(q, d); }
    assert p[1] in p;
    PlainConcat(b, [l]);
    PlainConcat(b + [l], t);
    PlainConcat([l], d);
  }

  /** The two literals side by side. */
  lemma ApartMissed(p: seq<Token>, extra: nat, n: int, z: Token) returns (t: seq<Token>)
    requires |p| > 1 && p[0] == STAR && !IsWildcard(p[1]) && SlashFree(p)
    requires Plain([z]) && |z| == 1
    requires |p[1]| + 1 + Least([p[1]] + p[2..]) + extra <= n && Apart(p[1], p[2..], extra, z)
    ensures Missed(p, t, n, z)
  {
    var l, q := p[1], p[2..];
    var r := ApartLoses(l, q, extra, z);
    assert forall x :: x in q ==> x in p;
    assert [] + [l] + r == [l] + r && ([l] + r)[1..] == r && ([l] + q)[1..] == q;
    assert Length([l] + r) <= Least([l] + q) + extra by {
      PeelsLength(q, r);
      if q == [] { assert Length(r) <= 0; assert [l] + r == [l] && [l] + q == [l]; }
    }
    assert ([l] + ([l] + r))[1..] == [l] + r;
    t := [l] + ([] + [l] + r);
    TwiceMissed(p, [], r, n, z);
  }

  /** The two literals with a level between them at which the rest of the pattern cannot begin. */
  lemma BetweenMissed(p: seq<Token>, n: int, z: Token) returns (t: seq<Token>)
    requires |p| > 2 && p[0] == STAR && !IsWildcard(p[1]) && !IsWildcard(p[2]) && SlashFree(p)
    requires Plain([z]) && |z| == 1
    requires |p[1]| + 1 + Least([p[1]] + p[2..]) + (if p[2] == "" then 2 else 1) <= n
    ensures Missed(p, t, n, z)
  {
    var l, q := p[1], p[2..];
    var y := if p[2] == "" then z else "";
    var r := Instance(q, "");
    assert [""][0] == "" && [y][0] == y && q[0] == p[2];
    InstanceMatches(q);
    InstanceLength(q);
    assert forall x :: x in q ==> x in p;
    InstanceFills(q, p, z);
    var d := [y] + [l] + r;
    assert d[0] == y;
    t := [l] + d;
    assert t[1..] == d && d[1..] == [l] + r && ([l] + r)[1..] == r && ([l] + q)[1..] == q;
    assert Length([l] + r) == Least([l] + q);
    assert Length(d) == |y| + 1 + Length([l] + r) && Length(t) == |l| + 1 + Length(d);
    TwiceMissed(p, [y], r, n, z);
  }

  /** One level in front of a pattern and of what it misses. */
  lemma MissedCons(p: seq<Token>, t: seq<Token>, n: int, z: Token) returns (s: seq<Token>)
    requires p != [] && p[0] != STAR && SlashFree(p)
    requires Missed(p[1..], t, n - LevelCost(p[0]), z)
    ensures Missed(p, s, n, z)
  {
    var y := if p[0] == PLUS then "" else p[0];
    s := [y] + t;
    assert s[1..] == t && [""][0] == "" && p[0] in p && forall x :: x in p[1..] ==> x in p;
    PlainConcat([y], t);
  }

  lemma MissedStarred(p: seq<Token>, t: seq<Token>, n: int, z: Token) returns (s: seq<Token>)
    requires |p| > 1 && p[0] == STAR && !IsWildcard(p[1]) && SlashFree(p)
    requires Missed(p[2..], t, n - |p[1]| - 1, z)
    ensures Missed(p, s, n, z)
  {
    s := [p[1]] + t;
    assert s[1..] == t && s[0..] == s && p[1..][1..] == p[2..] && p[1] in p && forall x :: x in p[2..] ==> x in p;
    assert Peels(p[1..], s[0..]);
    assert FindFrom(s, p[1], 0) == 0;
    PlainConcat([p[1]], t);
  }

  /** No level of the shortest match is the wildcard that the search looks up. */
  lemma WildcardMissed(p: seq<Token>, n: int, z: Token) returns (t: seq<Token>)
    requires |p| > 1 && p[0] == STAR && IsWildcard(p[1]) && SlashFree(p) && Least(p) <= n
    ensures Missed(p, t, n, z)
  {
    var q := p[1..];
    t := Instance(q, "");
    InstanceMatches(q);
    InstanceLength(q);
    assert forall x :: x in q ==> x in p;
    InstanceFills(q, p, z);
    assert t[0..] == t;
    assert FindFrom(t, p[1], 0) == |t|;
  }

  /** What the recursion says is reached. */
  lemma {:induction false} ShortMissed(p: seq<Token>, n: int, z: Token) returns (t: seq<Token>)
    requires MissesWithin(p, n, z) && SlashFree(p) && Plain([z]) && |z| == 1
    ensures Missed(p, t, n, z)
    decreases |p|
  {
    if p[0] != STAR {
      var r := ShortMissed(p[1..], n - LevelCost(p[0]), z);
      t := MissedCons(p, r, n, z);
    } else if IsWildcard(p[1]) {
      t := WildcardMissed(p, n, z);
    } else if MissesWithin(p[2..], n - |p[1]| - 1, z) {
      var r := ShortMissed(p[2..], n - |p[1]| - 1, z);
      t := MissedStarred(p, r, n, z);
    } else {
      var base := |p[1]| + 1 + Least([p[1]] + p[2..]);
      assert TwiceFits(p[1], p[2..], n, z);
      if base <= n && Apart(p[1], p[2..], 0, z) {
        t := ApartMissed(p, 0, n, z);
      } else if base + 1 <= n && Apart(p[1], p[2..], 1, z) {
        t := ApartMissed(p, 1, n, z);
      } else {
        t := BetweenMissed(p, n, z);
      }
    }
  }

  /** `*` and one literal: the shortest missed topic is the literal twice. */
  lemma StarLiteralMisses(l: Token, n: int, z: Token)
    requires !IsWildcard(l)
    ensures MissesWithin([STAR, l], n, z) <==> |l| + 1 + (if l == "" then 1 else |l|) <= n
  {
    var p := [STAR, l];
    assert p[1..] == [l] && p[2..] == [] && [l] + [] == [l];
  }
}
