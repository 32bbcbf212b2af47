/**
 When a client wants a topic: the topic is one of its subscriptions, or one of them accepts
 it.  Which publications reach it by that test, and which it misses.
 */
module Interest {
  import opened Wire
  import opened Topics
  import opened Matching
  import opened LeftmostSearch
  import opened Completeness
  import opened ShortMisses
  import opened UdpPayload

  /** The loop over all subscriptions, wildcards or not. */
  ghost predicate Scanned(topics: map<string, seq<Token>>, topic: string) {
    exists key :: key in topics && Greedy(topics[key], Tokenize(topic))
  }

  /** The check of the fan-out: the topic itself first, then the scan. */
  ghost predicate Interested(topics: map<string, seq<Token>>, topic: string) {
    topic in topics || Scanned(topics, topic)
  }

  ghost predicate Tokenized(topics: map<string, seq<Token>>) {
    forall key :: key in topics ==> topics[key] == Tokenize(key)
  }

  // ----- lookup and scan

  /** The direct lookup only saves time, except for published topics with an even run of '*'. */
  lemma FastPath(topics: map<string, seq<Token>>, topic: string)
    requires Tokenized(topics)
    requires StarRunsOdd(Tokenize(topic))
    ensures Interested(topics, topic) <==> Scanned(topics, topic)
  {
    SelfMatch(Tokenize(topic));
  }

  /** The direct lookup never changes the answer for this topic, whatever the subscriptions are. */
  ghost predicate OnlyShortcut(topic: string) {
    forall topics :: Tokenized(topics) ==> (Interested(topics, topic) <==> Scanned(topics, topic))
  }

  /**
   The direct lookup is a pure shortcut exactly for the topics whose tokens accept themselves;
   these are the topics with odd runs of '*', the misaligned kind aside.
   */
  lemma FastPathExactly(topic: string)
    ensures OnlyShortcut(topic) <==> Greedy(Tokenize(topic), Tokenize(topic))
    ensures !Misaligned(Tokenize(topic)) ==> (OnlyShortcut(topic) <==> StarRunsOdd(Tokenize(topic)))
  {
    SelfMatch(Tokenize(topic));
    var topics := map[topic := Tokenize(topic)];
    assert Tokenized(topics) && Interested(topics, topic);
    assert Scanned(topics, topic) <==> Greedy(topics[topic], Tokenize(topic));
  }

  lemma FastPathNoAdjacentStars(topics: map<string, seq<Token>>, topic: string)
    requires Tokenized(topics) && NoAdjacentStars(Tokenize(topic))
    ensures Interested(topics, topic) <==> Scanned(topics, topic)
  {
    NoAdjacentStarsOdd(Tokenize(topic));
    FastPath(topics, topic);
  }

  /** A topic that only the direct lookup finds. */
  lemma FastPathExample()
    ensures var topics := map["*/*" := Tokenize("*/*")]; Interested(topics, "*/*") && !Scanned(topics, "*/*")
  {
    var topic, last := "*/*", "*";
    assert topic[..1] == last && topic[2..] == last && last[..1] == last;
    TokenizeCut(topic, 1);
    TokenizeCut(last, 1);
    var p := Tokenize(topic);
    assert p == ["*", "*"];
    assert FindFrom(p, STAR, 0) == 0;
    assert p[2..] == [] && p[1..] == ["*"];
  }

  // ----- delivery and the declarative relation

  /** Whoever gets a publication has a subscription that matches its topic, for all subscriptions and topics. */
  lemma InterestedSound(topics: map<string, seq<Token>>, topic: string)
    requires Tokenized(topics) && Interested(topics, topic)
    ensures exists key :: key in topics && Matches(Tokenize(key), Tokenize(topic))
  {
    if topic in topics {
      MatchesSelf(Tokenize(topic));
    } else {
      var key :| key in topics && Greedy(topics[key], Tokenize(topic));
      GreedySound(Tokenize(key), Tokenize(topic));
    }
  }

  /**
   Who gets a publication, without lookup and search: whoever has its topic as a subscription,
   or one that cuts the topic with each '*' going no further than to its anchor.
   */
  lemma InterestedExactly(topics: map<string, seq<Token>>, topic: string)
    requires Tokenized(topics)
    ensures Interested(topics, topic) <==>
            exists key :: key in topics && (key == topic || HasCut(Tokenize(key), Tokenize(topic)))
  {
    forall key | key in topics
      ensures Greedy(topics[key], Tokenize(topic)) <==> HasCut(Tokenize(key), Tokenize(topic))
    {
      SearchExactly(Tokenize(key), Tokenize(topic));
    }
    hide HasCut, Greedy;
  }

  /** Where no subscription can miss a topic, interest is the declarative relation. */
  lemma InterestedMatches(topics: map<string, seq<Token>>, topic: string)
    requires Tokenized(topics)
    requires forall key :: key in topics ==> NeverMisses(Tokenize(key))
    ensures Interested(topics, topic) <==>
            exists key :: key in topics && Matches(Tokenize(key), Tokenize(topic))
  {
    forall key | key in topics
      ensures Greedy(topics[key], Tokenize(topic)) <==> Matches(Tokenize(key), Tokenize(topic))
    {
      CompleteByExchange(Tokenize(key), Tokenize(topic));
    }
    if Interested(topics, topic) {
      InterestedSound(topics, topic);
    }
  }

  /** Alone, the subscription gets this topic. */
  ghost predicate GetsAlone(pattern: string, topic: string) {
    Interested(map[pattern := Tokenize(pattern)], topic)
  }

  lemma GetsAloneIff(pattern: string, topic: string)
    ensures GetsAlone(pattern, topic) <==> topic == pattern || Greedy(Tokenize(pattern), Tokenize(topic))
  {
    var topics := map[pattern := Tokenize(pattern)];
    assert Scanned(topics, topic) <==> Greedy(topics[pattern], Tokenize(topic));
  }

  /** A topic without wildcards that the search rejects is not delivered by the direct lookup either. */
  lemma PlainNotDelivered(pattern: string, topic: string)
    requires Plain(Tokenize(topic)) && !Greedy(Tokenize(pattern), Tokenize(topic))
    ensures !GetsAlone(pattern, topic)
  {
    GetsAloneIff(pattern, topic);
    if topic == pattern { GreedyLiteral(Tokenize(topic), Tokenize(topic)); }
  }

  lemma MissedNotDelivered(pattern: string, t: seq<Token>)
    requires Plain(t) && !Greedy(Tokenize(pattern), t)
    ensures Tokenize(Terminated(t)) == t && !GetsAlone(pattern, Terminated(t))
  {
    TokenizeTerminated(t);
    PlainNotDelivered(pattern, Terminated(t));
  }

  /**
   A subscription is delivered every topic that it matches, by lookup and scan together,
   exactly when its search misses nothing: decided by looking at the pattern alone.
   */
  lemma DeliveryCompleteExactly(pattern: string)
    ensures NeverMisses(Tokenize(pattern)) <==>
            (forall topic :: Matches(Tokenize(pattern), Tokenize(topic)) ==> GetsAlone(pattern, topic))
  {
    var p := Tokenize(pattern);
    if NeverMisses(p) {
      forall topic ensures Matches(p, Tokenize(topic)) ==> GetsAlone(pattern, topic) {
        CompleteByExchange(p, Tokenize(topic));
        GetsAloneIff(pattern, topic);
      }
    } else {
      var t := MissedTopic(p, FreshToken(p));
      MissedNotDelivered(pattern, t);
    }
  }

  // ----- topics that a datagram can carry

  lemma {:induction false} TokensAreText(s: string)
    requires IsText(s)
    ensures forall x :: x in Tokenize(s) ==> IsText(x)
    decreases |s|
  {
    if s == "" {
    } else {
      var end := NextDelim(s, 0);
      if end < |s| { TokensAreText(s[end + 1..]); }
    }
  }

  lemma {:induction false} TerminatedIsText(tokens: seq<Token>)
    requires forall x :: x in tokens ==> IsText(x)
    ensures IsText(Terminated(tokens)) && |tokens| <= |Terminated(tokens)|
  {
    if tokens == [] {
    } else {
      assert tokens[0] in tokens && forall x :: x in tokens[1..] ==> x in tokens;
      TerminatedIsText(tokens[1..]);
    }
  }

  /** The tokens of a subscription are few enough to leave a letter unused. */
  lemma FewTokens(pattern: string)
    requires IsText(pattern)
    ensures |Tokenize(pattern)| <= |pattern| + 1 && forall x :: x in Tokenize(pattern) ==> IsText(x)
  {
    TokensAreText(pattern);
    TerminatedIsText(Tokenize(pattern));
    TerminatedTokenize(pattern);
  }

  /** Some topic of at most `n` characters matches the subscription and is not delivered, as the pattern alone tells. */
  ghost predicate MissesUpTo(pattern: string, n: nat)
    requires Publishable(pattern)
  {
    FewTokens(pattern);
    var p := Tokenize(pattern);
    MissesWithin(p, n, FreshLetter(p))
  }

  lemma ShortestIsText(t: seq<Token>)
    requires forall x :: x in t ==> IsText(x)
    ensures IsText(Shortest(t))
  {
    TerminatedIsText(t);
    if t != [] {
      TerminatedJoined(t);
      assert forall k :: 0 <= k < |Joined(t)| ==> Joined(t)[k] == Terminated(t)[k];
    }
  }

  lemma SlashFreePlain(t: seq<Token>)
    requires Plain(t)
    ensures SlashFree(t)
  {
  }

  lemma MissedUpTo(pattern: string, n: nat) returns (topic: string)
    requires Publishable(pattern) && MissesUpTo(pattern, n)
    ensures |topic| <= n && IsText(topic)
    ensures Matches(Tokenize(pattern), Tokenize(topic)) && !GetsAlone(pattern, topic)
  {
    FewTokens(pattern);
    var p := Tokenize(pattern);
    var z := FreshLetter(p);
    assert IsText(z) && [z][0] == z;
    var t := ShortMissed(p, n, z);
    assert Peels(p, t) && !Greedy(p, t) && Plain(t) && Length(t) <= n;
    assert forall x :: x in t ==> IsText(x);
    topic := Shortest(t);
    hide *;
    SlashFreePlain(t);
    ShortestHasLength(t);
    MatchesPeels(p, t);
    ShortestIsText(t);
    PlainNotDelivered(pattern, topic);
  }

  /**
   For every length: a subscription is delivered every topic of at most `n` characters that it
   matches exactly when the recursion over its pattern finds none within `n`.
   */
  lemma UpToExactly(pattern: string, n: nat)
    requires Publishable(pattern)
    ensures !MissesUpTo(pattern, n) <==>
            (forall topic :: |topic| <= n && IsText(topic) && Matches(Tokenize(pattern), Tokenize(topic)) ==>
                             GetsAlone(pattern, topic))
  {
    var p := Tokenize(pattern);
    if MissesUpTo(pattern, n) {
      var topic := MissedUpTo(pattern, n);
    } else {
      FewTokens(pattern);
      forall topic | |topic| <= n && Matches(p, Tokenize(topic)) ensures GetsAlone(pattern, topic) {
        GetsAloneIff(pattern, topic);
        MatchesPeels(p, Tokenize(topic));
        LengthLeast(topic);
        if !Greedy(p, Tokenize(topic)) {
          MissedIsLong(p, Tokenize(topic), n, FreshLetter(p));
        }
      }
    }
  }

  /** The subscriptions that are delivered every topic that they match and that a datagram can carry. */
  lemma PublishableCompleteExactly(pattern: string)
    requires Publishable(pattern)
    ensures !MissesUpTo(pattern, 50) <==>
            (forall topic :: Publishable(topic) && Matches(Tokenize(pattern), Tokenize(topic)) ==>
                             GetsAlone(pattern, topic))
  {
    UpToExactly(pattern, 50);
  }

  /** A short subscription outside the class misses a topic that a datagram can carry. */
  lemma MissedPublishable(pattern: string) returns (topic: string)
    requires |pattern| <= 25 && IsText(pattern) && !NeverMisses(Tokenize(pattern))
    ensures Publishable(topic)
    ensures Matches(Tokenize(pattern), Tokenize(topic)) && !GetsAlone(pattern, topic)
  {
    var p := Tokenize(pattern);
    TokensAreText(pattern);
    TerminatedIsText(p);
    TerminatedTokenize(pattern);
    var z := FreshLetter(p);
    var t := MissedTopic(p, z);
    topic := Terminated(t);
    assert IsText(z);
    TerminatedIsText(t);
    MissedNotDelivered(pattern, t);
  }

  /** For subscriptions of up to 25 bytes these are the same as those that miss nothing at all. */
  lemma ShortCompleteExactly(pattern: string)
    requires |pattern| <= 25 && IsText(pattern)
    ensures NeverMisses(Tokenize(pattern)) <==> !MissesUpTo(pattern, 50)
    ensures NeverMisses(Tokenize(pattern)) <==>
            (forall topic :: Publishable(topic) && Matches(Tokenize(pattern), Tokenize(topic)) ==>
                             GetsAlone(pattern, topic))
  {
    PublishableCompleteExactly(pattern);
    if NeverMisses(Tokenize(pattern)) {
      DeliveryCompleteExactly(pattern);
    } else {
      var topic := MissedPublishable(pattern);
    }
  }
}
