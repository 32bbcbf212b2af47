/**
 Topics are strings of levels separated by '/'.  The server cuts them into tokens with
 repeated `getline` calls, which has one quirk: a final '/' does not open another token.
 */
module Topics {

  type Token = string

  const DELIM: char := '/'

  /** The index of the first '/' at or after `from`, or |s| when there is none. */
  function NextDelim(s: string, from: nat): (r: nat)
    requires from <= |s|
    ensures from <= r <= |s|
    ensures DELIM !in s[from..r]
    ensures r < |s| ==> s[r] == DELIM
    decreases |s| - from
  {
    if from == |s| || s[from] == DELIM then from
    else
      var r := NextDelim(s, from + 1);
      assert s[from..r] == [s[from]] + s[from + 1..r];
      r
  }

  /** The token vector of a topic: what is left to read is cut at its first '/'. */
  function Tokenize(s: string): (tokens: seq<Token>)
    ensures forall k :: 0 <= k < |tokens| ==> DELIM !in tokens[k]
    decreases |s|
  {
    if s == "" then []
    else
      var end := NextDelim(s, 0);
      var first := s[0..end];
      if end == |s| then [first] else [first] + Tokenize(s[end + 1..])
  }

  /** Cutting at the first '/', or at the end of a text without one. */
  lemma TokenizeCut(s: string, end: nat)
    requires s != "" && end <= |s|
    requires DELIM !in s[..end] && (end < |s| ==> s[end] == DELIM)
    ensures Tokenize(s) == [s[..end]] + Tokenize(if end == |s| then "" else s[end + 1..])
  {
    var r := NextDelim(s, 0);
    assert forall k :: 0 <= k < end ==> s[k] in s[..end];
    assert forall k :: 0 <= k < r ==> s[k] in s[0..r];
  }

  /** The stringstream loop of the server: one `getline` per outer iteration. */
  method TokenizeTopic(topic: string) returns (tokens: seq<Token>)
    ensures tokens == Tokenize(topic)
  {
    tokens := [];
    var rest := topic;
    while rest != ""
      invariant tokens + Tokenize(rest) == Tokenize(topic)
      decreases |rest|
    {
      var end := 0;
      while end < |rest| && rest[end] != DELIM
        invariant end <= |rest|
        invariant DELIM !in rest[..end]
      {
        end := end + 1;
      }
      TokenizeCut(rest, end);
      tokens := tokens + [rest[..end]];
      rest := if end == |rest| then "" else rest[end + 1..];
    }
  }

  ghost predicate SlashFree(tokens: seq<Token>) {
    forall k :: 0 <= k < |tokens| ==> DELIM !in tokens[k]
  }

  /** Every token followed by its '/'. */
  function Terminated(tokens: seq<Token>): (s: string) {
    if tokens == [] then "" else tokens[0] + [DELIM] + Terminated(tokens[1..])
  }

  lemma {:induction false} TerminatedConcat(a: seq<Token>, b: seq<Token>)
    ensures Terminated(a + b) == Terminated(a) + Terminated(b)
  {
    if a == [] {
      assert a + b == b;
    } else {
      assert (a + b)[1..] == a[1..] + b;
      TerminatedConcat(a[1..], b);
    }
  }

  /** A topic with the missing final '/' appended; the empty topic stays empty. */
  function Normal(s: string): string {
    if s == "" || s[|s| - 1] == DELIM then s else s + [DELIM]
  }

  /** Tokens joined by single '/', none after the last one. */
  function Joined(tokens: seq<Token>): string {
    if tokens == [] then ""
    else if |tokens| == 1 then tokens[0]
    else tokens[0] + [DELIM] + Joined(tokens[1..])
  }

  lemma NormalCut(first: string, rest: string)
    ensures Normal(first + [DELIM] + rest) == first + [DELIM] + Normal(rest)
  {
    var s := first + [DELIM] + rest;
    if rest != "" {
      assert s[|s| - 1] == rest[|rest| - 1];
    }
  }

  /** Putting the '/' back after every token restores the topic up to its final '/'. */
  lemma {:induction false} TerminatedTokenize(s: string)
    ensures Terminated(Tokenize(s)) == Normal(s)
    decreases |s|
  {
    if s == "" {
    } else {
      var end := NextDelim(s, 0);
      if end == |s| {
        assert s[0..end] == s && s[|s| - 1] in s[0..end];
        assert Terminated([s]) == s + [DELIM] + Terminated([]);
      } else {
        var first, rest := s[0..end], s[end + 1..];
        TerminatedTokenize(rest);
        assert ([first] + Tokenize(rest))[1..] == Tokenize(rest);
        NormalCut(first, rest);
        assert s == first + [DELIM] + rest;
      }
    }
  }

  lemma {:induction false} TerminatedJoined(tokens: seq<Token>)
    requires tokens != []
    ensures Terminated(tokens) == Joined(tokens) + [DELIM]
  {
    if |tokens| == 1 {
    } else {
      TerminatedJoined(tokens[1..]);
    }
  }

  /** The inverse of the tokenizer: join with '/' and restore the final '/' if there was one. */
  lemma JoinRestoresTopic(s: string)
    ensures s == Joined(Tokenize(s)) + (if s != "" && s[|s| - 1] == DELIM then [DELIM] else "")
  {
    TerminatedTokenize(s);
    if s != "" {
      var joined := Joined(Tokenize(s));
      TerminatedJoined(Tokenize(s));
      assert Normal(s) == joined + [DELIM];
      assert (joined + [DELIM])[..|joined|] == joined;
    }
  }

  /** Tokenizing slash-terminated slash-free tokens gives them back. */
  lemma {:induction false} TokenizeTerminated(tokens: seq<Token>)
    requires SlashFree(tokens)
    ensures Tokenize(Terminated(tokens)) == tokens
  {
    if tokens == [] {
    } else {
      var s := Terminated(tokens);
      var end := |tokens[0]|;
      assert s[..end] == tokens[0] && s[end] == DELIM;
      TokenizeCut(s, end);
      assert s[end + 1..] == Terminated(tokens[1..]);
      TokenizeTerminated(tokens[1..]);
    }
  }

  /** Two topics have the same tokens exactly when they agree up to a missing final '/'. */
  lemma TokenizeKernel(a: string, b: string)
    ensures Tokenize(a) == Tokenize(b) <==> Normal(a) == Normal(b)
  {
    TerminatedTokenize(a);
    TerminatedTokenize(b);
    TokenizeTerminated(Tokenize(a));
    TokenizeTerminated(Tokenize(b));
  }
}
