/** The delete-confirmation tokens (mcp/internal/tools/tokens.go). */
module Tokens {
  import opened Wrappers

  /** Five minutes, in the clock's nanoseconds. */
  const TOKEN_TTL := 300_000_000_000

  datatype Entry = Entry(token: string, expires: int)

  /** One call that reached the store; `at` is the clock it read. */
  datatype Call = Issue(name: string, token: string, at: int) | Verify(name: string, token: string, at: int)

  /** The table a call leaves and, for Verify, its answer. */
  function Next(tokens: map<string, Entry>, c: Call): (map<string, Entry>, bool) {
    match c
    case Issue(name, token, at) => (tokens[name := Entry(token, at + TOKEN_TTL)], false)
    case Verify(name, token, at) =>
      if name !in tokens then (tokens, false)
      else if at > tokens[name].expires then (tokens - {name}, false)
      else if tokens[name].token == token then (tokens - {name}, true)
      else (tokens, false)
  }

  function After(calls: seq<Call>): map<string, Entry> {
    if calls == [] then map[] else Next(After(calls[..|calls| - 1]), calls[|calls| - 1]).0
  }

  class Store {
    var tokens: map<string, Entry>

    constructor ()
      ensures tokens == After([])
    {
      tokens := map[];
    }

    /** `random` is what the system's generator yields, None when it fails. */
    method Issue(name: string, random: Option<string>, now: int) returns (r: Result<string, string>)
      modifies this
      ensures random.None? ==> r.Failure? && tokens == old(tokens)
      ensures random.Some? ==>
                r == Success(random.value) && tokens == Next(old(tokens), Call.Issue(name, random.value, now)).0
    {
      if random.None? { return Failure("generating delete-confirmation token"); }
      tokens := tokens[name := Entry(random.value, now + TOKEN_TTL)];
      return Success(random.value);
    }

    method Verify(name: string, token: string, now: int) returns (ok: bool)
      modifies this
      ensures (tokens, ok) == Next(old(tokens), Call.Verify(name, token, now))
    {
      if name !in tokens { return false; }
      var entry := tokens[name];
      if now > entry.expires {
        tokens := tokens - {name};
        return false;
      }
      var matched := entry.token == token;
      if matched {
        tokens := tokens - {name};
      }
      return matched;
    }
  }

  /** Call n of a history is a Verify that returned true. */
  ghost predicate Accepted(calls: seq<Call>, n: nat) {
    n < |calls| && Next(After(calls[..n]), calls[n]).1
  }

  ghost predicate ClockRuns(calls: seq<Call>) {
    forall i, j :: 0 <= i < j < |calls| ==> calls[i].at <= calls[j].at
  }

  /** Call i is the latest Issue for the name among the first n. */
  ghost predicate LatestIssue(calls: seq<Call>, i: int, n: nat, name: string) {
    && 0 <= i < n <= |calls| && calls[i].Issue? && calls[i].name == name
    && forall j :: i < j < n && calls[j].Issue? ==> calls[j].name != name
  }

  /** Some Verify of the name was accepted after call i, among the first n. */
  ghost predicate Redeemed(calls: seq<Call>, i: int, n: nat, name: string) {
    exists j: nat :: i < j < n && Accepted(calls, j) && calls[j].name == name
  }

  ghost predicate PastExpiry(calls: seq<Call>, i: nat, n: nat)
    requires i < |calls|
  {
    exists j :: i < j < n && j < |calls| && calls[j].at > calls[i].at + TOKEN_TTL
  }

  /** What the table says about a name after n calls: an entry is the latest Issue, unredeemed;
      no entry means there was no Issue, or it was redeemed or seen expired. */
  ghost predicate Explains(calls: seq<Call>, n: nat, name: string)
    requires n <= |calls|
  {
    var tokens := After(calls[..n]);
    if name in tokens then
      exists i :: LatestIssue(calls, i, n, name) && tokens[name] == Entry(calls[i].token, calls[i].at + TOKEN_TTL)
                  && !Redeemed(calls, i, n, name)
    else
      forall i :: LatestIssue(calls, i, n, name) ==> Redeemed(calls, i, n, name) || PastExpiry(calls, i, n)
  }

  lemma LatestMoves(calls: seq<Call>, n: nat, name: string)
    requires 0 < n <= |calls|
    ensures var c := calls[n - 1];
            && (c.Issue? && c.name == name ==> forall i :: LatestIssue(calls, i, n, name) <==> i == n - 1)
            && (!(c.Issue? && c.name == name) ==>
                  forall i :: LatestIssue(calls, i, n, name) <==> LatestIssue(calls, i, n - 1, name))
  {}

  lemma RedeemedMoves(calls: seq<Call>, i: int, n: nat, name: string)
    requires i < n < |calls|
    ensures Redeemed(calls, i, n + 1, name) <==>
            Redeemed(calls, i, n, name) || (Accepted(calls, n) && calls[n].name == name)
  {
    if Accepted(calls, n) && calls[n].name == name { assert i < n < n + 1; }
  }

  lemma AfterOneMore(calls: seq<Call>, n: nat)
    requires n < |calls|
    ensures After(calls[..n + 1]) == Next(After(calls[..n]), calls[n]).0
  {
    assert calls[..n + 1][..n] == calls[..n];
  }

  lemma EntryExplained(calls: seq<Call>, n: nat, name: string, i: int)
    requires 0 < n <= |calls| && name in After(calls[..n - 1])
    requires LatestIssue(calls, i, n - 1, name) &&
             After(calls[..n - 1])[name] == Entry(calls[i].token, calls[i].at + TOKEN_TTL)
    requires !Redeemed(calls, i, n - 1, name)
    ensures Explains(calls, n, name)
  {
    AfterOneMore(calls, n - 1);
    LatestMoves(calls, n, name);
    RedeemedMoves(calls, i, n - 1, name);
    var c := calls[n - 1];
    if c.Issue? && c.name == name {
      assert LatestIssue(calls, n - 1, n, name) && !Redeemed(calls, n - 1, n, name);
    } else if name in After(calls[..n]) {
      assert LatestIssue(calls, i, n, name) && !Redeemed(calls, i, n, name);
    } else {
      forall k | LatestIssue(calls, k, n, name) ensures Redeemed(calls, k, n, name) || PastExpiry(calls, k, n) {
        assert k == i;
      }
    }
  }

  lemma NoEntryExplained(calls: seq<Call>, n: nat, name: string)
    requires 0 < n <= |calls| && name !in After(calls[..n - 1]) && Explains(calls, n - 1, name)
    ensures Explains(calls, n, name)
  {
    AfterOneMore(calls, n - 1);
    LatestMoves(calls, n, name);
    var c := calls[n - 1];
    if c.Issue? && c.name == name {
      assert LatestIssue(calls, n - 1, n, name) && !Redeemed(calls, n - 1, n, name);
    } else {
      forall i | LatestIssue(calls, i, n, name) ensures Redeemed(calls, i, n, name) || PastExpiry(calls, i, n) {
        assert LatestIssue(calls, i, n - 1, name);
      }
    }
  }

  /** The table forgets a name exactly for the reasons a caller can know. */
  lemma {:induction false} TableExplained(calls: seq<Call>, n: nat, name: string)
    requires n <= |calls| && ClockRuns(calls)
    ensures Explains(calls, n, name)
    decreases n
  {
    if n > 0 {
      TableExplained(calls, n - 1, name);
      AfterOneMore(calls, n - 1);
      LatestMoves(calls, n, name);
      var before := After(calls[..n - 1]);
      var c := calls[n - 1];
      if name in before {
        var i :| LatestIssue(calls, i, n - 1, name) && before[name] == Entry(calls[i].token, calls[i].at + TOKEN_TTL)
                 && !Redeemed(calls, i, n - 1, name);
        RedeemedMoves(calls, i, n - 1, name);
        EntryExplained(calls, n, name, i);
      } else {
        NoEntryExplained(calls, n, name);
      }
    } else {
      assert calls[..0] == [];
    }
  }

  ghost predicate Redeemable(calls: seq<Call>, i: int, n: nat)
    requires 0 <= i < n < |calls|
  {
    && calls[i].token == calls[n].token && calls[n].at <= calls[i].at + TOKEN_TTL
    && !Redeemed(calls, i, n, calls[n].name)
  }

  /** The gate, over any history with a clock that never runs backwards: a Verify is accepted
      exactly when its token is the one of the latest Issue for that name, the time to live has
      not passed, and no earlier Verify redeemed it. */
  lemma VerifyIff(calls: seq<Call>, n: nat)
    requires n < |calls| && calls[n].Verify? && ClockRuns(calls)
    ensures Accepted(calls, n) <==>
            exists i :: LatestIssue(calls, i, n, calls[n].name) && Redeemable(calls, i, n)
  {
    var name := calls[n].name;
    TableExplained(calls, n, name);
    var tokens := After(calls[..n]);
    if name in tokens {
      var i :| LatestIssue(calls, i, n, name) && tokens[name] == Entry(calls[i].token, calls[i].at + TOKEN_TTL) &&
        !Redeemed(calls, i, n, name);
      assert forall k :: LatestIssue(calls, k, n, name) ==> k == i;
      assert Accepted(calls, n) <==> Redeemable(calls, i, n);
    } else {
      forall i | LatestIssue(calls, i, n, name) ensures !Redeemable(calls, i, n) {
        if PastExpiry(calls, i, n) {
          var j :| i < j < n && calls[j].at > calls[i].at + TOKEN_TTL;
          assert calls[j].at <= calls[n].at;
        }
      }
    }
  }

  ghost predicate FreshTokens(calls: seq<Call>) {
    forall i, j :: 0 <= i < j < |calls| && calls[i].Issue? && calls[j].Issue? ==> calls[i].token != calls[j].token
  }

  lemma AcceptedHasIssue(calls: seq<Call>, n: nat) returns (i: nat)
    requires ClockRuns(calls) && Accepted(calls, n)
    ensures i < n && LatestIssue(calls, i, n, calls[n].name) && Redeemable(calls, i, n)
  {
    VerifyIff(calls, n);
    i :| LatestIssue(calls, i, n, calls[n].name) && Redeemable(calls, i, n);
  }

  /** Each issued token is redeemed at most once, and only for the name it was issued for. */
  lemma TokenRedeemsOnce(calls: seq<Call>, i: nat, m: nat)
    requires ClockRuns(calls) && FreshTokens(calls)
    requires i < |calls| && calls[i].Issue? && Accepted(calls, m) && calls[m].token == calls[i].token
    ensures i < m && calls[m].name == calls[i].name && calls[m].at <= calls[i].at + TOKEN_TTL
    ensures forall n: nat :: Accepted(calls, n) && calls[n].token == calls[i].token ==> n == m
  {
    var im := AcceptedHasIssue(calls, m);
    assert im == i;
    forall n: nat | Accepted(calls, n) && calls[n].token == calls[i].token ensures n == m {
      var k := AcceptedHasIssue(calls, n);
      assert k == i;
      assert !Redeemed(calls, i, n, calls[n].name) && !Redeemed(calls, i, m, calls[m].name);
    }
  }
}
