// Error classification and the retry budget that the connect, authenticate
// and create-tunnel loops share.
module Retry {
  import opened Wrappers
  import opened Durations

  /** An error of the relay protocol, or any other error with its text. */
  datatype GoError =
    | Relay(code: string, message: string, retry: bool, delay: int)
    | Plain(text: string)

  predicate IsRetryable(code: string) {
    code in {"rate_limit_exceeded", "server_unavailable", "heartbeat_failed", "connection_timeout",
             "data_transfer_failed"}
  }

  function RetryDelay(code: string): int {
    match code
    case "rate_limit_exceeded" => 5 * SECOND
    case "server_unavailable" => 10 * SECOND
    case "heartbeat_failed" => 2 * SECOND
    case "connection_timeout" => 3 * SECOND
    case "data_transfer_failed" => 1 * SECOND
    case _ => SECOND
  }

  function NewRelayError(code: string, message: string): GoError {
    Relay(code, message, IsRetryable(code), RetryDelay(code))
  }

  ghost predicate Occurs(s: string, sub: string) {
    exists i :: OccursAt(s, sub, i)
  }

  predicate OccursAt(s: string, sub: string, i: int) {
    0 <= i <= |s| - |sub| && s[i..i + |sub|] == sub
  }

  /** To occur is to be in between two parts of the text. */
  lemma OccursExactly(s: string, sub: string)
    ensures Occurs(s, sub) <==> exists before: string, after: string :: s == before + sub + after
  {
    if i :| OccursAt(s, sub, i) {
      assert s == s[..i] + sub + s[i + |sub|..];
    }
    if before: string, after: string :| s == before + sub + after {
      assert OccursAt(s, sub, |before|);
    }
  }

  /** The source's own substring test: the ends first, then every position. */
  method Contains(s: string, sub: string) returns (found: bool)
    ensures found <==> Occurs(s, sub)
  {
    if |s| < |sub| {
      return false;
    }
    if s == sub {
      assert OccursAt(s, sub, 0);
      return true;
    }
    if |s| == |sub| {
      assert s[0..|sub|] == s;
      return false;
    }
    if s[..|sub|] == sub {
      assert OccursAt(s, sub, 0);
      return true;
    }
    if s[|s| - |sub|..] == sub {
      assert s[|s| - |sub|..|s|] == s[|s| - |sub|..];
      assert OccursAt(s, sub, |s| - |sub|);
      return true;
    }
    for i := 1 to |s| - |sub| + 1
      invariant forall j :: 0 <= j < i ==> !OccursAt(s, sub, j)
    {
      if s[i..i + |sub|] == sub {
        assert OccursAt(s, sub, i);
        return true;
      }
    }
    found := false;
  }

  /** How an error is classified: by its own code, or by the first known text it contains. */
  ghost function Classified(e: GoError): GoError {
    if e.Relay? then e
    else if Occurs(e.text, "invalid token") then NewRelayError("invalid_token", "Invalid or expired JWT token")
    else if Occurs(e.text, "rate limit") then NewRelayError("rate_limit_exceeded", "Rate limit exceeded")
    else if Occurs(e.text, "connection limit") then
      NewRelayError("connection_limit_reached", "Connection limit reached")
    else if Occurs(e.text, "server unavailable") then NewRelayError("server_unavailable", "Server unavailable")
    else if Occurs(e.text, "tls") then NewRelayError("tls_handshake_failed", "TLS handshake failed")
    else NewRelayError("unknown_message_type", "Unknown error: " + e.text)
  }

  method HandleError(e: GoError) returns (r: GoError)
    ensures r == Classified(e) && r.Relay?
  {
    if e.Relay? {
      return e;
    }
    var found := Contains(e.text, "invalid token");
    if found {
      return NewRelayError("invalid_token", "Invalid or expired JWT token");
    }
    found := Contains(e.text, "rate limit");
    if found {
      return NewRelayError("rate_limit_exceeded", "Rate limit exceeded");
    }
    found := Contains(e.text, "connection limit");
    if found {
      return NewRelayError("connection_limit_reached", "Connection limit reached");
    }
    found := Contains(e.text, "server unavailable");
    if found {
      return NewRelayError("server_unavailable", "Server unavailable");
    }
    found := Contains(e.text, "tls");
    if found {
      return NewRelayError("tls_handshake_failed", "TLS handshake failed");
    }
    r := NewRelayError("unknown_message_type", "Unknown error: " + e.text);
  }

  // ----- The strategy -----

  function ScaledDelay(delay: int, multiplier: real, round: int): int {
    Trunc((delay as real) * multiplier * (round as real))
  }

  datatype Budget = Budget(maxRetries: int, multiplier: real, maxBackoff: int, current: int) {
    ghost predicate Retries(e: GoError) {
      current < maxRetries && Classified(e).retry
    }

    ghost function NextDelay(e: GoError): int {
      Min(ScaledDelay(Classified(e).delay, multiplier, current + 1), maxBackoff)
    }

    function Spent(): Budget {
      this.(current := current + 1)
    }

    function After(retries: nat): Budget {
      this.(current := current + retries)
    }

    function Left(): nat {
      if current < maxRetries then maxRetries - current else 0
    }
  }

  // ----- Which errors are worth a retry -----

  /**
   * A relay error says so itself; any other one is worth a retry exactly if
   * its text has a rate limit, or an unavailable server without a connection
   * limit, and no invalid token.
   */
  ghost predicate Transient(e: GoError) {
    match e
    case Relay(_, _, retry, _) => retry
    case Plain(text) =>
      && !Occurs(text, "invalid token")
      && (|| Occurs(text, "rate limit")
          || (!Occurs(text, "connection limit") && Occurs(text, "server unavailable")))
  }

  /** How long a retry pauses before scaling: a relay error says so itself, 5 s for a rate limit, 10 s for a server. */
  ghost function Pause(e: GoError): int {
    match e
    case Relay(_, _, _, delay) => delay
    case Plain(text) => if Occurs(text, "rate limit") then 5_000_000_000 else 10_000_000_000
  }

  /** The sleep before the given retry: the pause times the multiplier and the number of the retry, up to the cap. */
  ghost function Slept(b: Budget, e: GoError, retry: int): int {
    Min(Trunc((Pause(e) as real) * b.multiplier * (retry as real)), b.maxBackoff)
  }

  /** A retry is made exactly while the budget lasts and for errors worth one, after the sleep that belongs to it. */
  lemma RetriesExactly(b: Budget, e: GoError)
    ensures b.Retries(e) <==> b.current < b.maxRetries && Transient(e)
    ensures b.Retries(e) ==> b.NextDelay(e) == Slept(b, e, b.current + 1)
  {
  }

  /** The code an error without one gets, by the first known text it contains, and whether and when to try again. */
  lemma CodesExactly(text: string)
    ensures var r := Classified(Plain(text));
            var has := (t: string) => Occurs(text, t);
            && r.Relay? && r.retry == Transient(Plain(text))
            && r.code == (if has("invalid token") then "invalid_token"
                          else if has("rate limit") then "rate_limit_exceeded"
                          else if has("connection limit") then "connection_limit_reached"
                          else if has("server unavailable") then "server_unavailable"
                          else if has("tls") then "tls_handshake_failed"
                          else "unknown_message_type")
            && r.delay == (if has("invalid token") then 1_000_000_000
                           else if has("rate limit") then 5_000_000_000
                           else if !has("connection limit") && has("server unavailable") then 10_000_000_000
                           else 1_000_000_000)
  {
  }

  /** Relay errors made from a code: which are worth a retry, and after how many seconds. */
  lemma RelayCodesExactly(code: string, message: string)
    ensures var r := NewRelayError(code, message);
            var seconds := map["rate_limit_exceeded" := 5, "server_unavailable" := 10, "heartbeat_failed" := 2,
                               "connection_timeout" := 3, "data_transfer_failed" := 1];
            && r.code == code && r.message == message && (r.retry <==> code in seconds)
            && r.delay == (if code in seconds then seconds[code] else 1) * 1_000_000_000
  {
  }

  class RetryStrategy {
    const maxRetries: int
    const backoffMultiplier: real
    const maxBackoff: int
    var currentRetry: int

    constructor (maxRetries: int, backoffMultiplier: real, maxBackoff: int)
      ensures View() == Budget(maxRetries, backoffMultiplier, maxBackoff, 0)
    {
      this.maxRetries, this.backoffMultiplier, this.maxBackoff := maxRetries, backoffMultiplier, maxBackoff;
      currentRetry := 0;
    }

    function View(): Budget
      reads this
    {
      Budget(maxRetries, backoffMultiplier, maxBackoff, currentRetry)
    }

    method ShouldRetry(e: GoError) returns (yes: bool)
      ensures yes <==> View().Retries(e)
    {
      if currentRetry >= maxRetries {
        return false;
      }
      var r := HandleError(e);
      yes := r.retry;
    }

    method GetNextDelay(e: GoError) returns (delay: int)
      modifies this
      ensures delay == old(View()).NextDelay(e) && View() == old(View()).Spent()
    {
      var r := HandleError(e);
      delay := ScaledDelay(r.delay, backoffMultiplier, currentRetry + 1);
      if delay > maxBackoff {
        delay := maxBackoff;
      }
      currentRetry := currentRetry + 1;
    }

    method Reset()
      modifies this
      ensures View() == old(View()).(current := 0)
    {
      currentRetry := 0;
    }
  }

  // ----- The loops -----

  /** The k-th attempt of the whole session fails with `attempts(k)`, or succeeds. */
  type Attempts = nat -> Option<GoError>

  datatype Outcome = Outcome(result: Option<GoError>, next: nat, budget: Budget, sleeps: seq<int>)

  ghost function Loop(b: Budget, attempts: Attempts, k: nat): Outcome
    decreases b.Left()
  {
    match attempts(k)
    case None => Outcome(None, k + 1, b, [])
    case Some(e) =>
      if !b.Retries(e) then Outcome(Some(e), k + 1, b, [])
      else
        var o := Loop(b.Spent(), attempts, k + 1);
        o.(sleeps := [b.NextDelay(e)] + o.sleeps)
  }

  /** The shape of connectWithRetry, authenticateWithRetry and createTunnelWithRetry, from attempt k on. */
  method WithRetry(rs: RetryStrategy, attempts: Attempts, k: nat)
    returns (result: Option<GoError>, next: nat, sleeps: seq<int>)
    modifies rs
    ensures Outcome(result, next, rs.View(), sleeps) == Loop(old(rs.View()), attempts, k)
  {
    next := k;
    sleeps := [];
    while true
      invariant var o := Loop(rs.View(), attempts, next);
                o.(sleeps := sleeps + o.sleeps) == Loop(old(rs.View()), attempts, k)
      decreases rs.View().Left()
    {
      var err := attempts(next);
      next := next + 1;
      if err.None? {
        assert sleeps + [] == sleeps;
        return None, next, sleeps;
      }
      var again := rs.ShouldRetry(err.value);
      if !again {
        assert sleeps + [] == sleeps;
        return err, next, sleeps;
      }
      ghost var o := Loop(rs.View().Spent(), attempts, next);
      var delay := rs.GetNextDelay(err.value);
      assert sleeps + ([delay] + o.sleeps) == sleeps + [delay] + o.sleeps;
      sleeps := sleeps + [delay];
    }
  }

  /**
   * One loop makes one attempt more than the retries it takes from the
   * budget, sleeps once per retry and never longer than the cap, and gives up
   * only on a last error that is not worth a retry or when the budget is spent.
   */
  lemma {:induction false} LoopAccounts(b: Budget, attempts: Attempts, k: nat)
    ensures var o := Loop(b, attempts, k);
            && o.next - k == 1 + (o.budget.current - b.current) == 1 + |o.sleeps|
            && o.budget == b.(current := o.budget.current)
            && b.current <= o.budget.current <= b.current + b.Left()
            && (forall d :: d in o.sleeps ==> d <= b.maxBackoff)
            && o.result == attempts(o.next - 1)
            && (o.result.Some? ==> o.budget.Left() == 0 || !Transient(o.result.value))
            && (forall j :: k <= j < o.next - 1 ==> attempts(j).Some? && Transient(attempts(j).value))
    decreases b.Left()
  {
    if attempts(k).Some? {
      RetriesExactly(b, attempts(k).value);
      if b.Retries(attempts(k).value) {
        LoopAccounts(b.Spent(), attempts, k + 1);
      }
    }
  }

  lemma {:induction false} LoopDelays(b: Budget, attempts: Attempts, k: nat, i: nat)
    requires i < |Loop(b, attempts, k).sleeps|
    ensures attempts(k + i).Some? && b.After(i).Retries(attempts(k + i).value)
    ensures Loop(b, attempts, k).sleeps[i] == b.After(i).NextDelay(attempts(k + i).value)
    decreases i
  {
    if i == 0 {
      assert b.After(0) == b;
    } else {
      LoopDelays(b.Spent(), attempts, k + 1, i - 1);
      assert b.Spent().After(i - 1) == b.After(i);
    }
  }

  /** The i-th sleep follows the i-th failed attempt: it belongs to that error and to that retry of the budget. */
  lemma LoopSleeps(b: Budget, attempts: Attempts, k: nat, i: nat)
    requires i < |Loop(b, attempts, k).sleeps|
    ensures attempts(k + i).Some? && Transient(attempts(k + i).value)
    ensures Loop(b, attempts, k).sleeps[i] == Slept(b.After(i), attempts(k + i).value, b.current + i + 1)
  {
    LoopDelays(b, attempts, k, i);
    RetriesExactly(b.After(i), attempts(k + i).value);
  }

  /** Connect, then authenticate, then create the tunnel, stopping at the first failure. */
  ghost function Session(b: Budget, attempts: Attempts): Outcome {
    var c := Loop(b, attempts, 0);
    if c.result.Some? then c
    else
      var a := Loop(c.budget, attempts, c.next);
      if a.result.Some? then a.(sleeps := c.sleeps + a.sleeps)
      else
        var t := Loop(a.budget, attempts, a.next);
        t.(sleeps := c.sleeps + a.sleeps + t.sleeps)
  }

  method RunSession(rs: RetryStrategy, attempts: Attempts)
    returns (result: Option<GoError>, next: nat, sleeps: seq<int>)
    modifies rs
    ensures Outcome(result, next, rs.View(), sleeps) == Session(old(rs.View()), attempts)
  {
    result, next, sleeps := WithRetry(rs, attempts, 0);
    if result.Some? {
      return;
    }
    var more;
    result, next, more := WithRetry(rs, attempts, next);
    sleeps := sleeps + more;
    if result.Some? {
      return;
    }
    result, next, more := WithRetry(rs, attempts, next);
    sleeps := sleeps + more;
  }

  /**
   * The three loops share one budget that is never reset: together they make
   * at most maxRetries + 3 attempts, one per phase reached plus one per retry
   * spent; a success took exactly three plus the retries.
   */
  lemma SessionBudget(b: Budget, attempts: Attempts)
    requires b.current == 0
    ensures var o := Session(b, attempts);
            && o.next <= Max(0, b.maxRetries) + 3
            && 1 <= o.next - |o.sleeps| <= 3
            && o.budget.current == |o.sleeps| <= Max(0, b.maxRetries)
            && (o.result.None? ==> o.next == 3 + |o.sleeps|)
            && (forall d :: d in o.sleeps ==> d <= b.maxBackoff)
  {
    LoopAccounts(b, attempts, 0);
    var c := Loop(b, attempts, 0);
    if c.result.None? {
      LoopAccounts(c.budget, attempts, c.next);
      var a := Loop(c.budget, attempts, c.next);
      if a.result.None? {
        LoopAccounts(a.budget, attempts, a.next);
      }
    }
  }

  /** The error and the retry that belong to a sleep. */
  ghost predicate BelongsTo(b: Budget, attempts: Attempts, sleep: int, i: nat, j: nat) {
    attempts(j).Some? && b.After(i).Retries(attempts(j).value) && sleep == b.After(i).NextDelay(attempts(j).value)
  }

  /** The sleeps of a phase that is entered with so many retries spent and so many phases ended. */
  ghost predicate PhaseOf(b: Budget, attempts: Attempts, sleeps: seq<int>, spent: nat, ended: nat) {
    sleeps == Loop(b.After(spent), attempts, spent + ended).sleeps
  }

  lemma PhaseDelays(b: Budget, attempts: Attempts, sleeps: seq<int>, spent: nat, ended: nat, i: nat)
    requires PhaseOf(b, attempts, sleeps, spent, ended) && i < |sleeps|
    ensures BelongsTo(b, attempts, sleeps[i], spent + i, spent + i + ended)
  {
    LoopDelays(b.After(spent), attempts, spent + ended, i);
    assert b.After(spent).After(i) == b.After(spent + i);
  }

  /** The sleeps of the three phases; a phase that is not reached has none. */
  lemma Phases(b: Budget, attempts: Attempts) returns (c: seq<int>, a: seq<int>, t: seq<int>)
    requires b.current == 0
    ensures Session(b, attempts).sleeps == c + a + t
    ensures PhaseOf(b, attempts, c, 0, 0)
    ensures a != [] ==> PhaseOf(b, attempts, a, |c|, 1)
    ensures t != [] ==> PhaseOf(b, attempts, t, |c| + |a|, 2)
  {
    assert b == b.After(0);
    LoopAccounts(b, attempts, 0);
    var first := Loop(b, attempts, 0);
    c, a, t := first.sleeps, [], [];
    assert first.budget == b.After(|c|) && first.next == |c| + 1;
    if first.result.None? {
      LoopAccounts(first.budget, attempts, first.next);
      var second := Loop(first.budget, attempts, first.next);
      a := second.sleeps;
      assert second.budget == b.After(|c| + |a|) && second.next == |c| + |a| + 2;
      if second.result.None? {
        t := Loop(second.budget, attempts, second.next).sleeps;
      }
    }
  }

  /** Which phase an index falls into. */
  lemma Locate(c: seq<int>, a: seq<int>, t: seq<int>, i: nat)
    requires i < |c + a + t|
    ensures i < |c| ==> (c + a + t)[i] == c[i]
    ensures |c| <= i < |c| + |a| ==> (c + a + t)[i] == a[i - |c|]
    ensures |c| + |a| <= i ==> i - |c| - |a| < |t| && (c + a + t)[i] == t[i - |c| - |a|]
  {
  }

  lemma SessionDelays(b: Budget, attempts: Attempts, i: nat) returns (j: nat)
    requires b.current == 0 && i < |Session(b, attempts).sleeps|
    ensures i <= j <= i + 2 && BelongsTo(b, attempts, Session(b, attempts).sleeps[i], i, j)
  {
    var c, a, t := Phases(b, attempts);
    Locate(c, a, t, i);
    var n, m := |c|, |c| + |a|;
    if i < n {
      PhaseDelays(b, attempts, c, 0, 0, i);
      j := i;
    } else if i < m {
      PhaseDelays(b, attempts, a, n, 1, i - n);
      j := i + 1;
    } else {
      PhaseDelays(b, attempts, t, m, 2, i - m);
      j := i + 2;
    }
  }

  /**
   * In a whole session the i-th sleep is that of the i-th retry, after an
   * attempt whose error is worth one; at most two attempts that ended a phase
   * lie before it.
   */
  lemma SessionSleeps(b: Budget, attempts: Attempts, i: nat) returns (j: nat)
    requires b.current == 0 && i < |Session(b, attempts).sleeps|
    ensures i <= j <= i + 2 && attempts(j).Some? && Transient(attempts(j).value)
    ensures Session(b, attempts).sleeps[i] == Slept(b.After(i), attempts(j).value, i + 1)
  {
    j := SessionDelays(b, attempts, i);
    RetriesExactly(b.After(i), attempts(j).value);
  }

  /** An error not worth a retry ends the session at once if it comes first: one attempt and no sleep. */
  lemma FinalErrorEndsSession(b: Budget, attempts: Attempts)
    requires attempts(0).Some? && !Transient(attempts(0).value)
    ensures Session(b, attempts) == Outcome(attempts(0), 1, b, [])
  {
    RetriesExactly(b, attempts(0).value);
  }

  /** In particular a rejected token is never sent twice. */
  lemma RejectedTokenIsFinal(b: Budget, attempts: Attempts, text: string)
    requires attempts(0) == Some(Plain(text)) && Occurs(text, "invalid token")
    ensures var o := Session(b, attempts); o.next == 1 && o.result == attempts(0) && o.sleeps == []
  {
    FinalErrorEndsSession(b, attempts);
  }
}
