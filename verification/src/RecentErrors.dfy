// What the count of the last minute says, which adds up the counts of the
// errors seen since a cutoff.
module RecentErrors {
  import opened ErrorTracking
  import opened ErrorHistories
  import opened ErrorCounts

  // ----- Never too low -----

  function Since(h: seq<Report>, cutoff: int): nat {
    if h == [] then 0
    else Since(h[..|h| - 1], cutoff) + (if h[|h| - 1].now > cutoff then 1 else 0)
  }

  lemma {:induction false} NoneSince(h: seq<Report>, cutoff: int)
    requires forall r :: r in h ==> r.now <= cutoff
    ensures Since(h, cutoff) == 0
  {
    if h != [] {
      assert h[|h| - 1] in h && forall r :: r in h[..|h| - 1] ==> r in h;
      NoneSince(h[..|h| - 1], cutoff);
    }
  }

  lemma {:induction false} CountsBelowCounters(h: seq<Report>, i: nat)
    requires i < |LogOf(h).errors|
    ensures var e := LogOf(h).errors[i]; e.count <= Recorded(LogOf(h).counts, Key(e.kind, e.message))
  {
    if h != [] {
      var g, r := h[..|h| - 1], h[|h| - 1];
      var t := LogOf(g);
      forall j | 0 <= j < |t.errors|
        ensures t.errors[j].count <= Recorded(t.counts, Key(t.errors[j].kind, t.errors[j].message))
      {
        CountsBelowCounters(g, j);
      }
      AddBelowCounters(t, r.now, r.kind, r.message);
    }
  }

  lemma AddBelowCounters(t: Log, now: int, kind: string, message: string)
    requires forall j :: 0 <= j < |t.errors| ==>
               t.errors[j].count <= Recorded(t.counts, Key(t.errors[j].kind, t.errors[j].message))
    ensures var t' := AddSpec(t, now, kind, message);
            forall j :: 0 <= j < |t'.errors| ==>
              t'.errors[j].count <= Recorded(t'.counts, Key(t'.errors[j].kind, t'.errors[j].message))
  {
  }

  lemma NewCountRises(h: seq<Report>, r: Report)
    ensures var i := IndexOf(LogOf(h).errors, r.kind, r.message);
            i < |LogOf(h).errors| ==> NewCount(LogOf(h), r) > LogOf(h).errors[i].count
  {
    var i := IndexOf(LogOf(h).errors, r.kind, r.message);
    if i < |LogOf(h).errors| {
      CountsBelowCounters(h, i);
    }
  }

  /**
   * With at most MAX_ERRORS distinct errors, colliding keys or not, the
   * last-minute count is never below the number of reports since the cutoff.
   */
  lemma {:induction false} RecentCountIsNoUnderestimate(h: seq<Report>, cutoff: int)
    requires InOrder(h) && |Pairs(h)| <= MAX_ERRORS
    ensures SumBy(LogOf(h).errors, CountSince(cutoff)) >= Since(h, cutoff)
  {
    if h != [] {
      var g, r := h[..|h| - 1], h[|h| - 1];
      Shorter(g, r, h);
      AllListed(g);
      RecentCountIsNoUnderestimate(g, cutoff);
      var t := LogOf(g);
      AddLists(g, r, t);
      NewCountRises(g, r);
      RecentStep(g, r, t.errors, NewCount(t, r), cutoff);
    }
  }

  lemma RecentStep(g: seq<Report>, r: Report, errors: seq<ErrorInfo>, c: nat, cutoff: int)
    requires SumBy(errors, CountSince(cutoff)) >= Since(g, cutoff)
    requires forall x :: x in g ==> x.now <= r.now
    requires var i := IndexOf(errors, r.kind, r.message); i < |errors| ==> c > errors[i].count
    ensures SumBy(Bumped(errors, r, c), CountSince(cutoff)) >= Since(g + [r], cutoff)
  {
    assert (g + [r])[..|g|] == g;
    BumpedSum(errors, r, c, CountSince(cutoff));
    if r.now <= cutoff {
      NoneSince(g, cutoff);
    }
  }

  // ----- When it is exact -----

  /** The error was reported at or before the cutoff and again after it. */
  ghost predicate Straddles(h: seq<Report>, cutoff: int, kind: string, message: string) {
    && (exists r :: r in h && IsOf(r, kind, message) && r.now <= cutoff)
    && (exists r :: r in h && IsOf(r, kind, message) && r.now > cutoff)
  }

  predicate IsOf(r: Report, kind: string, message: string) {
    r.kind == kind && r.message == message
  }

  ghost predicate SomeStraddle(h: seq<Report>, cutoff: int) {
    exists kind, message :: Straddles(h, cutoff, kind, message)
  }

  /** Every entry was reported at the time it shows. */
  ghost predicate Stamped(h: seq<Report>, errors: seq<ErrorInfo>) {
    forall i :: 0 <= i < |errors| ==>
      exists r :: r in h && IsOf(r, errors[i].kind, errors[i].message) && r.now == errors[i].timestamp
  }

  lemma StampedAdd(h: seq<Report>, r: Report, t: Log)
    requires Stamped(h, t.errors)
    ensures Stamped(h + [r], AddSpec(t, r.now, r.kind, r.message).errors)
  {
    var errors := AddSpec(t, r.now, r.kind, r.message).errors;
    forall i | 0 <= i < |errors|
      ensures exists x :: x in h + [r] && IsOf(x, errors[i].kind, errors[i].message) && x.now == errors[i].timestamp
    {
      if errors[i] in t.errors {
        var k :| 0 <= k < |t.errors| && t.errors[k] == errors[i];
        var x :| x in h && IsOf(x, errors[i].kind, errors[i].message) && x.now == errors[i].timestamp;
        assert x in h + [r];
      } else {
        assert r in h + [r];
      }
    }
  }

  lemma {:induction false} AllStamped(h: seq<Report>)
    ensures Stamped(h, LogOf(h).errors)
  {
    if h != [] {
      var g, r := h[..|h| - 1], h[|h| - 1];
      AllStamped(g);
      StampedAdd(g, r, LogOf(g));
      assert h == g + [r];
    }
  }

  /** One more report makes an error straddle exactly if it comes after the cutoff and its error came before. */
  lemma StraddlesSnoc(g: seq<Report>, r: Report, cutoff: int)
    requires forall x :: x in g ==> x.now <= r.now
    ensures SomeStraddle(g + [r], cutoff) <==>
              || SomeStraddle(g, cutoff)
              || (r.now > cutoff && exists x :: x in g && IsOf(x, r.kind, r.message) && x.now <= cutoff)
  {
    assert forall x :: x in g + [r] <==> x in g || x == r;
    if k, m :| Straddles(g + [r], cutoff, k, m) {
      if !Straddles(g, cutoff, k, m) {
        assert IsOf(r, k, m);
      }
    }
    if k, m :| Straddles(g, cutoff, k, m) {
      assert Straddles(g + [r], cutoff, k, m);
    }
    if r.now > cutoff && exists x :: x in g && IsOf(x, r.kind, r.message) && x.now <= cutoff {
      assert Straddles(g + [r], cutoff, r.kind, r.message);
    }
  }

  /** How far the count of the last minute is too high. */
  function Excess(h: seq<Report>, errors: seq<ErrorInfo>, cutoff: int): int {
    SumBy(errors, CountSince(cutoff)) - Since(h, cutoff)
  }

  /** It grows by an entry's earlier count when the entry comes back after the cutoff, and not otherwise. */
  lemma ExcessStep(g: seq<Report>, r: Report, errors: seq<ErrorInfo>, cutoff: int)
    requires Lists(g, errors) && Counted(g, errors) && r.now > cutoff
    ensures var i := IndexOf(errors, r.kind, r.message);
            Excess(g + [r], Bumped(errors, r, Occurrences(g, r.kind, r.message) + 1), cutoff)
            == Excess(g, errors, cutoff)
               + if i < |errors| && errors[i].timestamp <= cutoff then errors[i].count else 0
  {
    assert (g + [r])[..|g|] == g;
    BumpedSum(errors, r, Occurrences(g, r.kind, r.message) + 1, CountSince(cutoff));
  }

  /** When the reported error straddles the cutoff in the entry's eyes or in the history's. */
  lemma ComesBack(g: seq<Report>, r: Report, errors: seq<ErrorInfo>, cutoff: int)
    requires Lists(g, errors) && Stamped(g, errors) && !SomeStraddle(g, cutoff)
    ensures var i := IndexOf(errors, r.kind, r.message);
            (i < |errors| && errors[i].timestamp <= cutoff)
            <==> exists x :: x in g && IsOf(x, r.kind, r.message) && x.now <= cutoff
  {
    var i := IndexOf(errors, r.kind, r.message);
    if i < |errors| {
      var y :| y in g && IsOf(y, errors[i].kind, errors[i].message) && y.now == errors[i].timestamp;
      if x :| x in g && IsOf(x, r.kind, r.message) && x.now <= cutoff {
        assert !Straddles(g, cutoff, r.kind, r.message);
      }
    } else {
      assert !Listed(errors, r.kind, r.message);
    }
  }

  lemma ListedOccurred(g: seq<Report>, errors: seq<ErrorInfo>, i: nat)
    requires Lists(g, errors) && Counted(g, errors) && i < |errors|
    ensures errors[i].count > 0
  {
    UnseenHasNoOccurrence(g, errors[i].kind, errors[i].message);
  }

  lemma NothingRecent(h: seq<Report>, errors: seq<ErrorInfo>, cutoff: int)
    requires Stamped(h, errors) && forall r :: r in h ==> r.now <= cutoff
    ensures Excess(h, errors, cutoff) == 0 && !SomeStraddle(h, cutoff)
  {
    NoneSince(h, cutoff);
    NoOldEntry(errors, cutoff);
  }

  lemma {:induction false} NoOldEntry(errors: seq<ErrorInfo>, cutoff: int)
    requires forall e :: e in errors ==> e.timestamp <= cutoff
    ensures SumBy(errors, CountSince(cutoff)) == 0
    decreases |errors|
  {
    if errors != [] {
      assert forall e :: e in errors[..|errors| - 1] ==> e in errors;
      NoOldEntry(errors[..|errors| - 1], cutoff);
    }
  }

  /**
   * With at most MAX_ERRORS distinct errors and distinct keys, the last-minute
   * count is the number of reports since the cutoff exactly if no error was
   * reported both up to the cutoff and after it; otherwise it is too high.
   */
  lemma {:induction false} RecentCountExactly(h: seq<Report>, cutoff: int)
    requires InOrder(h) && KeysApart(h) && |Pairs(h)| <= MAX_ERRORS
    ensures SumBy(LogOf(h).errors, CountSince(cutoff)) == Since(h, cutoff) <==> !SomeStraddle(h, cutoff)
  {
    RecentCountIsNoUnderestimate(h, cutoff);
    AllStamped(h);
    if h == [] || h[|h| - 1].now <= cutoff {
      NothingRecent(h, LogOf(h).errors, cutoff);
    } else {
      var g, r := h[..|h| - 1], h[|h| - 1];
      Shorter(g, r, h);
      ShorterApart(g, r);
      RecentCountExactly(g, cutoff);
      RecentCountIsNoUnderestimate(g, cutoff);
      CountsAreTrue(g);
      AllListed(g);
      AllStamped(g);
      CountersAreOccurrences(g, r.kind, r.message);
      RecentExactStep(g, r, LogOf(g), cutoff);
    }
  }

  lemma RecentExactStep(g: seq<Report>, r: Report, t: Log, cutoff: int)
    requires Lists(g, t.errors) && Counted(g, t.errors) && Stamped(g, t.errors) && r.now > cutoff
    requires |Pairs(g + [r])| <= MAX_ERRORS && NewCount(t, r) == Occurrences(g, r.kind, r.message) + 1
    requires Excess(g, t.errors, cutoff) >= 0 && (Excess(g, t.errors, cutoff) == 0 <==> !SomeStraddle(g, cutoff))
    requires forall x :: x in g ==> x.now <= r.now
    ensures var errors := AddSpec(t, r.now, r.kind, r.message).errors;
            Excess(g + [r], errors, cutoff) == 0 <==> !SomeStraddle(g + [r], cutoff)
  {
    AddLists(g, r, t);
    ExcessStep(g, r, t.errors, cutoff);
    StraddlesSnoc(g, r, cutoff);
    var i := IndexOf(t.errors, r.kind, r.message);
    if i < |t.errors| {
      ListedOccurred(g, t.errors, i);
    }
    if !SomeStraddle(g, cutoff) {
      ComesBack(g, r, t.errors, cutoff);
    }
  }
}
