// What the error tracker shows after any history of reports.
module ErrorHistories {
  import opened ErrorTracking

  datatype Report = Report(now: int, kind: string, message: string)

  function LogOf(h: seq<Report>): Log {
    if h == [] then Log([], map[])
    else
      var r := h[|h| - 1];
      AddSpec(LogOf(h[..|h| - 1]), r.now, r.kind, r.message)
  }

  function Occurrences(h: seq<Report>, kind: string, message: string): nat {
    if h == [] then 0
    else
      var r := h[|h| - 1];
      Occurrences(h[..|h| - 1], kind, message) + (if r.kind == kind && r.message == message then 1 else 0)
  }

  lemma OccurrencesSnoc(h: seq<Report>, r: Report, kind: string, message: string)
    ensures Occurrences(h + [r], kind, message) ==
              Occurrences(h, kind, message) + (if r.kind == kind && r.message == message then 1 else 0)
  {
    assert (h + [r])[..|h|] == h;
  }

  lemma LogSnoc(h: seq<Report>, r: Report)
    ensures LogOf(h + [r]) == AddSpec(LogOf(h), r.now, r.kind, r.message)
  {
    assert (h + [r])[..|h|] == h;
  }

  function Pairs(h: seq<Report>): set<(string, string)> {
    set r | r in h :: (r.kind, r.message)
  }

  lemma PairsSnoc(h: seq<Report>, r: Report)
    ensures Pairs(h + [r]) == Pairs(h) + {(r.kind, r.message)}
  {
    assert forall x :: x in h + [r] <==> x in h || x == r;
  }

  lemma {:induction false} UnseenHasNoOccurrence(h: seq<Report>, kind: string, message: string)
    ensures (kind, message) in Pairs(h) <==> Occurrences(h, kind, message) > 0
  {
    if h != [] {
      var g, r := h[..|h| - 1], h[|h| - 1];
      assert h == g + [r];
      PairsSnoc(g, r);
      UnseenHasNoOccurrence(g, kind, message);
    }
  }

  // ----- The list -----

  ghost predicate Deduplicated(errors: seq<ErrorInfo>) {
    forall i, j :: 0 <= i < j < |errors| ==> !Same(errors[i], errors[j].kind, errors[j].message)
  }

  lemma AddBounded(t: Log, now: int, kind: string, message: string)
    requires Deduplicated(t.errors)
    ensures var t' := AddSpec(t, now, kind, message); Deduplicated(t'.errors) && |t'.errors| <= MAX_ERRORS
  {
  }

  /** The list is never longer than its bound and never lists the same error twice. */
  lemma {:induction false} BoundedAndDeduplicated(h: seq<Report>)
    ensures |LogOf(h).errors| <= 100 && Deduplicated(LogOf(h).errors)
  {
    if h != [] {
      var r := h[|h| - 1];
      BoundedAndDeduplicated(h[..|h| - 1]);
      AddBounded(LogOf(h[..|h| - 1]), r.now, r.kind, r.message);
    }
  }

  ghost predicate Listed(errors: seq<ErrorInfo>, kind: string, message: string) {
    exists i :: 0 <= i < |errors| && Same(errors[i], kind, message)
  }

  /** The count the list shows for an error, zero if it is not listed. */
  function Shown(t: Log, kind: string, message: string): nat {
    var i := IndexOf(t.errors, kind, message);
    if i < |t.errors| then t.errors[i].count else 0
  }

  lemma IndexOfEntry(errors: seq<ErrorInfo>, kind: string, message: string, j: nat)
    requires Deduplicated(errors) && j < |errors| && Same(errors[j], kind, message)
    ensures IndexOf(errors, kind, message) == j
  {
  }

  // ----- The counters -----

  /** The history reports another error with the same key. */
  ghost predicate SharesKey(h: seq<Report>, kind: string, message: string) {
    exists r :: r in h && (r.kind, r.message) != (kind, message) && Collide(r.kind, r.message, kind, message)
  }

  lemma SharesKeySnoc(h: seq<Report>, r: Report, kind: string, message: string)
    ensures SharesKey(h + [r], kind, message) <==>
              SharesKey(h, kind, message)
              || ((r.kind, r.message) != (kind, message) && Collide(r.kind, r.message, kind, message))
  {
    assert forall x :: x in h + [r] <==> x in h || x == r;
  }

  /**
   * Evictions or not, a counter is never below the number of occurrences of
   * its error, and equal to it exactly if no other reported error has the
   * same key.
   */
  lemma {:induction false} CountersAreOccurrences(h: seq<Report>, kind: string, message: string)
    ensures Recorded(LogOf(h).counts, Key(kind, message)) >= Occurrences(h, kind, message)
    ensures Recorded(LogOf(h).counts, Key(kind, message)) == Occurrences(h, kind, message)
       <==> !SharesKey(h, kind, message)
  {
    if h != [] {
      var g, r := h[..|h| - 1], h[|h| - 1];
      assert h == g + [r];
      SharesKeySnoc(g, r, kind, message);
      CountersAreOccurrences(g, kind, message);
    }
  }

  /** No reported type overlaps another one. */
  ghost predicate TypesApart(h: seq<Report>) {
    forall r, q :: r in h && q in h && r.kind != q.kind ==> !Overlaps(r.kind, q.kind)
  }

  /** Different reported errors have different keys. */
  ghost predicate KeysApart(h: seq<Report>) {
    forall r :: r in h ==> !SharesKey(h, r.kind, r.message)
  }

  lemma TypesApartKeysApart(h: seq<Report>)
    requires TypesApart(h)
    ensures KeysApart(h)
  {
    forall r, q | r in h && q in h && (q.kind, q.message) != (r.kind, r.message)
      ensures !Collide(q.kind, q.message, r.kind, r.message)
    {
      if Collide(q.kind, q.message, r.kind, r.message) {
        KeyIsInjective(q.kind, q.message, r.kind, r.message);
      }
    }
  }

  lemma ReportedEntry(t: Log, now: int, kind: string, message: string)
    requires Deduplicated(t.errors) && |t.errors| <= MAX_ERRORS
    ensures var t' := AddSpec(t, now, kind, message);
            && Listed(t'.errors, kind, message)
            && Shown(t', kind, message)
            == if Listed(t.errors, kind, message) then Recorded(t.counts, Key(kind, message)) + 1 else 1
  {
    var t' := AddSpec(t, now, kind, message);
    AddBounded(t, now, kind, message);
    var i := IndexOf(t.errors, kind, message);
    IndexOfEntry(t'.errors, kind, message, if i < |t.errors| then i else |t'.errors| - 1);
  }

  /**
   * The entry just reported shows its true number of occurrences exactly if
   * it had never been reported, or it was still listed and no other reported
   * error has its key: an evicted error restarts at one.
   */
  lemma ReportedCount(h: seq<Report>, r: Report)
    ensures var t, t' := LogOf(h), LogOf(h + [r]);
            && Listed(t'.errors, r.kind, r.message)
            && (Shown(t', r.kind, r.message) == Occurrences(h + [r], r.kind, r.message) <==>
                  if Listed(t.errors, r.kind, r.message) then !SharesKey(h, r.kind, r.message)
                  else Occurrences(h, r.kind, r.message) == 0)
            && (!Listed(t.errors, r.kind, r.message) ==> Shown(t', r.kind, r.message) == 1)
  {
    CountersAreOccurrences(h, r.kind, r.message);
    BoundedAndDeduplicated(h);
    ReportedEntry(LogOf(h), r.now, r.kind, r.message);
    LogSnoc(h, r);
    OccurrencesSnoc(h, r, r.kind, r.message);
  }

  // ----- An eviction -----

  function Xs(n: nat): string {
    seq(n, i => 'x')
  }

  /** n reports of one type, each with a message of its own. */
  function Flood(n: nat): seq<Report> {
    if n == 0 then [] else Flood(n - 1) + [Report(0, "flood", Xs(n - 1))]
  }

  function FloodEntry(i: nat): ErrorInfo {
    ErrorInfo(0, "flood", Xs(i), 1)
  }

  lemma FloodAdds(t: Log, n: nat)
    requires forall e :: e in t.errors ==> |e.message| != n
    ensures AddSpec(t, 0, "flood", Xs(n)).errors == Latest(t.errors + [FloodEntry(n)], MAX_ERRORS)
  {
  }

  ghost predicate IsFlood(errors: seq<ErrorInfo>, lo: nat, hi: nat) {
    |errors| == hi - lo && forall i :: 0 <= i < |errors| ==> errors[i] == FloodEntry(lo + i)
  }

  lemma FloodLatest(errors: seq<ErrorInfo>, lo: nat, hi: nat)
    requires lo <= hi && IsFlood(errors, lo, hi) && hi - lo <= MAX_ERRORS + 1
    ensures IsFlood(Latest(errors, MAX_ERRORS), if hi - lo <= MAX_ERRORS then lo else lo + 1, hi)
  {
    if hi - lo > MAX_ERRORS {
      assert Latest(errors, MAX_ERRORS) == errors[1..];
    }
  }

  lemma FloodSnoc(errors: seq<ErrorInfo>, lo: nat, hi: nat)
    requires lo <= hi && IsFlood(errors, lo, hi)
    ensures IsFlood(errors + [FloodEntry(hi)], lo, hi + 1)
    ensures forall e :: e in errors ==> |e.message| != hi
  {
  }

  lemma FloodGrows(t: Log, lo: nat, hi: nat)
    requires lo <= hi && IsFlood(t.errors, lo, hi) && hi - lo <= MAX_ERRORS
    ensures IsFlood(AddSpec(t, 0, "flood", Xs(hi)).errors, if hi - lo < MAX_ERRORS then lo else lo + 1, hi + 1)
  {
    FloodSnoc(t.errors, lo, hi);
    FloodAdds(t, hi);
    FloodLatest(t.errors + [FloodEntry(hi)], lo, hi + 1);
  }

  lemma FloodStep(n: nat)
    ensures LogOf(Flood(n + 1)) == AddSpec(LogOf(Flood(n)), 0, "flood", Xs(n))
  {
    LogSnoc(Flood(n), Report(0, "flood", Xs(n)));
  }

  lemma {:induction false} FloodList(n: nat)
    requires n <= MAX_ERRORS
    ensures IsFlood(LogOf(Flood(n)).errors, 0, n)
    decreases n
  {
    if n == 0 {
      assert LogOf(Flood(0)).errors == [];
    } else {
      var m := n - 1;
      FloodList(m);
      FloodStep(m);
      FloodGrows(LogOf(Flood(m)), 0, m);
    }
  }

  lemma FloodOverflows(n: nat)
    requires n == MAX_ERRORS
    ensures IsFlood(LogOf(Flood(n + 1)).errors, 1, n + 1)
  {
    FloodList(n);
    FloodStep(n);
    FloodGrows(LogOf(Flood(n)), 0, n);
  }

  /**
   * Evictions happen: after one report too many the first error is no longer
   * listed though it occurred, and reported again it shows one instead of two.
   */
  lemma EvictedRestarts(n: nat)
    requires n == 100
    ensures var h := Flood(n + 1);
            && Occurrences(h, "flood", "") == 1 && !Listed(LogOf(h).errors, "flood", "")
            && Shown(LogOf(h + [Report(0, "flood", "")]), "flood", "") == 1
            && Occurrences(h + [Report(0, "flood", "")], "flood", "") == 2
  {
    var h := Flood(n + 1);
    FloodOverflows(n);
    FloodOnce(n + 1);
    ReportedCount(h, Report(0, "flood", ""));
    OccurrencesSnoc(h, Report(0, "flood", ""), "flood", "");
  }

  lemma {:induction false} FloodOnce(n: nat)
    ensures Occurrences(Flood(n), "flood", "") == if n == 0 then 0 else 1
    decreases n
  {
    if n > 0 {
      FloodOnce(n - 1);
      OccurrencesSnoc(Flood(n - 1), Report(0, "flood", Xs(n - 1)), "flood", "");
      assert Xs(0) == "";
    }
  }
}
