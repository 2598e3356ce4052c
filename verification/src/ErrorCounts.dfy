// What the error tracker's counts say as long as nothing has been evicted.
module ErrorCounts {
  import opened ErrorTracking
  import opened ErrorHistories

  lemma {:induction false} SumUpdate(errors: seq<ErrorInfo>, i: nat, e: ErrorInfo, f: ErrorInfo -> nat)
    requires i < |errors|
    ensures SumBy(errors[i := e], f) == SumBy(errors, f) - f(errors[i]) + f(e)
    decreases |errors|
  {
    var n := |errors| - 1;
    if i == n {
      assert errors[i := e][..n] == errors[..n];
    } else {
      assert errors[i := e][..n] == errors[..n][i := e];
      SumUpdate(errors[..n], i, e, f);
    }
  }

  lemma SumSnoc(errors: seq<ErrorInfo>, e: ErrorInfo, f: ErrorInfo -> nat)
    ensures SumBy(errors + [e], f) == SumBy(errors, f) + f(e)
  {
    assert (errors + [e])[..|errors|] == errors;
  }

  // ----- One more report -----

  function Raised(e: ErrorInfo, now: int, c: nat): ErrorInfo {
    e.(count := c, timestamp := now)
  }

  /** The list after a report that it has room for; an error listed already gets the count c. */
  function Bumped(errors: seq<ErrorInfo>, r: Report, c: nat): seq<ErrorInfo> {
    var i := IndexOf(errors, r.kind, r.message);
    if i < |errors| then errors[i := Raised(errors[i], r.now, c)]
    else errors + [ErrorInfo(r.now, r.kind, r.message, 1)]
  }

  lemma BumpedSum(errors: seq<ErrorInfo>, r: Report, c: nat, f: ErrorInfo -> nat)
    ensures var i := IndexOf(errors, r.kind, r.message);
            SumBy(Bumped(errors, r, c), f) ==
              if i < |errors| then SumBy(errors, f) - f(errors[i]) + f(Raised(errors[i], r.now, c))
              else SumBy(errors, f) + f(ErrorInfo(r.now, r.kind, r.message, 1))
  {
    var i := IndexOf(errors, r.kind, r.message);
    if i < |errors| {
      SumUpdate(errors, i, Raised(errors[i], r.now, c), f);
    } else {
      SumSnoc(errors, ErrorInfo(r.now, r.kind, r.message, 1), f);
    }
  }

  function NewCount(t: Log, r: Report): nat {
    Recorded(t.counts, Key(r.kind, r.message)) + 1
  }

  lemma AddIsBump(t: Log, r: Report)
    requires |t.errors| <= MAX_ERRORS
    requires IndexOf(t.errors, r.kind, r.message) < |t.errors| || |t.errors| < MAX_ERRORS
    ensures AddSpec(t, r.now, r.kind, r.message).errors == Bumped(t.errors, r, NewCount(t, r))
  {
  }

  lemma ListedStays(errors: seq<ErrorInfo>, errors': seq<ErrorInfo>, i: nat)
    requires i < |errors| == |errors'| && Same(errors'[i], errors[i].kind, errors[i].message)
    requires forall j :: 0 <= j < |errors| && j != i ==> errors'[j] == errors[j]
    ensures forall k, m :: Listed(errors, k, m) ==> Listed(errors', k, m)
  {
    forall k, m | Listed(errors, k, m)
      ensures Listed(errors', k, m)
    {
      var j :| 0 <= j < |errors| && Same(errors[j], k, m);
      assert Same(errors'[j], k, m);
    }
  }

  lemma ListedSnoc(errors: seq<ErrorInfo>, e: ErrorInfo, kind: string, message: string)
    ensures Listed(errors + [e], kind, message) <==> Listed(errors, kind, message) || Same(e, kind, message)
  {
    var errors' := errors + [e];
    if Same(e, kind, message) {
      assert Same(errors'[|errors|], kind, message);
    }
    if Listed(errors, kind, message) {
      var j :| 0 <= j < |errors| && Same(errors[j], kind, message);
      assert Same(errors'[j], kind, message);
    }
  }

  // ----- What is listed -----

  /** The list shows exactly the errors ever reported. */
  ghost predicate Lists(h: seq<Report>, errors: seq<ErrorInfo>) {
    && |errors| == |Pairs(h)|
    && (forall i :: 0 <= i < |errors| ==> (errors[i].kind, errors[i].message) in Pairs(h))
    && (forall k, m :: (k, m) in Pairs(h) ==> Listed(errors, k, m))
  }

  lemma ListsAgain(h: seq<Report>, r: Report, errors: seq<ErrorInfo>, i: nat, e: ErrorInfo)
    requires Lists(h, errors) && i < |errors| && Same(errors[i], r.kind, r.message) && Same(e, r.kind, r.message)
    ensures Lists(h + [r], errors[i := e])
  {
    PairsSnoc(h, r);
    assert Pairs(h + [r]) == Pairs(h);
    ListedStays(errors, errors[i := e], i);
  }

  lemma ListsNew(h: seq<Report>, r: Report, errors: seq<ErrorInfo>, e: ErrorInfo)
    requires Lists(h, errors) && !Listed(errors, r.kind, r.message) && Same(e, r.kind, r.message)
    ensures Lists(h + [r], errors + [e])
  {
    PairsSnoc(h, r);
    forall k, m | (k, m) in Pairs(h + [r])
      ensures Listed(errors + [e], k, m)
    {
      ListedSnoc(errors, e, k, m);
    }
  }

  lemma ListsBumped(h: seq<Report>, r: Report, errors: seq<ErrorInfo>, c: nat)
    requires Lists(h, errors)
    ensures Lists(h + [r], Bumped(errors, r, c))
  {
    var i := IndexOf(errors, r.kind, r.message);
    if i < |errors| {
      ListsAgain(h, r, errors, i, Raised(errors[i], r.now, c));
    } else {
      ListsNew(h, r, errors, ErrorInfo(r.now, r.kind, r.message, 1));
    }
  }

  lemma HasRoom(h: seq<Report>, r: Report, errors: seq<ErrorInfo>)
    requires Lists(h, errors) && |Pairs(h + [r])| <= MAX_ERRORS
    ensures |errors| <= MAX_ERRORS
    ensures IndexOf(errors, r.kind, r.message) < |errors| || |errors| < MAX_ERRORS
  {
    PairsSnoc(h, r);
    if (r.kind, r.message) in Pairs(h) {
      assert Pairs(h + [r]) == Pairs(h);
    } else {
      assert |Pairs(h) + {(r.kind, r.message)}| == |Pairs(h)| + 1;
    }
  }

  lemma AddLists(h: seq<Report>, r: Report, t: Log)
    requires Lists(h, t.errors) && |Pairs(h + [r])| <= MAX_ERRORS
    ensures var errors := AddSpec(t, r.now, r.kind, r.message).errors;
            errors == Bumped(t.errors, r, NewCount(t, r)) && Lists(h + [r], errors)
  {
    HasRoom(h, r, t.errors);
    AddIsBump(t, r);
    ListsBumped(h, r, t.errors, NewCount(t, r));
  }

  ghost predicate InOrder(h: seq<Report>) {
    forall i, j :: 0 <= i < j < |h| ==> h[i].now <= h[j].now
  }

  lemma Shorter(g: seq<Report>, r: Report, h: seq<Report>)
    requires h != [] && g == h[..|h| - 1] && r == h[|h| - 1]
    ensures h == g + [r] && |Pairs(g)| <= |Pairs(h)|
    ensures InOrder(h) ==> InOrder(g) && forall x :: x in g ==> x.now <= r.now
  {
    assert h == g + [r];
    PairsSnoc(g, r);
    if (r.kind, r.message) in Pairs(g) {
      assert Pairs(h) == Pairs(g);
    } else {
      assert |Pairs(g) + {(r.kind, r.message)}| == |Pairs(g)| + 1;
    }
  }

  /** While at most MAX_ERRORS distinct errors have been reported, all of them are listed. */
  lemma {:induction false} AllListed(h: seq<Report>)
    requires |Pairs(h)| <= MAX_ERRORS
    ensures Lists(h, LogOf(h).errors)
  {
    if h != [] {
      var g, r := h[..|h| - 1], h[|h| - 1];
      Shorter(g, r, h);
      AllListed(g);
      AddLists(g, r, LogOf(g));
    }
  }

  // ----- What is counted -----

  /** Every listed count is the number of occurrences of its error. */
  ghost predicate Counted(h: seq<Report>, errors: seq<ErrorInfo>) {
    forall i :: 0 <= i < |errors| ==> errors[i].count == Occurrences(h, errors[i].kind, errors[i].message)
  }

  lemma CountedBumped(h: seq<Report>, r: Report, errors: seq<ErrorInfo>)
    requires Lists(h, errors) && Counted(h, errors) && Deduplicated(errors)
    ensures Counted(h + [r], Bumped(errors, r, Occurrences(h, r.kind, r.message) + 1))
  {
    var errors' := Bumped(errors, r, Occurrences(h, r.kind, r.message) + 1);
    UnseenHasNoOccurrence(h, r.kind, r.message);
    forall j | 0 <= j < |errors'|
      ensures errors'[j].count == Occurrences(h + [r], errors'[j].kind, errors'[j].message)
    {
      OccurrencesSnoc(h, r, errors'[j].kind, errors'[j].message);
    }
  }

  lemma ShorterApart(g: seq<Report>, r: Report)
    requires KeysApart(g + [r])
    ensures KeysApart(g) && !SharesKey(g, r.kind, r.message)
  {
    forall x | x in g + [r]
      ensures !SharesKey(g, x.kind, x.message)
    {
      SharesKeySnoc(g, r, x.kind, x.message);
    }
    assert r in g + [r] && forall x :: x in g ==> x in g + [r];
  }

  lemma BumpedTotal(h: seq<Report>, r: Report, errors: seq<ErrorInfo>, c: nat)
    requires Counted(h, errors) && c == Occurrences(h, r.kind, r.message) + 1
    ensures SumBy(Bumped(errors, r, c), CountOf()) == SumBy(errors, CountOf()) + 1
  {
    BumpedSum(errors, r, c, CountOf());
  }

  lemma AddCounts(h: seq<Report>, r: Report, t: Log)
    requires Lists(h, t.errors) && Counted(h, t.errors) && Deduplicated(t.errors) && |Pairs(h + [r])| <= MAX_ERRORS
    requires NewCount(t, r) == Occurrences(h, r.kind, r.message) + 1
    ensures var errors := AddSpec(t, r.now, r.kind, r.message).errors;
            Counted(h + [r], errors) && SumBy(errors, CountOf()) == SumBy(t.errors, CountOf()) + 1
  {
    AddLists(h, r, t);
    CountedBumped(h, r, t.errors);
    BumpedTotal(h, r, t.errors, NewCount(t, r));
  }

  /**
   * If no two reported errors share a key and at most MAX_ERRORS of them are
   * distinct, every count is the number of occurrences and the counts add up
   * to the number of reports.
   */
  lemma {:induction false} CountsAreTrue(h: seq<Report>)
    requires KeysApart(h) && |Pairs(h)| <= MAX_ERRORS
    ensures Counted(h, LogOf(h).errors)
    ensures SumBy(LogOf(h).errors, CountOf()) == |h|
  {
    if h != [] {
      var g, r := h[..|h| - 1], h[|h| - 1];
      Shorter(g, r, h);
      ShorterApart(g, r);
      CountsAreTrue(g);
      AllListed(g);
      BoundedAndDeduplicated(g);
      CountersAreOccurrences(g, r.kind, r.message);
      AddCounts(g, r, LogOf(g));
    }
  }

  /** A history of these types with room for all its errors. */
  ghost predicate Admits(types: set<string>, h: seq<Report>) {
    (forall r :: r in h ==> r.kind in types) && |Pairs(h)| <= MAX_ERRORS
  }

  lemma FirstEntry(t: Log, r: Report)
    requires t == AddSpec(Log([], map[]), r.now, r.kind, r.message)
    ensures t.errors == [ErrorInfo(r.now, r.kind, r.message, 1)]
    ensures Recorded(t.counts, Key(r.kind, r.message)) == 1
  {
  }

  lemma SecondEntry(t: Log, t': Log, r: Report, q: Report)
    requires r.kind != q.kind && Collide(r.kind, r.message, q.kind, q.message)
    requires t.errors == [ErrorInfo(r.now, r.kind, r.message, 1)]
    requires Recorded(t.counts, Key(r.kind, r.message)) == 1
    requires t' == AddSpec(t, q.now, q.kind, q.message)
    ensures Listed(t'.errors, q.kind, q.message) && NewCount(t', q) == 3
  {
    assert t'.errors == t.errors + [ErrorInfo(q.now, q.kind, q.message, 1)];
    assert Same(t'.errors[1], q.kind, q.message);
  }

  /** What one more report does to a history's pairs and occurrences. */
  lemma Snoc(h: seq<Report>, r: Report, kind: string, message: string)
    ensures Pairs(h + [r]) == Pairs(h) + {(r.kind, r.message)}
    ensures Occurrences(h + [r], kind, message) ==
              Occurrences(h, kind, message) + (if r.kind == kind && r.message == message then 1 else 0)
  {
    PairsSnoc(h, r);
    OccurrencesSnoc(h, r, kind, message);
  }

  lemma OneReport(r: Report) returns (h: seq<Report>)
    ensures h == [r]
    ensures LogOf(h).errors == [ErrorInfo(r.now, r.kind, r.message, 1)]
    ensures Recorded(LogOf(h).counts, Key(r.kind, r.message)) == 1
  {
    h := [];
    LogSnoc(h, r);
    h := h + [r];
    FirstEntry(LogOf(h), r);
  }

  lemma TwoReports(one: seq<Report>, r: Report, q: Report)
    requires r.kind != q.kind && Collide(r.kind, r.message, q.kind, q.message)
    requires LogOf(one).errors == [ErrorInfo(r.now, r.kind, r.message, 1)]
    requires Recorded(LogOf(one).counts, Key(r.kind, r.message)) == 1
    ensures var t := LogOf(one + [q]); Listed(t.errors, q.kind, q.message) && NewCount(t, q) == 3
  {
    LogSnoc(one, q);
    SecondEntry(LogOf(one), LogOf(one + [q]), r, q);
  }

  lemma ThirdReport(two: seq<Report>, q: Report)
    requires Listed(LogOf(two).errors, q.kind, q.message) && NewCount(LogOf(two), q) == 3
    ensures Shown(LogOf(two + [q]), q.kind, q.message) == 3
  {
    BoundedAndDeduplicated(two);
    LogSnoc(two, q);
    ReportedEntry(LogOf(two), q.now, q.kind, q.message);
  }

  /** Two errors whose keys collide: after one report of the first and two of the second it shows three. */
  lemma Miscounted(r: Report, q: Report, one: seq<Report>, two: seq<Report>, three: seq<Report>)
    requires r.kind != q.kind && Collide(r.kind, r.message, q.kind, q.message)
    requires one == [r] && two == one + [q] && three == two + [q]
    ensures Shown(LogOf(three), q.kind, q.message) == 3
  {
    var h := OneReport(r);
    TwoReports(one, r, q);
    ThirdReport(two, q);
  }

  lemma OccursTwice(r: Report, q: Report, one: seq<Report>, two: seq<Report>, three: seq<Report>)
    requires r.kind != q.kind && one == [r] && two == one + [q] && three == two + [q]
    ensures Occurrences(three, q.kind, q.message) == 2 && Pairs(three) == {(r.kind, r.message), (q.kind, q.message)}
  {
    assert one == [] + [r];
    Snoc([], r, q.kind, q.message);
    Snoc(one, q, q.kind, q.message);
    Snoc(two, q, q.kind, q.message);
  }

  lemma WrongCount(r: Report, q: Report) returns (h: seq<Report>)
    requires r.kind != q.kind && Collide(r.kind, r.message, q.kind, q.message)
    ensures (forall x :: x in h ==> x in {r, q}) && Pairs(h) == {(r.kind, r.message), (q.kind, q.message)}
    ensures Occurrences(h, q.kind, q.message) == 2 && Shown(LogOf(h), q.kind, q.message) == 3
  {
    var one := [r];
    var two := one + [q];
    h := two + [q];
    Miscounted(r, q, one, two, h);
    OccursTwice(r, q, one, two, h);
  }

  lemma ShownMatters(h: seq<Report>, kind: string, message: string)
    requires Shown(LogOf(h), kind, message) > Occurrences(h, kind, message)
    ensures !Counted(h, LogOf(h).errors)
  {
  }

  lemma PairSize<T>(x: T, y: T)
    ensures |{x, y}| <= 2
  {
    assert {x, y} == {x} + {y};
  }

  lemma OverlapMiscounts(types: set<string>, k1: string, k2: string) returns (h: seq<Report>)
    requires k1 in types && k2 in types && k1 + ":" <= k2
    ensures Admits(types, h) && !Counted(h, LogOf(h).errors)
  {
    var m1 := CommonKey(k1, k2, "");
    var r, q := Report(0, k1, m1), Report(0, k2, "");
    h := WrongCount(r, q);
    PairSize((k1, m1), (k2, ""));
    ShownMatters(h, k2, "");
  }

  /**
   * Whatever is reported, in whatever order, the counts are true exactly for
   * those sets of error types of which none, followed by a colon, is a prefix
   * of another.
   */
  lemma CountsAreTrueExactly(types: set<string>)
    ensures (forall h :: Admits(types, h) ==> Counted(h, LogOf(h).errors))
       <==> (forall k1, k2 :: k1 in types && k2 in types && k1 != k2 ==> !Overlaps(k1, k2))
  {
    if k1, k2 :| k1 in types && k2 in types && k1 != k2 && Overlaps(k1, k2) {
      var h;
      if k1 + ":" <= k2 {
        h := OverlapMiscounts(types, k1, k2);
      } else {
        h := OverlapMiscounts(types, k2, k1);
      }
    } else {
      forall h | Admits(types, h)
        ensures Counted(h, LogOf(h).errors)
      {
        assert TypesApart(h);
        TypesApartKeysApart(h);
        CountsAreTrue(h);
      }
    }
  }
}
