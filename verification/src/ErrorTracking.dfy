// The heartbeat's error tracker: a bounded, deduplicated list of errors with
// occurrence counts, as a mutable object tied to a function on snapshots.
module ErrorTracking {
  import opened Wrappers
  import opened Durations

  const MAX_ERRORS: nat := 100

  datatype ErrorInfo = ErrorInfo(timestamp: int, kind: string, message: string, count: nat)

  datatype Log = Log(errors: seq<ErrorInfo>, counts: map<string, nat>)

  function Key(kind: string, message: string): string {
    kind + ":" + message
  }

  function Recorded(counts: map<string, nat>, key: string): nat {
    if key in counts then counts[key] else 0
  }

  predicate Same(e: ErrorInfo, kind: string, message: string) {
    e.kind == kind && e.message == message
  }

  /** Where the error is listed, or the length of the list. */
  function IndexOf(errors: seq<ErrorInfo>, kind: string, message: string): (i: nat)
    ensures i <= |errors|
    ensures i < |errors| ==> Same(errors[i], kind, message)
    ensures forall j :: 0 <= j < i ==> !Same(errors[j], kind, message)
  {
    if errors == [] then 0
    else if Same(errors[0], kind, message) then 0
    else
      var i := IndexOf(errors[1..], kind, message);
      assert forall j :: 0 < j < i + 1 ==> errors[j] == errors[1..][j - 1];
      i + 1
  }

  function Latest<T>(s: seq<T>, n: nat): seq<T> {
    s[Max(0, |s| - n)..]
  }

  function AddSpec(t: Log, now: int, kind: string, message: string): Log {
    var c := Recorded(t.counts, Key(kind, message)) + 1;
    var i := IndexOf(t.errors, kind, message);
    var errors := if i < |t.errors| then t.errors[i := t.errors[i].(count := c, timestamp := now)]
                  else t.errors + [ErrorInfo(now, kind, message, 1)];
    Log(Latest(errors, MAX_ERRORS), t.counts[Key(kind, message) := c])
  }

  function Reversed<T>(s: seq<T>): (r: seq<T>)
    ensures |r| == |s| && forall i :: 0 <= i < |s| ==> r[i] == s[|s| - 1 - i]
  {
    if s == [] then [] else [s[|s| - 1]] + Reversed(s[..|s| - 1])
  }

  function SumBy(errors: seq<ErrorInfo>, f: ErrorInfo -> nat): nat {
    if errors == [] then 0 else SumBy(errors[..|errors| - 1], f) + f(errors[|errors| - 1])
  }

  function CountSince(cutoff: int): ErrorInfo -> nat {
    (e: ErrorInfo) => if e.timestamp > cutoff then e.count else 0
  }

  function CountOf(): ErrorInfo -> nat {
    (e: ErrorInfo) => e.count
  }

  method ReverseInPlace(a: array<ErrorInfo>)
    modifies a
    ensures a[..] == Reversed(old(a[..]))
  {
    var n := a.Length;
    for i := 0 to n / 2
      invariant forall k :: 0 <= k < i ==> a[k] == old(a[n - 1 - k]) && a[n - 1 - k] == old(a[k])
      invariant forall k :: i <= k < n - i ==> a[k] == old(a[k])
    {
      a[i], a[n - 1 - i] := a[n - 1 - i], a[i];
    }
    assert forall k :: 0 <= k < n ==> a[k] == old(a[..])[n - 1 - k];
  }

  class ErrorTracker {
    var errors: seq<ErrorInfo>
    var errorCounts: map<string, nat>

    constructor ()
      ensures View() == Log([], map[])
    {
      errors, errorCounts := [], map[];
    }

    function View(): Log
      reads this
    {
      Log(errors, errorCounts)
    }

    method AddError(now: int, kind: string, message: string)
      modifies this
      ensures View() == AddSpec(old(View()), now, kind, message)
    {
      var key := Key(kind, message);
      errorCounts := errorCounts[key := Recorded(errorCounts, key) + 1];
      var found := false;
      for i := 0 to |errors|
        invariant !found && errors == old(errors)
        invariant forall j :: 0 <= j < i ==> !Same(errors[j], kind, message)
        invariant errorCounts == old(errorCounts)[key := Recorded(old(errorCounts), key) + 1]
      {
        if errors[i].kind == kind && errors[i].message == message {
          errors := errors[i := errors[i].(count := errorCounts[key], timestamp := now)];
          found := true;
          break;
        }
      }
      if !found {
        errors := errors + [ErrorInfo(now, kind, message, 1)];
      }
      if |errors| > MAX_ERRORS {
        errors := errors[|errors| - MAX_ERRORS..];
      }
    }

    /** The last n entries, the one listed last first; None stands for the panic of a negative length. */
    method GetRecentErrors(n: int) returns (r: Option<seq<ErrorInfo>>)
      ensures r.None? <==> n < 0 && errors != []
      ensures r.Some? ==> r.value == Reversed(Latest(errors, Max(0, n)))
    {
      if |errors| == 0 {
        return Some([]);
      }
      var start := |errors| - n;
      if start < 0 {
        start := 0;
      }
      if |errors| - start < 0 {
        return None;
      }
      var recent := errors[start..];
      var result := new ErrorInfo[|recent|](i requires 0 <= i < |recent| => recent[i]);
      assert result[..] == recent;
      ReverseInPlace(result);
      r := Some(result[..]);
    }

    method GetErrorCountLastMinute(now: int) returns (count: nat)
      ensures count == SumBy(errors, CountSince(now - 60_000_000_000))
    {
      count := 0;
      for i := 0 to |errors|
        invariant count == SumBy(errors[..i], CountSince(now - MINUTE))
      {
        assert errors[..i + 1][..i] == errors[..i];
        if errors[i].timestamp > now - MINUTE {
          count := count + errors[i].count;
        }
      }
      assert errors[..|errors|] == errors;
    }

    method Clear()
      modifies this
      ensures View() == Log([], map[])
    {
      errors, errorCounts := [], map[];
    }
  }

  // ----- The key -----

  /** One type followed by the separator is a prefix of the other. */
  predicate Overlaps(k1: string, k2: string) {
    k1 + ":" <= k2 || k2 + ":" <= k1
  }

  predicate Collide(k1: string, m1: string, k2: string, m2: string) {
    Key(k1, m1) == Key(k2, m2)
  }

  /** Two errors share a key only if they are the same error or their types overlap. */
  lemma KeyIsInjective(k1: string, m1: string, k2: string, m2: string)
    requires Collide(k1, m1, k2, m2)
    ensures k1 == k2 ==> m1 == m2
    ensures k1 != k2 ==> Overlaps(k1, k2)
  {
    var s := Key(k1, m1);
    assert k1 == s[..|k1|] && k2 == s[..|k2|];
    assert m1 == s[|k1| + 1..] && m2 == s[|k2| + 1..];
    assert s[|k1|] == ':' && s[|k2|] == ':';
    if |k1| < |k2| {
      assert k2[..|k1| + 1] == s[..|k1| + 1] == k1 + ":";
    } else if |k2| < |k1| {
      assert k1[..|k2| + 1] == s[..|k2| + 1] == k2 + ":";
    }
  }

  /** Two types can share a counter exactly if they overlap. */
  lemma KeysCollideExactly(k1: string, k2: string)
    requires k1 != k2
    ensures (exists m1, m2 :: Collide(k1, m1, k2, m2)) <==> Overlaps(k1, k2)
  {
    if m1, m2 :| Collide(k1, m1, k2, m2) {
      KeyIsInjective(k1, m1, k2, m2);
    }
    if k1 + ":" <= k2 {
      var m1 := CommonKey(k1, k2, "");
    } else if k2 + ":" <= k1 {
      var m2 := CommonKey(k2, k1, "");
      assert Collide(k1, "", k2, m2);
    }
  }

  /** Every message of the longer type has a counterpart of the shorter one. */
  lemma CommonKey(k1: string, k2: string, m2: string) returns (m1: string)
    requires k1 + ":" <= k2
    ensures Collide(k1, m1, k2, m2)
  {
    m1 := k2[|k1| + 1..] + ":" + m2;
    assert k2 == k1 + ":" + k2[|k1| + 1..];
    assert Key(k1, m1) == Key(k2, m2);
  }
}
