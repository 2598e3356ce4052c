// The tunnel's buffer pool as a value: a bounded channel of buffers, and a
// ticket for every buffer it ever handed out.
module BufferPool {
  import opened Chains

  /** The i-th Get handed out `got[i]`; the tickets in `back` have been given back. */
  datatype Pool<T> = Pool(free: seq<T>, got: seq<T>, back: set<int>)

  /**
   * `spare` is the buffer that is allocated if the channel is empty. A buffer
   * that comes back was handed out under some ticket, or it is foreign.
   */
  datatype PoolOp<T> = Get(spare: T) | GiveBack(ticket: nat) | Donate(buf: T)

  ghost function Put<T>(max: nat, free: seq<T>, buf: T): seq<T> {
    if |free| < max then free + [buf] else free
  }

  ghost function Do<T>(max: nat, p: Pool<T>, op: PoolOp<T>): Pool<T> {
    match op
    case Get(spare) =>
      if p.free != [] then p.(free := p.free[1..], got := p.got + [p.free[0]]) else p.(got := p.got + [spare])
    case GiveBack(i) => if i < |p.got| then p.(free := Put(max, p.free, p.got[i]), back := p.back + {i}) else p
    case Donate(buf) => p.(free := Put(max, p.free, buf))
  }

  // ----- Who uses what -----

  /** The buffer of this ticket is in use: handed out and not given back. */
  ghost predicate Holds<T>(p: Pool<T>, i: int) {
    0 <= i < |p.got| && i !in p.back
  }

  ghost predicate HeldBySome<T>(p: Pool<T>, buf: T) {
    exists i :: Holds(p, i) && p.got[i] == buf
  }

  /** No buffer has two users: the pooled ones and those in use are all different. */
  ghost predicate Apart<T>(p: Pool<T>) {
    && Distinct(p.free)
    && (forall i :: Holds(p, i) ==> p.got[i] !in p.free)
    && (forall i, j :: Holds(p, i) && Holds(p, j) && i != j ==> p.got[i] != p.got[j])
  }

  ghost predicate Known<T>(p: Pool<T>) {
    forall i :: i in p.back ==> 0 <= i < |p.got|
  }

  /** A buffer that is allocated is new. */
  ghost predicate Fresh<T>(p: Pool<T>, op: PoolOp<T>) {
    op.Get? && p.free == [] ==> op.spare !in p.got
  }

  /**
   * There is room for a buffer that comes back for the second time, or that
   * the pool never handed out, and that buffer is pooled or in use.
   */
  ghost predicate Breaks<T>(max: nat, p: Pool<T>, op: PoolOp<T>) {
    && |p.free| < max
    && match op
       case Get(_) => false
       case GiveBack(i) => i in p.back && i < |p.got| && (p.got[i] in p.free || HeldBySome(p, p.got[i]))
       case Donate(buf) => buf in p.free || HeldBySome(p, buf)
  }

  lemma DistinctSnoc<T>(s: seq<T>, x: T)
    requires Distinct(s)
    ensures Distinct(s + [x]) <==> x !in s
  {
    if i :| 0 <= i < |s| && s[i] == x {
      assert (s + [x])[i] == (s + [x])[|s|];
    }
  }

  lemma GetApart<T>(max: nat, p: Pool<T>, spare: T)
    requires Apart(p) && Known(p) && (p.free == [] ==> spare !in p.got)
    ensures Apart(Do(max, p, Get(spare)))
  {
    var v := Do(max, p, Get(spare));
    assert forall i :: Holds(v, i) <==> Holds(p, i) || i == |p.got|;
    assert forall i :: Holds(p, i) ==> v.got[i] == p.got[i];
    if p.free != [] {
      assert p.free[0] in p.free;
      assert forall b :: b in p.free[1..] ==> b in p.free && b != p.free[0];
    }
  }

  lemma ReturnApart<T>(max: nat, p: Pool<T>, i: nat)
    requires Apart(p) && Holds(p, i)
    ensures Apart(Do(max, p, GiveBack(i)))
  {
    if |p.free| < max {
      DistinctSnoc(p.free, p.got[i]);
    }
  }

  /** A buffer put back without a ticket that is still out. */
  lemma PutApart<T>(p: Pool<T>, v: Pool<T>, buf: T)
    requires Apart(p) && v == p.(free := p.free + [buf])
    ensures Apart(v) <==> !(buf in p.free || HeldBySome(p, buf))
  {
    DistinctSnoc(p.free, buf);
    if i :| Holds(p, i) && p.got[i] == buf {
      assert Holds(v, i) && v.got[i] == v.free[|p.free|];
    }
  }

  /** One operation keeps the users apart exactly if it does not break them. */
  lemma ApartStep<T>(max: nat, p: Pool<T>, op: PoolOp<T>)
    requires Apart(p) && Known(p) && Fresh(p, op)
    ensures Apart(Do(max, p, op)) <==> !Breaks(max, p, op)
    ensures Known(Do(max, p, op))
  {
    match op
    case Get(spare) => GetApart(max, p, spare);
    case GiveBack(i) =>
      if Holds(p, i) {
        ReturnApart(max, p, i);
      } else if i < |p.got| {
        assert p.back + {i} == p.back;
        PutApart(p, p.(free := p.free + [p.got[i]]), p.got[i]);
      }
    case Donate(buf) => PutApart(p, p.(free := p.free + [buf]), buf);
  }

  // ----- Runs -----

  ghost function RunPool<T>(max: nat, p: Pool<T>, ops: seq<PoolOp<T>>): Pool<T> {
    if ops == [] then p else Do(max, RunPool(max, p, ops[..|ops| - 1]), ops[|ops| - 1])
  }

  /** Every buffer allocated in the run is new. */
  ghost predicate FreshRun<T>(max: nat, p: Pool<T>, ops: seq<PoolOp<T>>) {
    ops == [] || (FreshRun(max, p, ops[..|ops| - 1]) && Fresh(RunPool(max, p, ops[..|ops| - 1]), ops[|ops| - 1]))
  }

  /** No operation of the run breaks the pool. */
  ghost predicate NeverBreaks<T>(max: nat, p: Pool<T>, ops: seq<PoolOp<T>>) {
    ops == []
    || (NeverBreaks(max, p, ops[..|ops| - 1]) && !Breaks(max, RunPool(max, p, ops[..|ops| - 1]), ops[|ops| - 1]))
  }

  /** No buffer has two users at any point of the run. */
  ghost predicate AlwaysApart<T>(max: nat, p: Pool<T>, ops: seq<PoolOp<T>>) {
    Apart(RunPool(max, p, ops)) && (ops == [] || AlwaysApart(max, p, ops[..|ops| - 1]))
  }

  /** No buffer has two users at any point of an interleaving exactly if none of its operations breaks that. */
  lemma {:induction false} ApartExactly<T>(max: nat, p: Pool<T>, ops: seq<PoolOp<T>>)
    requires Apart(p) && Known(p) && FreshRun(max, p, ops)
    ensures AlwaysApart(max, p, ops) <==> NeverBreaks(max, p, ops)
    ensures Known(RunPool(max, p, ops))
  {
    if ops != [] {
      var g, op := ops[..|ops| - 1], ops[|ops| - 1];
      var q := RunPool(max, p, g);
      ApartExactly(max, p, g);
      KnownStep(max, q, op);
      if Apart(q) {
        ApartStep(max, q, op);
      }
    }
  }

  lemma KnownStep<T>(max: nat, p: Pool<T>, op: PoolOp<T>)
    requires Known(p)
    ensures Known(Do(max, p, op))
  {
  }

  /** Every ticket is given back at most once, and nothing foreign is. */
  ghost predicate SingleReturns<T>(max: nat, p: Pool<T>, ops: seq<PoolOp<T>>) {
    ops == []
    || (&& SingleReturns(max, p, ops[..|ops| - 1])
        && match ops[|ops| - 1]
           case Get(_) => true
           case GiveBack(i) => Holds(RunPool(max, p, ops[..|ops| - 1]), i)
           case Donate(_) => false)
  }

  lemma {:induction false} SingleReturnsNeverBreak<T>(max: nat, p: Pool<T>, ops: seq<PoolOp<T>>)
    requires SingleReturns(max, p, ops)
    ensures NeverBreaks(max, p, ops)
  {
    if ops != [] {
      SingleReturnsNeverBreak(max, p, ops[..|ops| - 1]);
    }
  }

  // ----- What breaking means -----

  /** Two users of one buffer. */
  ghost predicate TwoUsers<T>(p: Pool<T>) {
    exists i, j :: Holds(p, i) && Holds(p, j) && i != j && p.got[i] == p.got[j]
  }

  /** The pool after n more Gets, all served from the channel. */
  function Drained<T>(p: Pool<T>, n: nat): Pool<T>
    requires n <= |p.free|
  {
    Pool(p.free[n..], p.got + p.free[..n], p.back)
  }

  lemma {:induction false} DrainedIsGets<T>(max: nat, p: Pool<T>, n: nat, spare: T)
    requires n <= |p.free|
    ensures RunPool(max, p, seq(n, _ => Get(spare))) == Drained(p, n)
    decreases n
  {
    var gets := seq(n, _ => Get(spare));
    if n == 0 {
      assert Drained(p, 0) == p;
    } else {
      assert gets[..n - 1] == seq(n - 1, _ => Get(spare));
      DrainedIsGets(max, p, n - 1, spare);
      assert p.free[n - 1..][1..] == p.free[n..] && p.free[..n - 1] + [p.free[n - 1]] == p.free[..n];
    }
  }

  lemma ApartDrained<T>(p: Pool<T>, n: nat)
    requires Apart(p) && Known(p) && n <= |p.free|
    ensures !TwoUsers(Drained(p, n))
  {
    var v := Drained(p, n);
    forall i, j | Holds(v, i) && Holds(v, j) && i != j
      ensures v.got[i] != v.got[j]
    {
      var k := |p.got|;
      assert i >= k ==> v.got[i] == p.free[i - k];
      assert j >= k ==> v.got[j] == p.free[j - k];
      assert i < k ==> Holds(p, i);
      assert j < k ==> Holds(p, j);
    }
  }

  /** The users are apart exactly if no number of further Gets hands out a buffer that is still in use. */
  lemma ApartMeans<T>(p: Pool<T>)
    requires Known(p)
    ensures Apart(p) <==> forall n :: 0 <= n <= |p.free| ==> !TwoUsers(Drained(p, n))
  {
    if Apart(p) {
      forall n | 0 <= n <= |p.free|
        ensures !TwoUsers(Drained(p, n))
      {
        ApartDrained(p, n);
      }
    } else {
      var v, k := Drained(p, |p.free|), |p.got|;
      assert forall i :: Holds(p, i) ==> Holds(v, i) && v.got[i] == p.got[i];
      assert forall x :: k <= x < |v.got| ==> Holds(v, x) && v.got[x] == p.free[x - k];
      if i, j :| 0 <= i < j < |p.free| && p.free[i] == p.free[j] {
        assert Holds(v, k + i) && v.got[k + i] == p.free[i];
        assert Holds(v, k + j) && v.got[k + j] == p.free[j];
      } else if i :| Holds(p, i) && p.got[i] in p.free {
        var j :| 0 <= j < |p.free| && p.free[j] == p.got[i];
        assert Holds(v, k + j) && v.got[k + j] == p.free[j];
      }
      assert TwoUsers(v);
    }
  }

  // ----- Conservation -----

  ghost function HeldTickets<T>(p: Pool<T>): set<int> {
    set i | 0 <= i < |p.got| && Holds(p, i)
  }

  /** Within the capacity, and no buffer is lost below it. */
  ghost predicate Conserved<T>(max: nat, p: Pool<T>) {
    Known(p) && |p.free| <= max <= |p.free| + |HeldTickets(p)|
  }

  lemma HeldAfterGet<T>(p: Pool<T>, v: Pool<T>)
    requires Known(p) && |v.got| == |p.got| + 1 && v.back == p.back
    ensures |HeldTickets(v)| == |HeldTickets(p)| + 1
  {
    assert HeldTickets(v) == HeldTickets(p) + {|p.got|};
  }

  lemma HeldAfterReturn<T>(p: Pool<T>, v: Pool<T>, i: nat)
    requires v.got == p.got && v.back == p.back + {i}
    ensures |HeldTickets(v)| == |HeldTickets(p)| - (if Holds(p, i) then 1 else 0)
  {
    assert HeldTickets(v) == HeldTickets(p) - {i};
  }

  lemma ConservedStep<T>(max: nat, p: Pool<T>, op: PoolOp<T>)
    requires Conserved(max, p)
    ensures Conserved(max, Do(max, p, op))
  {
    var v := Do(max, p, op);
    KnownStep(max, p, op);
    match op
    case Get(_) => HeldAfterGet(p, v);
    case GiveBack(i) =>
      if i < |p.got| {
        HeldAfterReturn(p, v, i);
      }
    case Donate(_) => assert HeldTickets(v) == HeldTickets(p);
  }

  /**
   * In every interleaving, whatever is returned and however often, no buffer
   * is lost below the capacity and the channel is full again when all tickets
   * are back; if each buffer obtained is returned at most once no buffer ever
   * has two users.
   */
  lemma {:induction false} PoolConserves<T>(max: nat, p: Pool<T>, ops: seq<PoolOp<T>>)
    requires Conserved(max, p)
    ensures var q := RunPool(max, p, ops);
            Conserved(max, q) && (HeldTickets(q) == {} ==> |q.free| == max)
    ensures Apart(p) && FreshRun(max, p, ops) && SingleReturns(max, p, ops) ==> AlwaysApart(max, p, ops)
  {
    if ops != [] {
      PoolConserves(max, p, ops[..|ops| - 1]);
      ConservedStep(max, RunPool(max, p, ops[..|ops| - 1]), ops[|ops| - 1]);
    }
    if Apart(p) && FreshRun(max, p, ops) && SingleReturns(max, p, ops) {
      SingleReturnsNeverBreak(max, p, ops);
      ApartExactly(max, p, ops);
    }
  }

  // ----- Two histories -----

  lemma RunSnoc<T>(max: nat, p: Pool<T>, ops: seq<PoolOp<T>>, op: PoolOp<T>)
    ensures RunPool(max, p, ops + [op]) == Do(max, RunPool(max, p, ops), op)
  {
    assert (ops + [op])[..|ops|] == ops;
  }

  /** A buffer is obtained, given back, obtained again, and then given back once more by its first user. */
  lemma SecondReturnBreaks<T>(a: T, ops: seq<PoolOp<T>>)
    requires ops == [Get(a), GiveBack(0), Get(a)]
    ensures var p := RunPool(1, Pool([a], [], {}), ops);
            && Apart(p) && Breaks(1, p, GiveBack(0))
            && TwoUsers(RunPool(1, p, [GiveBack(0), Get(a)]))
  {
    var p := Pool([a], [], {});
    assert ops == [] + [Get(a)] + [GiveBack(0)] + [Get(a)];
    RunSnoc(1, p, [], Get(a));
    RunSnoc(1, p, [] + [Get(a)], GiveBack(0));
    RunSnoc(1, p, [] + [Get(a)] + [GiveBack(0)], Get(a));
    var q := Pool([], [a, a], {0});
    assert RunPool(1, p, ops) == q && Holds(q, 1);
    assert [GiveBack(0), Get(a)] == [] + [GiveBack(0)] + [Get(a)];
    RunSnoc(1, q, [], GiveBack(0));
    RunSnoc(1, q, [] + [GiveBack(0)], Get(a));
    var v := Pool([], [a, a, a], {0});
    assert RunPool(1, q, [GiveBack(0), Get(a)]) == v && Holds(v, 1) && Holds(v, 2);
  }

  /** A second return is harmless, room or not, if the first one was dropped and nobody has the buffer. */
  lemma SecondReturnHarmless<T>(a: T, b: T, ops: seq<PoolOp<T>>)
    requires a != b && ops == [Get(b), Get(b), GiveBack(0), GiveBack(1), Get(b)]
    ensures var p := RunPool(1, Pool([a], [], {}), ops);
            1 in p.back && p.free == [] && Apart(Do(1, p, GiveBack(1)))
  {
    var p := Pool([a], [], {});
    var one := [] + [Get(b)];
    var two := one + [Get(b)];
    var three := two + [GiveBack(0)];
    var four := three + [GiveBack(1)];
    assert ops == four + [Get(b)];
    RunSnoc(1, p, [], Get(b));
    RunSnoc(1, p, one, Get(b));
    RunSnoc(1, p, two, GiveBack(0));
    RunSnoc(1, p, three, GiveBack(1));
    RunSnoc(1, p, four, Get(b));
    var q := Pool([], [a, b, a], {0, 1});
    assert RunPool(1, p, ops) == q;
    assert forall i :: Holds(q, i) <==> i == 2;
  }
}
