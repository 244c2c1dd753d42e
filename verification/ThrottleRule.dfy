/** The throttling rule as msocket/msocket-internal.h:102-107 documents it, over the times of the
    marks alone, and when the code, which only counts, agrees with it. */
module ThrottleRule {
  import opened Common
  import opened Throttle

  // ----- Times -----------------------------------------------------------------------------

  /** What the clock said to the operation about addr. */
  function Reading(op: Op, addr: nat): Option<int> {
    match op
    case Bad(a, now) => if a == addr then Some(now) else None
    case Expire(clock) => Some(clock(addr))
  }

  /** The clock does not go backwards. */
  ghost predicate Ordered(ops: seq<Op>, addr: nat) {
    forall i: nat, j: nat :: i < j < |ops| && Reading(ops[i], addr).Some? && Reading(ops[j], addr).Some? ==>
      Reading(ops[i], addr).value <= Reading(ops[j], addr).value
  }

  /** It is t by now. */
  ghost predicate By(ops: seq<Op>, addr: nat, t: int) {
    forall i: nat :: i < |ops| && Reading(ops[i], addr).Some? ==> Reading(ops[i], addr).value <= t
  }

  /** When addr was marked. */
  ghost function Times(ops: seq<Op>, addr: nat): seq<int> {
    if ops == [] then []
    else
      var op := ops[|ops| - 1];
      Times(ops[..|ops| - 1], addr) + if op.Bad? && op.addr == addr then [op.now] else []
  }

  lemma {:induction false} TimesOfBoth(a: seq<Op>, b: seq<Op>, addr: nat)
    ensures Times(a + b, addr) == Times(a, addr) + Times(b, addr)
  {
    if b == [] {
      assert a + b == a && Times(a, addr) + [] == Times(a, addr);
    } else {
      var k := |b| - 1;
      assert (a + b)[..|a + b| - 1] == a + b[..k];
      TimesOfBoth(a, b[..k], addr);
    }
  }

  lemma {:induction false} TimesAreCounted(ops: seq<Op>, addr: nat, i: nat)
    requires i <= |ops|
    ensures |Times(ops[i..], addr)| == MarksFrom(ops, addr, i)
  {
    if i == |ops| {
      assert ops[i..] == [];
    } else {
      var k := |ops| - 1;
      assert ops[i..][..|ops[i..]| - 1] == ops[..k][i..];
      TimesAreCounted(ops[..k], addr, i);
    }
  }

  lemma {:induction false} LastTime(ops: seq<Op>, addr: nat)
    ensures var ts := Times(ops, addr);
            LastBad(ops, addr) == if ts == [] then None else Some(ts[|ts| - 1])
  {
    if ops == [] {
    } else {
      LastTime(ops[..|ops| - 1], addr);
    }
  }

  lemma {:induction false} TimesFrom(ops: seq<Op>, addr: nat, r: int)
    requires forall i: nat :: i < |ops| && Reading(ops[i], addr).Some? ==> r <= Reading(ops[i], addr).value
    ensures forall x :: x in Times(ops, addr) ==> r <= x
  {
    if ops == [] {
    } else {
      var k := |ops| - 1;
      assert forall i: nat :: i < k ==> ops[..k][i] == ops[i];
      assert Reading(ops[k], addr).Some? ==> r <= Reading(ops[k], addr).value;
      TimesFrom(ops[..k], addr, r);
    }
  }

  ghost predicate Sorted(ts: seq<int>) {
    forall i: nat, j: nat :: i < j < |ts| ==> ts[i] <= ts[j]
  }

  lemma {:induction false} TimesBy(ops: seq<Op>, addr: nat, t: int)
    requires By(ops, addr, t)
    ensures forall x :: x in Times(ops, addr) ==> x <= t
  {
    if ops == [] {
    } else {
      var k := |ops| - 1;
      assert By(ops[..k], addr, t) by { assert forall i: nat :: i < k ==> ops[..k][i] == ops[i]; }
      assert Reading(ops[k], addr).Some? ==> Reading(ops[k], addr).value <= t;
      TimesBy(ops[..k], addr, t);
    }
  }

  lemma {:induction false} TimesAreSorted(ops: seq<Op>, addr: nat)
    requires Ordered(ops, addr)
    ensures Sorted(Times(ops, addr))
  {
    if ops == [] {
    } else {
      var k := |ops| - 1;
      TimesAreSorted(ops[..k], addr);
      if ops[k].Bad? && ops[k].addr == addr {
        TimesBy(ops[..k], addr, ops[k].now);
        SortedSnoc(Times(ops[..k], addr), ops[k].now);
      }
    }
  }

  lemma SortedSnoc(ts: seq<int>, x: int)
    requires Sorted(ts) && forall y :: y in ts ==> y <= x
    ensures Sorted(ts + [x])
  {
    assert forall i: nat :: i < |ts| ==> ts[i] in ts;
  }

  // ----- The documented rule ---------------------------------------------------------------

  /** The five marks up to the e-th came within half an hour. */
  predicate Burst(ts: seq<int>, e: nat) {
    5 <= e <= |ts| && ts[e - 1] - ts[e - 5] <= 1800
  }

  /** From the e-th mark to the time t, no mark was awaited for more than half an hour. */
  ghost predicate Unbroken(ts: seq<int>, e: nat, t: int) {
    && (forall j: nat :: 0 < e <= j < |ts| ==> ts[j] - ts[j - 1] <= 1800)
    && (ts != [] ==> t - ts[|ts| - 1] <= 1800)
  }

  predicate HasBurst(ts: seq<int>) {
    exists e: nat :: e <= |ts| && Burst(ts, e)
  }

  /** Five bad attempts in 30 minutes throttle an address, until 30 minutes after its most recent one.
      Only the times of the attempts and the present time t count. */
  ghost predicate Documented(ts: seq<int>, t: int) {
    exists e: nat :: Burst(ts, e) && Unbroken(ts, e, t)
  }

  // ----- Passes and marks ------------------------------------------------------------------

  lemma {:induction false} LatestSince(ops: seq<Op>, addr: nat, p: nat, i: nat)
    requires Ordered(ops, addr) && p < i <= |ops| && ops[p].Bad? && ops[p].addr == addr
    ensures LastBad(ops[..i], addr).Some? && ops[p].now <= LastBad(ops[..i], addr).value
    decreases i
  {
    assert ops[..i][..i - 1] == ops[..i - 1];
    if i - 1 > p {
      LatestSince(ops, addr, p, i - 1);
      assert Reading(ops[p], addr) == Some(ops[p].now);
      if ops[i - 1].Bad? && ops[i - 1].addr == addr {
        assert Reading(ops[i - 1], addr) == Some(ops[i - 1].now);
      }
    }
  }

  /** A pass within half an hour of a mark does not find the address lapsed. */
  lemma NoLapseSoon(ops: seq<Op>, addr: nat, p: nat, i: nat)
    requires Ordered(ops, addr) && p < i < |ops| && ops[p].Bad? && ops[p].addr == addr
    requires Reading(ops[i], addr).Some? ==> Reading(ops[i], addr).value <= ops[p].now + EXPIRE
    ensures !Lapsed(ops, addr, i)
  {
    LatestSince(ops, addr, p, i);
  }

  /** No pass between two marks at most half an hour apart does. */
  lemma NoLapseBetween(ops: seq<Op>, addr: nat, p: nat, i: nat, q: nat)
    requires Ordered(ops, addr) && p < i < q < |ops|
    requires ops[p].Bad? && ops[p].addr == addr && ops[q].Bad? && ops[q].addr == addr
    requires ops[q].now - ops[p].now <= EXPIRE
    ensures !Lapsed(ops, addr, i)
  {
    assert Reading(ops[q], addr) == Some(ops[q].now);
    NoLapseSoon(ops, addr, p, i);
  }

  /** The marks before the last lapse of addr are cut off by more than half an hour: from the marks
      after it, and from the present. */
  lemma CutOff(ops: seq<Op>, addr: nat, i: nat, t: int)
    requires Ordered(ops, addr) && By(ops, addr, t) && SinceLapse(ops, addr, i) && i > 0
    ensures var a, b := Times(ops[..i], addr), Times(ops[i..], addr);
            && a != [] && t - a[|a| - 1] > EXPIRE
            && (b != [] ==> b[0] - a[|a| - 1] > EXPIRE)
  {
    var a, b, r := Times(ops[..i], addr), Times(ops[i..], addr), ops[i - 1].clock(addr);
    assert Lapsed(ops, addr, i - 1) && Reading(ops[i - 1], addr) == Some(r);
    assert ops[..i][..i - 1] == ops[..i - 1];
    LastTime(ops[..i], addr);
    assert forall j: nat :: j < |ops[i..]| ==> ops[i..][j] == ops[i + j];
    TimesFrom(ops[i..], addr, r);
    assert b != [] ==> b[0] in b;
  }

  lemma EndIsBroken(ts: seq<int>, t: int, e: nat)
    requires ts != [] && t - ts[|ts| - 1] > EXPIRE
    ensures !Unbroken(ts, e, t)
  {
  }

  lemma GapIsBroken(ts: seq<int>, t: int, e: nat, k: nat)
    requires 0 < e <= k < |ts| && ts[k] - ts[k - 1] > EXPIRE
    ensures !Unbroken(ts, e, t)
  {
  }

  lemma GapIsNoBurst(ts: seq<int>, e: nat, k: nat)
    requires Sorted(ts) && AFTER <= e <= |ts| && e - AFTER < k < e && ts[k] - ts[k - 1] > EXPIRE
    ensures !Burst(ts, e)
  {
    assert ts[e - AFTER] <= ts[k - 1] && ts[k] <= ts[e - 1];
  }

  lemma BurstIsLater(a: seq<int>, b: seq<int>, t: int, e: nat)
    requires Sorted(a + b) && a != [] && t - a[|a| - 1] > EXPIRE && (b != [] ==> b[0] - a[|a| - 1] > EXPIRE)
    requires Burst(a + b, e) && Unbroken(a + b, e, t)
    ensures e - AFTER >= |a|
  {
    hide Unbroken, Sorted;
    var ts, k := a + b, |a|;
    assert ts[k - 1] == a[k - 1];
    if b == [] {
      EndIsBroken(ts, t, e);
    } else {
      assert ts[k] == b[0];
      if e <= k {
        GapIsBroken(ts, t, e, k);
      } else if e - AFTER < k {
        GapIsNoBurst(ts, e, k);
      }
    }
  }

  /** Marks that are cut off do not matter to the rule. */
  lemma OnlyLaterMarksMatter(a: seq<int>, b: seq<int>, t: int)
    requires Sorted(a + b)
    requires a != [] ==> t - a[|a| - 1] > EXPIRE && (b != [] ==> b[0] - a[|a| - 1] > EXPIRE)
    ensures Documented(a + b, t) <==> Documented(b, t)
  {
    var ts, k := a + b, |a|;
    if a == [] {
      assert ts == b;
    } else {
      if e: nat :| Burst(ts, e) && Unbroken(ts, e, t) {
        BurstIsLater(a, b, t, e);
        ShiftedBurst(a, b, t, e - k);
      }
      if e: nat :| Burst(b, e) && Unbroken(b, e, t) {
        ShiftedBurst(a, b, t, e);
      }
    }
  }

  lemma ShiftedBurst(a: seq<int>, b: seq<int>, t: int, e: nat)
    requires AFTER <= e <= |b|
    ensures Burst(a + b, e + |a|) == Burst(b, e) && Unbroken(a + b, e + |a|, t) == Unbroken(b, e, t)
  {
    var ts, k := a + b, |a|;
    assert ts[e + k - 1] == b[e - 1] && ts[e + k - AFTER] == b[e - AFTER] && ts[|ts| - 1] == b[|b| - 1];
    if Unbroken(ts, e + k, t) { ShiftedDown(a, b, t, e); }
  }

  lemma ShiftedDown(a: seq<int>, b: seq<int>, t: int, e: nat)
    requires 0 < e <= |b| && Unbroken(a + b, e + |a|, t)
    ensures Unbroken(b, e, t)
  {
    var ts, k := a + b, |a|;
    assert ts[|ts| - 1] == b[|b| - 1];
    forall j: nat | e <= j < |b| ensures b[j] - b[j - 1] <= EXPIRE {
      var i := j + k;
      assert ts[i] == b[j] && ts[i - 1] == b[j - 1];
    }
  }

  // ----- Code and rule ---------------------------------------------------------------------

  /** The code throttles addr exactly when the rule does at the time t. */
  ghost predicate Agrees(ops: seq<Op>, addr: nat, t: int) {
    Offenses(After(ops), addr) >= AFTER <==> Documented(Times(ops, addr), t)
  }

  lemma RuleSinceLapse(ops: seq<Op>, addr: nat, i: nat, t: int)
    requires Ordered(ops, addr) && By(ops, addr, t) && SinceLapse(ops, addr, i)
    ensures i <= |ops| && (Documented(Times(ops, addr), t) <==> Documented(Times(ops[i..], addr), t))
  {
    hide Ordered, By, Documented, Sorted;
    var a, b := Times(ops[..i], addr), Times(ops[i..], addr);
    TimesOfBoth(ops[..i], ops[i..], addr);
    assert ops[..i] + ops[i..] == ops;
    TimesAreSorted(ops, addr);
    if i > 0 {
      CutOff(ops, addr, i, t);
    } else {
      assert ops[..i] == [];
    }
    OnlyLaterMarksMatter(a, b, t);
  }

  /** In any run, the code agrees with the rule exactly when the rule, asked about the marks since the
      last lapse alone, agrees that they are or are not enough. */
  lemma AgreesExactly(ops: seq<Op>, addr: nat, i: nat, t: int)
    requires Ordered(ops, addr) && By(ops, addr, t) && SinceLapse(ops, addr, i) && addr != 0
    ensures i <= |ops|
    ensures Agrees(ops, addr, t) <==>
            (MarksFrom(ops, addr, i) % WIDTH >= AFTER <==> Documented(Times(ops[i..], addr), t))
  {
    hide Ordered, By, Documented, SinceLapse;
    RuleSinceLapse(ops, addr, i, t);
    ThrottledExactly(ops, addr, i);
  }

  lemma DocumentedMeansEnough(ts: seq<int>, t: int)
    requires Documented(ts, t)
    ensures |ts| >= AFTER
  {
  }

  lemma FewerSinceLapse(ops: seq<Op>, addr: nat, i: nat)
    requires i <= |ops|
    ensures MarksFrom(ops, addr, i) <= MarksFrom(ops, addr, 0)
  {
    TimesAreCounted(ops, addr, i);
    TimesAreCounted(ops, addr, 0);
    TimesOfBoth(ops[..i], ops[i..], addr);
    assert ops[..i] + ops[i..] == ops && ops[0..] == ops;
  }

  /** Whom the rule throttles the code throttles, as long as 32 bits hold the count. */
  lemma DocumentedIsThrottled(ops: seq<Op>, addr: nat, t: int)
    requires Ordered(ops, addr) && By(ops, addr, t) && addr != 0 && MarksFrom(ops, addr, 0) < WIDTH
    requires Documented(Times(ops, addr), t)
    ensures Offenses(After(ops), addr) >= AFTER
  {
    hide Ordered, By, Documented, SinceLapse;
    var i := LastLapse(ops, addr);
    RuleSinceLapse(ops, addr, i, t);
    DocumentedMeansEnough(Times(ops[i..], addr), t);
    TimesAreCounted(ops, addr, i);
    FewerSinceLapse(ops, addr, i);
    ThrottledExactly(ops, addr, i);
  }

  lemma LateMarks(ops: seq<Op>, addr: nat, p: nat)
    requires Ordered(ops, addr) && p < |ops| && ops[p].Bad? && ops[p].addr == addr
    ensures var ts, n := Times(ops, addr), MarksFrom(ops, addr, p);
            n <= |ts| && forall j: nat :: |ts| - n <= j < |ts| ==> ts[j] >= ops[p].now
  {
    hide Ordered, Times, MarksFrom;
    TimesAreCounted(ops, addr, p);
    TimesSplit(ops, addr, p);
    LateTimes(ops, addr, p);
    TailFrom(Times(ops[..p], addr), Times(ops[p..], addr), ops[p].now);
  }

  lemma TimesSplit(ops: seq<Op>, addr: nat, p: nat)
    requires p <= |ops|
    ensures Times(ops, addr) == Times(ops[..p], addr) + Times(ops[p..], addr)
  {
    TimesOfBoth(ops[..p], ops[p..], addr);
    assert ops[..p] + ops[p..] == ops;
  }

  lemma LateTimes(ops: seq<Op>, addr: nat, p: nat)
    requires Ordered(ops, addr) && p < |ops| && ops[p].Bad? && ops[p].addr == addr
    ensures forall x :: x in Times(ops[p..], addr) ==> ops[p].now <= x
  {
    TimesFrom(ops[p..], addr, ops[p].now);
  }

  lemma TailFrom(a: seq<int>, b: seq<int>, r: int)
    requires forall x :: x in b ==> r <= x
    ensures forall j: nat :: |a| <= j < |a + b| ==> (a + b)[j] >= r
  {
    forall j: nat | |a| <= j < |a + b| ensures (a + b)[j] >= r {
      assert (a + b)[j] == b[j - |a|] && b[j - |a|] in b;
    }
  }

  /** In particular: at least five marks from the p-th operation on, the latest at most half an hour
      after the first of them and not more than half an hour ago. */
  lemma FiveMarksThrottle(ops: seq<Op>, addr: nat, p: nat, t: int)
    requires Ordered(ops, addr) && By(ops, addr, t) && addr != 0 && MarksFrom(ops, addr, 0) < WIDTH
    requires p < |ops| && ops[p].Bad? && ops[p].addr == addr && MarksFrom(ops, addr, p) >= AFTER
    requires LastBad(ops, addr).Some? && LastBad(ops, addr).value - ops[p].now <= EXPIRE
    requires t - LastBad(ops, addr).value <= EXPIRE
    ensures Offenses(After(ops), addr) >= AFTER
  {
    LastTime(ops, addr);
    LateMarks(ops, addr, p);
    hide Ordered, By, Times, MarksFrom, LastBad;
    var ts := Times(ops, addr);
    assert Burst(ts, |ts|) && Unbroken(ts, |ts|, t);
    DocumentedIsThrottled(ops, addr, t);
  }

  /** A throttle stays while no operation comes more than half an hour after the latest mark. */
  lemma ThrottleStays(before: seq<Op>, later: seq<Op>, addr: nat)
    requires Offenses(After(before), addr) >= AFTER && Offenses(After(before), addr) + |later| < WIDTH
    requires forall i: nat :: |before| <= i < |before + later| ==>
               var latest, reading := LastBad((before + later)[..i], addr), Reading((before + later)[i], addr);
               latest.Some? && reading.Some? ==> reading.value <= latest.value + EXPIRE
    ensures Offenses(After(before + later), addr) >= AFTER
  {
    hide After, LastBad;
    StaysThrottledOnceThrottled(before, later, addr);
  }

  /** So it lasts at least half an hour from any mark, whatever passes come. */
  lemma ThrottleLasts(before: seq<Op>, later: seq<Op>, addr: nat)
    requires Ordered(before + later, addr) && Offenses(After(before), addr) >= AFTER
    requires LastBad(before, addr).Some? && By(later, addr, LastBad(before, addr).value + EXPIRE)
    requires Offenses(After(before), addr) + |later| < WIDTH
    ensures Offenses(After(before + later), addr) >= AFTER
  {
    var ops := before + later;
    var p := LatestMark(before, addr);
    hide After, LastBad, Ordered, Lapsed;
    assert ops[p] == before[p];
    forall i: nat | |before| <= i < |ops| ensures !Lapsed(ops, addr, i) {
      assert ops[i] == later[i - |before|];
      NoLapseSoon(ops, addr, p, i);
    }
    StaysThrottledOnceThrottled(before, later, addr);
  }

  lemma {:induction false} LatestMark(ops: seq<Op>, addr: nat) returns (p: nat)
    requires LastBad(ops, addr).Some?
    ensures p < |ops| && ops[p] == Bad(addr, LastBad(ops, addr).value)
  {
    var k := |ops| - 1;
    if ops[k].Bad? && ops[k].addr == addr {
      p := k;
    } else {
      p := LatestMark(ops[..k], addr);
    }
  }

  /** Passes came in time: since the last lapse no mark was awaited for more than half an hour, and
      none is now. */
  ghost predicate Prompt(ops: seq<Op>, addr: nat, i: nat, t: int)
    requires i <= |ops|
  {
    Unbroken(Times(ops[i..], addr), 1, t)
  }

  lemma UnbrokenEverywhere(ts: seq<int>, t: int)
    requires Unbroken(ts, 1, t)
    ensures Documented(ts, t) <==> HasBurst(ts)
  {
    if e: nat :| e <= |ts| && Burst(ts, e) {
      assert Unbroken(ts, e, t);
    }
  }

  /** Where passes come in time, the code agrees with the rule exactly when five marks since the last
      lapse mean that some five in a row came within half an hour. */
  lemma PromptAgreement(ops: seq<Op>, addr: nat, i: nat, t: int)
    requires Ordered(ops, addr) && By(ops, addr, t) && SinceLapse(ops, addr, i) && addr != 0
    requires i <= |ops| && Prompt(ops, addr, i, t) && MarksFrom(ops, addr, i) < WIDTH
    ensures Agrees(ops, addr, t) <==>
            (MarksFrom(ops, addr, i) >= AFTER ==> HasBurst(Times(ops[i..], addr)))
  {
    hide Ordered, By, SinceLapse, Agrees, Documented, Unbroken, HasBurst;
    var ts := Times(ops[i..], addr);
    AgreesExactly(ops, addr, i, t);
    UnbrokenEverywhere(ts, t);
    TimesAreCounted(ops, addr, i);
    if Documented(ts, t) { DocumentedMeansEnough(ts, t); }
  }

  /** Five marks since the i-th operation mean that some five in a row came within half an hour. */
  ghost predicate BurstIfFive(ops: seq<Op>, addr: nat, i: nat) {
    i <= |ops| && (MarksFrom(ops, addr, i) >= AFTER ==> HasBurst(Times(ops[i..], addr)))
  }

  /** The same at every moment of a run; t(k) is the time after the first k operations. */
  lemma RunAgreesExactly(ops: seq<Op>, addr: nat, t: nat -> int)
    requires Ordered(ops, addr) && addr != 0 && MarksFrom(ops, addr, 0) < WIDTH
    requires forall k: nat :: k <= |ops| ==> By(ops[..k], addr, t(k))
    requires forall k: nat, i: nat :: k <= |ops| && SinceLapse(ops[..k], addr, i) ==>
               i <= k && Prompt(ops[..k], addr, i, t(k))
    ensures (forall k: nat :: k <= |ops| ==> Agrees(ops[..k], addr, t(k)))
            <==> (forall k: nat, i: nat :: k <= |ops| && SinceLapse(ops[..k], addr, i) ==>
                    BurstIfFive(ops[..k], addr, i))
  {
    hide Ordered, By, SinceLapse, Agrees, Prompt, HasBurst, Times, MarksFrom;
    forall k: nat, i: nat | k <= |ops| && SinceLapse(ops[..k], addr, i)
      ensures Agrees(ops[..k], addr, t(k)) <==> BurstIfFive(ops[..k], addr, i)
    {
      OrderedPrefix(ops, addr, k);
      MarksOfPrefix(ops, addr, k);
      FewerSinceLapse(ops[..k], addr, i);
      PromptAgreement(ops[..k], addr, i, t(k));
    }
    hide BurstIfFive;
    if forall k: nat, i: nat :: k <= |ops| && SinceLapse(ops[..k], addr, i) ==> BurstIfFive(ops[..k], addr, i) {
      forall k: nat | k <= |ops| ensures Agrees(ops[..k], addr, t(k)) {
        var i := LastLapse(ops[..k], addr);
      }
    }
  }

  lemma OrderedPrefix(ops: seq<Op>, addr: nat, k: nat)
    requires Ordered(ops, addr) && k <= |ops|
    ensures Ordered(ops[..k], addr)
  {
  }

  lemma MarksOfPrefix(ops: seq<Op>, addr: nat, k: nat)
    requires k <= |ops|
    ensures MarksFrom(ops[..k], addr, 0) <= MarksFrom(ops, addr, 0)
  {
    assert ops[..k] + ops[k..] == ops;
    MarksOfBoth(ops[..k], ops[k..], addr, 0);
  }

  // ----- Where they differ -----------------------------------------------------------------

  function Slow(addr: nat): seq<Op> {
    [Bad(addr, 0), Bad(addr, 1200), Bad(addr, 2400), Bad(addr, 3600), Bad(addr, 4800)]
  }

  /** Only addr was marked, at the times ts. */
  ghost predicate MarkedAt(ops: seq<Op>, addr: nat, ts: seq<int>) {
    && Times(ops, addr) == ts && |ts| < WIDTH
    && (addr in After(ops) <==> ts != [])
    && (ts != [] ==> After(ops)[addr].offenses == |ts|)
  }

  lemma OneMoreTime(ops: seq<Op>, addr: nat, ts: seq<int>, now: int)
    requires MarkedAt(ops, addr, ts) && |ts| + 1 < WIDTH
    ensures MarkedAt(ops + [Bad(addr, now)], addr, ts + [now])
  {
    assert (ops + [Bad(addr, now)])[..|ops|] == ops;
    assert After(ops + [Bad(addr, now)]) == Marked(After(ops), addr, now);
  }

  lemma NotMarkedYet(addr: nat)
    ensures MarkedAt([], addr, [])
  {
  }

  /** Five marks 20 minutes apart throttle an address, although no five of its marks came within 30
      minutes. */
  lemma SlowMarksThrottle(addr: nat)
    requires addr != 0
    ensures var ops := Slow(addr);
            && Ordered(ops, addr) && By(ops, addr, 4800) && Offenses(After(ops), addr) == AFTER
            && !HasBurst(Times(ops, addr)) && !Documented(Times(ops, addr), 4800)
  {
    var ops := Slow(addr);
    SlowCounts(addr);
    hide Times, After;
    assert forall i: nat :: i < |ops| ==> Reading(ops[i], addr) == Some(1200 * i);
  }

  lemma SlowCounts(addr: nat)
    ensures MarkedAt(Slow(addr), addr, [0, 1200, 2400, 3600, 4800])
  {
    hide MarkedAt;
    var one := [Bad(addr, 0)];
    var two := [Bad(addr, 0), Bad(addr, 1200)];
    var three := [Bad(addr, 0), Bad(addr, 1200), Bad(addr, 2400)];
    var four := [Bad(addr, 0), Bad(addr, 1200), Bad(addr, 2400), Bad(addr, 3600)];
    NotMarkedYet(addr);
    OneMoreTime([], addr, [], 0);
    assert [] + [Bad(addr, 0)] == one && [] + [0] == [0];
    OneMoreTime(one, addr, [0], 1200);
    assert one + [Bad(addr, 1200)] == two && [0] + [1200] == [0, 1200];
    OneMoreTime(two, addr, [0, 1200], 2400);
    assert two + [Bad(addr, 2400)] == three && [0, 1200] + [2400] == [0, 1200, 2400];
    OneMoreTime(three, addr, [0, 1200, 2400], 3600);
    assert three + [Bad(addr, 3600)] == four && [0, 1200, 2400] + [3600] == [0, 1200, 2400, 3600];
    OneMoreTime(four, addr, [0, 1200, 2400, 3600], 4800);
    assert four + [Bad(addr, 4800)] == Slow(addr);
    assert [0, 1200, 2400, 3600] + [4800] == [0, 1200, 2400, 3600, 4800];
  }

  /** Without a pass between them, marks any time apart are counted together. */
  lemma UnseenGapsCount(addr: nat, s: int, t: int)
    requires addr != 0
    ensures Offenses(After([Bad(addr, s), Bad(addr, t)]), addr) == 2
  {
    hide Times, After;
    NotMarkedYet(addr);
    OneMoreTime([], addr, [], s);
    assert [] + [Bad(addr, s)] == [Bad(addr, s)] && [] + [s] == [s];
    OneMoreTime([Bad(addr, s)], addr, [s], t);
    assert [Bad(addr, s)] + [Bad(addr, t)] == [Bad(addr, s), Bad(addr, t)];
  }
}
