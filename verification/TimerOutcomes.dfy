/** Which timers a check runs and a cancellation removes, told by their own fields and the clock. */
module TimerOutcomes {
  import opened Common
  import opened Timers

  lemma {:induction false} InWhere<T>(s: seq<T>, f: nat -> bool, x: T)
    ensures x in Where(s, f) <==> exists i: nat :: i < |s| && s[i] == x && f(i)
  {
    if s == [] {
    } else {
      hide Where;
      var n := |s| - 1;
      var front := s[..n];
      assert s == front + [s[n]];
      InWhere(front, f, x);
      if x in Where(front, f) {
        var i: nat :| i < n && front[i] == x && f(i);
        assert s[i] == x;
      }
      if i: nat :| i < |s| && s[i] == x && f(i) {
        assert i < n ==> front[i] == x;
      }
    }
  }

  /** Of distinct elements, exactly those whose index is selected. */
  lemma AtWhere<T>(s: seq<T>, f: nat -> bool, i: nat)
    requires Distinct(s) && i < |s|
    ensures s[i] in Where(s, f) <==> f(i)
  {
    InWhere(s, f, s[i]);
    hide Where;
    if j: nat :| j < |s| && s[j] == s[i] && f(j) {
      assert j == i;
    }
  }

  lemma {:induction false} InExecutions(ts: seq<Timer>, clock: nat -> int, e: Execution)
    ensures e in Executions(ts, clock) <==>
            exists i: nat :: i < |ts| && ts[i] == e.timer && clock(i) == e.at && clock(i) >= ts[i].run
  {
    if ts == [] {
    } else {
      var n := |ts| - 1;
      var front := ts[..n];
      InExecutions(front, clock, e);
      if e in Executions(front, clock) {
        var i: nat :| i < n && front[i] == e.timer && clock(i) == e.at && clock(i) >= front[i].run;
        assert ts[i] == e.timer;
      }
      if i: nat :| i < |ts| && ts[i] == e.timer && clock(i) == e.at && clock(i) >= ts[i].run {
        assert i < n ==> front[i] == e.timer;
      }
    }
  }

  /** A check looks at the waiting timers in turn: one that is due by the clock at its turn, to the second
      or later, is executed with that time and does not wait any more, any other keeps waiting. */
  lemma CheckOutcome(st: State, clock: nat -> int, i: nat)
    requires Distinct(st.pending) && i < |st.pending|
    ensures var st', t := Apply(st, Checked(clock)), st.pending[i];
            && st'.added == st.added && st'.cancelled == st.cancelled
            && (t in st'.pending <==> clock(i) < t.run)
            && st.ran <= st'.ran
            && (Execution(t, clock(i)) in st'.ran[|st.ran|..] <==> clock(i) >= t.run)
  {
    hide Where, Executions, Distinct;
    var st', t := Apply(st, Checked(clock)), st.pending[i];
    AtWhere(st.pending, Not(Due(st.pending, clock)), i);
    var es := Executions(st.pending, clock);
    assert st'.ran[|st.ran|..] == es;
    InExecutions(st.pending, clock, Execution(t, clock(i)));
    if j: nat :| j < |st.pending| && st.pending[j] == t && clock(j) == clock(i) && clock(j) >= st.pending[j].run {
      assert clock(i) >= t.run;
    }
  }

  /** Nothing else is executed or waits. */
  lemma CheckAddsNothing(st: State, clock: nat -> int)
    ensures var st' := Apply(st, Checked(clock));
            && (forall t :: t in st'.pending ==> t in st.pending)
            && (forall e :: e in st'.ran[|st.ran|..] ==> e.timer in st.pending)
            && |st'.pending| + |st'.ran| == |st.pending| + |st.ran|
  {
    hide Where, Executions;
    var st', f := Apply(st, Checked(clock)), Due(st.pending, clock);
    var es := Executions(st.pending, clock);
    assert st'.ran[|st.ran|..] == es;
    forall t | t in st'.pending ensures t in st.pending { InWhere(st.pending, Not(f), t); }
    forall e | e in es ensures e.timer in st.pending { InExecutions(st.pending, clock, e); }
    ExecutionsAreDue(st.pending, clock, st.pending);
    WhereSplits(st.pending, f);
  }

  /** A cancellation removes the waiting timers with that action and that data, and no others. */
  lemma CancelOutcome(st: State, action: nat, data: int, i: nat)
    requires Distinct(st.pending) && i < |st.pending|
    ensures var st', t := Apply(st, Cancelled(action, data)), st.pending[i];
            && st'.added == st.added && st'.ran == st.ran
            && (t in st'.pending <==> t.action != action || t.data != data)
            && st.cancelled <= st'.cancelled
            && (t in st'.cancelled[|st.cancelled|..] <==> t.action == action && t.data == data)
            && |st'.pending| + |st'.cancelled| == |st.pending| + |st.cancelled|
  {
    hide Where, Distinct;
    var st', f := Apply(st, Cancelled(action, data)), Matching(st.pending, action, data);
    AtWhere(st.pending, f, i);
    AtWhere(st.pending, Not(f), i);
    assert st'.cancelled[|st.cancelled|..] == Where(st.pending, f);
    WhereSplits(st.pending, f);
  }

  /** Whatever waits in a run waits once, so the above applies to every check and cancellation of it. */
  lemma PendingIsDistinct(ops: seq<Op>)
    requires Distinct(After(ops).added)
    ensures Distinct(After(ops).pending)
  {
    hide After, TimersOf, Distinct, Subsequence;
    var st := After(ops);
    RunsAreAccounted(ops);
    assert multiset(st.added) == multiset(TimersOf(st.ran)) + multiset(st.pending) + multiset(st.cancelled);
    PartsAreDistinct(st.added, TimersOf(st.ran), st.pending, st.cancelled);
  }
}
