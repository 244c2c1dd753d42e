/** The timer list of to.c: a doubly linked chain that behaves like a sequence, and what becomes of
    every timer over a whole run. */
module Timers {
  import opened Common

  const OK := 0
  const INVALID_ACTION := 8

  class Timer {
    const setAt: int
    const run: int
    const action: nat
    const data: int
    var prev: Timer?
    var next: Timer?

    constructor (setAt: int, run: int, action: nat, data: int)
      ensures this.setAt == setAt && this.run == run && this.action == action && this.data == data
      ensures prev == null && next == null
    {
      this.setAt, this.run, this.action, this.data := setAt, run, action, data;
      prev, next := null, null;
    }
  }

  /** A timer that was executed, and what the clock said then. */
  datatype Execution = Execution(timer: Timer, at: int)

  // ----- Sequences -------------------------------------------------------------------------

  /** The elements whose index is selected, in order. */
  ghost function Where<T>(s: seq<T>, f: nat -> bool): (r: seq<T>)
    ensures |r| <= |s|
  {
    if s == [] then []
    else Where(s[..|s| - 1], f) + if f(|s| - 1) then [s[|s| - 1]] else []
  }

  ghost function Not(f: nat -> bool): nat -> bool {
    (i: nat) => !f(i)
  }

  ghost predicate Subsequence<T>(a: seq<T>, b: seq<T>) {
    if a == [] then true
    else if b == [] then false
    else if a[|a| - 1] == b[|b| - 1] && Subsequence(a[..|a| - 1], b[..|b| - 1]) then true
    else Subsequence(a, b[..|b| - 1])
  }

  lemma {:induction false} WhereSplits<T>(s: seq<T>, f: nat -> bool)
    ensures multiset(Where(s, f)) + multiset(Where(s, Not(f))) == multiset(s)
    ensures |Where(s, f)| + |Where(s, Not(f))| == |s|
  {
    if s == [] {
      assert Where(s, f) == [] && Where(s, Not(f)) == [];
    } else {
      hide Where;
      var n := |s| - 1;
      var front, last := s[..n], s[n];
      assert s == front + [last];
      WhereSplits(front, f);
      if f(n) {
        assert Where(s, Not(f)) == Where(front, Not(f));
      } else {
        assert Where(s, f) == Where(front, f);
      }
    }
  }

  lemma {:induction false} WhereIsSubsequence<T>(s: seq<T>, f: nat -> bool)
    ensures Subsequence(Where(s, f), s)
  {
    if s == [] {
    } else {
      hide Where;
      var n := |s| - 1;
      var front, last := s[..n], s[n];
      assert s == front + [last];
      WhereIsSubsequence(front, f);
      if f(n) {
        SubsequenceSnoc(Where(front, f), front, last);
      } else {
        assert Where(s, f) == Where(front, f);
        SubsequenceOfMore(Where(front, f), front, [last]);
      }
    }
  }

  lemma {:induction false} SubsequenceOfMore<T>(a: seq<T>, b: seq<T>, c: seq<T>)
    requires Subsequence(a, b)
    ensures Subsequence(a, b + c)
  {
    if c == [] {
      assert b + c == b;
    } else {
      SubsequenceOfMore(a, b, c[..|c| - 1]);
      assert (b + c)[..|b + c| - 1] == b + c[..|c| - 1];
    }
  }

  lemma SubsequenceSnoc<T>(a: seq<T>, b: seq<T>, x: T)
    requires Subsequence(a, b)
    ensures Subsequence(a + [x], b + [x])
  {
    assert (a + [x])[..|a|] == a && (b + [x])[..|b|] == b;
  }

  lemma {:induction false} SubsequenceTransitive<T>(a: seq<T>, b: seq<T>, c: seq<T>)
    requires Subsequence(a, b) && Subsequence(b, c)
    ensures Subsequence(a, c)
    decreases |a| + |b| + |c|
  {
    if a == [] {
    } else {
      var a', b', c' := a[..|a| - 1], b[..|b| - 1], c[..|c| - 1];
      if b[|b| - 1] == c[|c| - 1] && Subsequence(b', c') {
        if a[|a| - 1] == b[|b| - 1] && Subsequence(a', b') {
          SubsequenceTransitive(a', b', c');
        } else {
          SubsequenceTransitive(a, b', c');
        }
      } else {
        SubsequenceTransitive(a, b, c');
      }
    }
  }

  // ----- What a check and a cancellation do ------------------------------------------------

  /** The i-th timer looked at is due by the i-th reading of the clock. */
  ghost function Due(ts: seq<Timer>, clock: nat -> int): nat -> bool {
    (i: nat) => i < |ts| && clock(i) >= ts[i].run
  }

  ghost function Matching(ts: seq<Timer>, action: nat, data: int): nat -> bool {
    (i: nat) => i < |ts| && ts[i].action == action && ts[i].data == data
  }

  ghost function Executions(ts: seq<Timer>, clock: nat -> int): seq<Execution> {
    if ts == [] then []
    else
      var n := |ts| - 1;
      Executions(ts[..n], clock) + if clock(n) >= ts[n].run then [Execution(ts[n], clock(n))] else []
  }

  ghost function TimersOf(es: seq<Execution>): (r: seq<Timer>)
    ensures |r| == |es|
  {
    seq(|es|, i requires 0 <= i < |es| => es[i].timer)
  }

  lemma {:induction false} ExecutionsAreDue(ts: seq<Timer>, clock: nat -> int, all: seq<Timer>)
    requires ts <= all
    ensures TimersOf(Executions(ts, clock)) == Where(ts, Due(all, clock))
    ensures forall e :: e in Executions(ts, clock) ==> e.at >= e.timer.run
  {
    if ts == [] {
    } else {
      ExecutionsAreDue(ts[..|ts| - 1], clock, all);
    }
  }

  // ----- Runs ------------------------------------------------------------------------------

  datatype Op =
    | Added(timer: Timer)
    | Checked(clock: nat -> int)
    | Cancelled(action: nat, data: int)

  /** What became of the timers so far: all that were added, those that wait, those that were
      executed, and those that were cancelled. */
  datatype State = State(added: seq<Timer>, pending: seq<Timer>, ran: seq<Execution>, cancelled: seq<Timer>)

  ghost function Apply(st: State, op: Op): State {
    match op
    case Added(t) => st.(added := st.added + [t], pending := st.pending + [t])
    case Checked(clock) =>
      st.(pending := Where(st.pending, Not(Due(st.pending, clock))), ran := st.ran + Executions(st.pending, clock))
    case Cancelled(action, data) =>
      var m := Matching(st.pending, action, data);
      st.(pending := Where(st.pending, Not(m)), cancelled := st.cancelled + Where(st.pending, m))
  }

  ghost function After(ops: seq<Op>): State {
    if ops == [] then State([], [], [], []) else Apply(After(ops[..|ops| - 1]), ops[|ops| - 1])
  }

  /** Every timer is in one place, in the order of addition while it waits, and ran in time. */
  ghost predicate Accounted(st: State) {
    && multiset(st.added) == multiset(st.pending) + multiset(TimersOf(st.ran)) + multiset(st.cancelled)
    && Subsequence(st.pending, st.added)
    && forall e :: e in st.ran ==> e.at >= e.timer.run
  }

  lemma CheckIsAccounted(st: State, clock: nat -> int)
    requires Accounted(st)
    ensures Accounted(Apply(st, Checked(clock)))
  {
    hide Where, Subsequence, Executions, TimersOf, Due, Not;
    var f := Due(st.pending, clock);
    var es := Executions(st.pending, clock);
    ExecutionsAreDue(st.pending, clock, st.pending);
    WhereSplits(st.pending, f);
    TimersOfMore(st.ran, es);
    WhereIsSubsequence(st.pending, Not(f));
    SubsequenceTransitive(Where(st.pending, Not(f)), st.pending, st.added);
  }

  lemma TimersOfMore(a: seq<Execution>, b: seq<Execution>)
    ensures TimersOf(a + b) == TimersOf(a) + TimersOf(b)
  {
  }

  lemma CancelIsAccounted(st: State, action: nat, data: int)
    requires Accounted(st)
    ensures Accounted(Apply(st, Cancelled(action, data)))
  {
    hide Where, Subsequence, TimersOf, Matching, Not;
    var f := Matching(st.pending, action, data);
    WhereSplits(st.pending, f);
    WhereIsSubsequence(st.pending, Not(f));
    SubsequenceTransitive(Where(st.pending, Not(f)), st.pending, st.added);
  }

  /** Over any run: as multisets, what was added is what waits, ran and was cancelled. */
  lemma {:induction false} RunsAreAccounted(ops: seq<Op>)
    ensures Accounted(After(ops))
  {
    hide Apply, Accounted;
    if ops == [] {
      NothingIsAccounted();
    } else {
      var st, op := After(ops[..|ops| - 1]), ops[|ops| - 1];
      RunsAreAccounted(ops[..|ops| - 1]);
      match op
      case Added(t) => AddIsAccounted(st, t);
      case Checked(clock) => CheckIsAccounted(st, clock);
      case Cancelled(action, data) => CancelIsAccounted(st, action, data);
    }
  }

  lemma NothingIsAccounted()
    ensures Accounted(State([], [], [], []))
  {
  }

  lemma AddIsAccounted(st: State, t: Timer)
    requires Accounted(st)
    ensures Accounted(Apply(st, Added(t)))
  {
    hide Subsequence, TimersOf;
    SubsequenceSnoc(st.pending, st.added, t);
  }

  lemma {:induction false} DistinctOnce<T>(s: seq<T>)
    requires Distinct(s)
    ensures forall x :: multiset(s)[x] <= 1
  {
    if s == [] {
    } else {
      var front, last := s[..|s| - 1], s[|s| - 1];
      DistinctOnce(front);
      assert s == front + [last];
      assert last !in front;
    }
  }

  lemma {:induction false} OnceDistinct<T>(s: seq<T>)
    requires forall x :: multiset(s)[x] <= 1
    ensures Distinct(s)
  {
    if s == [] {
    } else {
      var front, last := s[..|s| - 1], s[|s| - 1];
      assert s == front + [last];
      assert forall x :: multiset(s)[x] == multiset(front)[x] + multiset([last])[x];
      OnceDistinct(front);
      assert multiset(front)[last] == 0;
      assert last !in front;
    }
  }

  lemma PartsAreDistinct<T>(all: seq<T>, a: seq<T>, b: seq<T>, c: seq<T>)
    requires Distinct(all) && multiset(all) == multiset(a) + multiset(b) + multiset(c)
    ensures Distinct(b) && forall x :: x in b ==> x !in a && x !in c
  {
    hide Distinct;
    DistinctOnce(all);
    assert forall x :: multiset(all)[x] == multiset(a)[x] + multiset(b)[x] + multiset(c)[x];
    OnceDistinct(b);
    forall x | x in b ensures x !in a && x !in c {
      assert multiset(b)[x] > 0;
      assert multiset(a)[x] == 0 && multiset(c)[x] == 0;
    }
  }

  /** No timer runs twice, and none that was cancelled or still waits has run. */
  lemma NoneRunsTwice(ops: seq<Op>)
    requires Distinct(After(ops).added)
    ensures var st := After(ops);
            && Distinct(TimersOf(st.ran))
            && forall t :: t in TimersOf(st.ran) ==> t !in st.pending && t !in st.cancelled
  {
    hide After, TimersOf, Distinct, Subsequence;
    var st := After(ops);
    RunsAreAccounted(ops);
    PartsAreDistinct(st.added, st.pending, TimersOf(st.ran), st.cancelled);
  }

  /** One check executes timers in the order they were added. */
  lemma ChecksRunInOrder(ops: seq<Op>, clock: nat -> int)
    ensures Subsequence(TimersOf(Executions(After(ops).pending, clock)), After(ops).added)
  {
    hide After, TimersOf, Executions, Subsequence, Where;
    var st := After(ops);
    RunsAreAccounted(ops);
    ExecutionsAreDue(st.pending, clock, st.pending);
    WhereIsSubsequence(st.pending, Due(st.pending, clock));
    SubsequenceTransitive(Where(st.pending, Due(st.pending, clock)), st.pending, st.added);
  }

  // ----- The chain -------------------------------------------------------------------------

  class Timers {
    var first: Timer?
    ghost var nodes: seq<Timer>
    ghost var repr: set<Timer>
    ghost var executed: seq<Execution>
    ghost var added: seq<Timer>
    ghost var log: seq<Op>

    ghost predicate Linked(i: nat)
      requires i < |nodes| && forall j: nat :: j < |nodes| ==> nodes[j] in repr
      reads this`nodes, this`repr, repr
    {
      && nodes[i].prev == (if i == 0 then null else nodes[i - 1])
      && nodes[i].next == (if i == |nodes| - 1 then null else nodes[i + 1])
    }

    ghost predicate Chain()
      reads this`first, this`nodes, this`repr, repr
    {
      && first == (if nodes == [] then null else nodes[0])
      && Distinct(nodes) && (forall i: nat :: i < |nodes| ==> nodes[i] in repr)
      && (forall i: nat :: i < |nodes| ==> Linked(i))
    }

    ghost predicate Agrees(st: State)
      reads this
    {
      nodes == st.pending && executed == st.ran && added == st.added
    }

    /** The chain holds what waits after the operations so far. */
    ghost predicate Valid()
      reads this, repr
    {
      Chain() && Distinct(added) && Agrees(After(log))
    }

    constructor ()
      ensures Valid() && log == [] && repr == {}
    {
      first := null;
      nodes, executed, added, log, repr := [], [], [], [], {};
    }

    /** Puts t behind the last timer. */
    method Append(t: Timer)
      requires Chain() && t !in repr && t.prev == null && t.next == null
      modifies this`first, this`nodes, this`repr, repr, t
      ensures Chain() && nodes == old(nodes) + [t] && repr == old(repr) + {t}
    {
      if first == null {
        first := t;
        nodes := [t];
        repr := repr + {t};
        return;
      }
      var p := first;
      ghost var k: nat := 0;
      while p.next != null
        invariant k < |nodes| && p == nodes[k]
        decreases |nodes| - k
      {
        assert Linked(k) && Linked(k + 1);
        p := p.next;
        k := k + 1;
      }
      assert Linked(k);
      p.next := t;
      t.prev := p;
      nodes := nodes + [t];
      repr := repr + {t};
      forall i: nat | i < |nodes| ensures Linked(i) {
        assert i < k ==> old(Linked(i));
      }
    }

    /** to_add, when memory does not run out. */
    method Add(action: nat, data: int, run: int, now: int) returns (r: int, ghost t: Timer?)
      requires Valid()
      modifies this, repr
      ensures Valid()
      ensures action >= 8 ==> r == -1 && log == old(log) && repr == old(repr)
      ensures action < 8 ==>
                && r == OK && t != null && fresh(t) && log == old(log) + [Added(t)] && repr == old(repr) + {t}
                && t.setAt == now && t.run == run && t.action == action && t.data == data
    {
      hide After, Distinct;
      if action >= INVALID_ACTION { return -1, null; }
      var timer := new Timer(now, run, action, data);
      Append(timer);
      t := timer;
      r := OK;
      AfterOneMore(log, Added(timer));
      DistinctSnoc(added, timer);
      added := added + [timer];
      log := log + [Added(timer)];
    }

    /** _to_del: t's neighbours, and the head of the list, are led past it. */
    method Bypass(t: Timer)
      requires t in repr && t.prev != t && t.next != t
      requires (t.prev != null ==> t.prev in repr) && (t.next != null ==> t.next in repr)
      modifies this`first, repr
      ensures first == if old(first) == t then old(t.next) else old(first)
      ensures forall x :: x in repr ==> x.prev == if x == old(t.next) then old(t.prev) else old(x.prev)
      ensures forall x :: x in repr ==> x.next == if x == old(t.prev) then old(t.next) else old(x.next)
    {
      if first == t {
        if t.next != null { first := t.next; } else { first := null; }
      }
      if t.next != null && t.prev != null {
        t.next.prev := t.prev;
        t.prev.next := t.next;
      }
      if t.next != null && t.prev == null {
        t.next.prev := null;
      }
      if t.prev != null && t.next == null {
        t.prev.next := null;
      }
    }

    /** What _to_del makes of the chain; the removed timer keeps its own links. */
    method Unlink(t: Timer, ghost front: seq<Timer>, ghost rest: seq<Timer>)
      requires Chain() && nodes == front + [t] + rest
      modifies this`first, this`nodes, repr
      ensures Chain() && nodes == front + rest
      ensures t.next == if rest == [] then null else rest[0]
    {
      ghost var k, was := |front|, nodes;
      Around(front, t, rest);
      WithoutKth(was, front, t, rest);
      hide Distinct;
      Bypass(t);
      nodes := front + rest;
      assert was[k] == t && (k > 0 ==> was[k - 1] == front[k - 1]) && (rest != [] ==> was[k + 1] == rest[0]);
      forall i: nat | i < |nodes| ensures Linked(i) {
        assert if i < k then old(Linked(i)) else old(Linked(i + 1));
      }
    }

    lemma Around(front: seq<Timer>, t: Timer, rest: seq<Timer>)
      requires Chain() && nodes == front + [t] + rest
      ensures t in repr && t.prev != t && t.next != t
      ensures t.prev == (if front == [] then null else front[|front| - 1]) && (front != [] ==> t.prev in repr)
      ensures t.next == (if rest == [] then null else rest[0]) && (rest != [] ==> t.next in repr)
      ensures forall i: nat :: i < |nodes| ==>
                && (nodes[i] == t.prev <==> i + 1 == |front|) && (nodes[i] == t.next <==> i == |front| + 1)
                && (nodes[i] == t <==> i == |front|)
    {
      var k := |front|;
      assert nodes[k] == t && (k > 0 ==> nodes[k - 1] == front[k - 1]) && (rest != [] ==> nodes[k + 1] == rest[0]);
      assert Linked(k);
    }

    method Execute(t: Timer, now: int)
      modifies this`executed
      ensures executed == old(executed) + [Execution(t, now)]
    {
      executed := executed + [Execution(t, now)];
    }

    /** Where a loop over the timers ts stands when it looks at the k-th. */
    lemma Here(front: seq<Timer>, rest: seq<Timer>, t: Timer)
      requires Chain() && nodes == front + rest && rest != [] && rest[0] == t
      ensures nodes == front + [t] + rest[1..]
      ensures t.next == if rest[1..] == [] then null else rest[1..][0]
    {
      assert Linked(|front|);
    }

    /** Runs and removes t if it is due at now. */
    method RunIfDue(t: Timer, now: int, ghost front: seq<Timer>, ghost rest: seq<Timer>) returns (due: bool)
      requires Chain() && nodes == front + [t] + rest
      requires t.next == if rest == [] then null else rest[0]
      modifies this`first, this`nodes, this`executed, repr
      ensures due == (now >= t.run) && Chain()
      ensures nodes == if due then front + rest else front + [t] + rest
      ensures executed == old(executed) + if due then [Execution(t, now)] else []
      ensures t.next == if rest == [] then null else rest[0]
    {
      hide Chain;
      due := now >= t.run;
      if due {
        Execute(t, now);
        Unlink(t, front, rest);
      }
    }

    /** One turn of the loop of to_chk: the k-th timer runs and leaves, or stays. */
    method CheckOne(t: Timer, clock: nat -> int, k: nat, ghost ts: seq<Timer>, ghost base: seq<Execution>,
                    ghost front: seq<Timer>, ghost rest: seq<Timer>, ghost es: seq<Execution>)
      returns (due: bool, ghost front': seq<Timer>, ghost es': seq<Execution>)
      requires Chain() && nodes == front + rest && rest != [] && rest[0] == t
      requires Checking(ts, clock, k, front, rest, es) && executed == base + es
      modifies this`first, this`nodes, this`executed, repr
      ensures Chain() && nodes == front' + rest[1..] && executed == base + es'
      ensures Checking(ts, clock, k + 1, front', rest[1..], es') && |es'| == |es| + if due then 1 else 0
      ensures t.next == if rest[1..] == [] then null else rest[1..][0]
    {
      hide Checking, Chain;
      front', es' := front + [t], es;
      Here(front, rest, t);
      LookedAt(ts, clock, k, front, rest, es);
      var now := clock(k);
      due := RunIfDue(t, now, front, rest[1..]);
      if due {
        front', es' := front, es + [Execution(t, now)];
      }
    }

    /** The loop of to_chk: clock(i) is the reading taken at the i-th timer looked at. */
    method RunDue(clock: nat -> int) returns (ran: nat)
      requires Chain()
      modifies this`first, this`nodes, this`executed, repr
      ensures Chain() && nodes == Where(old(nodes), Not(Due(old(nodes), clock)))
      ensures executed == old(executed) + Executions(old(nodes), clock) && ran == |Executions(old(nodes), clock)|
    {
      hide Checking, Chain, Where, Executions;
      ghost var ts, base := nodes, executed;
      ghost var front: seq<Timer>, rest: seq<Timer>, es: seq<Execution> := [], ts, [];
      ran := 0;
      FirstOf();
      var t := first;
      var k: nat := 0;
      NothingChecked(ts, clock);
      while t != null
        invariant Checking(ts, clock, k, front, rest, es) && t == if rest == [] then null else rest[0]
        invariant Chain() && nodes == front + rest && executed == base + es && ran == |es|
        decreases |rest|
      {
        var due;
        due, front, es := CheckOne(t, clock, k, ts, base, front, rest, es);
        if due { ran := ran + 1; }
        rest := rest[1..];
        t := t.next;
        k := k + 1;
      }
      AllChecked(ts, clock, k, front, es);
    }

    lemma FirstOf()
      requires Chain()
      ensures first == if nodes == [] then null else nodes[0]
    {
    }

    method Check(clock: nat -> int) returns (ran: nat)
      requires Valid()
      modifies this, repr
      ensures Valid() && log == old(log) + [Checked(clock)] && repr == old(repr)
      ensures ran == |executed| - |old(executed)|
    {
      hide After, Where, Executions, Due, Not, Distinct, Chain;
      ran := RunDue(clock);
      AfterOneMore(log, Checked(clock));
      log := log + [Checked(clock)];
    }

    /** One turn of the loop of to_del. */
    method CancelOne(t: Timer, action: nat, data: int, ghost k: nat, ghost ts: seq<Timer>,
                     ghost front: seq<Timer>, ghost rest: seq<Timer>, ghost gone: seq<Timer>)
      returns (found: bool, ghost front': seq<Timer>, ghost gone': seq<Timer>)
      requires Chain() && nodes == front + rest && rest != [] && rest[0] == t
      requires Comparing(ts, Matching(ts, action, data), k, front, rest, gone)
      modifies this`first, this`nodes, repr
      ensures Chain() && nodes == front' + rest[1..] && |gone'| == |gone| + if found then 1 else 0
      ensures Comparing(ts, Matching(ts, action, data), k + 1, front', rest[1..], gone')
    {
      hide Comparing, Chain;
      front', gone' := front + [t], gone;
      Here(front, rest, t);
      Compared(ts, Matching(ts, action, data), k, front, rest, gone);
      found := t.action == action && t.data == data;
      if found {
        Unlink(t, front, rest[1..]);
        front', gone' := front, gone + [t];
      }
    }

    /** The loop of to_del. */
    method RemoveMatching(action: nat, data: int) returns (found: nat)
      requires Chain()
      modifies this`first, this`nodes, repr
      ensures Chain() && nodes == Where(old(nodes), Not(Matching(old(nodes), action, data)))
      ensures found == |Where(old(nodes), Matching(old(nodes), action, data))|
    {
      hide Comparing, Chain, Where, Matching;
      ghost var ts, f := nodes, Matching(nodes, action, data);
      ghost var front: seq<Timer>, rest: seq<Timer>, gone: seq<Timer> := [], ts, [];
      found := 0;
      FirstOf();
      var t := first;
      ghost var k: nat := 0;
      NothingCompared(ts, f);
      while t != null
        invariant Comparing(ts, f, k, front, rest, gone) && t == if rest == [] then null else rest[0]
        invariant Chain() && nodes == front + rest && found == |gone|
        decreases |rest|
      {
        Here(front, rest, t);
        var next := t.next;
        var matches;
        matches, front, gone := CancelOne(t, action, data, k, ts, front, rest, gone);
        if matches { found := found + 1; }
        rest := rest[1..];
        t := next;
        k := k + 1;
      }
      AllCompared(ts, f, k, front, gone);
    }

    method Cancel(action: nat, data: int) returns (found: nat)
      requires Valid()
      modifies this, repr
      ensures Valid() && log == old(log) + [Cancelled(action, data)] && repr == old(repr)
      ensures found == |After(log).cancelled| - |After(old(log)).cancelled|
    {
      hide After, Where, Matching, Not, Distinct, Chain;
      found := RemoveMatching(action, data);
      AfterOneMore(log, Cancelled(action, data));
      log := log + [Cancelled(action, data)];
    }
  }

  lemma AfterOneMore(ops: seq<Op>, op: Op)
    ensures After(ops + [op]) == Apply(After(ops), op)
  {
    assert (ops + [op])[..|ops|] == ops;
  }

  lemma DistinctSnoc<T>(s: seq<T>, x: T)
    requires Distinct(s) && x !in s
    ensures Distinct(s + [x])
  {
  }

  /** Where a check of ts stands before the k-th timer: what it kept, what is left to look at, and
      what it ran. */
  ghost predicate Checking(ts: seq<Timer>, clock: nat -> int, k: nat,
                           front: seq<Timer>, rest: seq<Timer>, es: seq<Execution>) {
    && k <= |ts| && rest == ts[k..]
    && front == Where(ts[..k], Not(Due(ts, clock))) && es == Executions(ts[..k], clock)
  }

  lemma NothingChecked(ts: seq<Timer>, clock: nat -> int)
    ensures Checking(ts, clock, 0, [], ts, [])
  {
  }

  /** One more timer looked at: it runs and leaves, or it stays. */
  lemma LookedAt(ts: seq<Timer>, clock: nat -> int, k: nat, front: seq<Timer>, rest: seq<Timer>, es: seq<Execution>)
    requires Checking(ts, clock, k, front, rest, es) && rest != []
    ensures var t, due := rest[0], clock(k) >= rest[0].run;
            Checking(ts, clock, k + 1, if due then front else front + [t], rest[1..],
                     if due then es + [Execution(t, clock(k))] else es)
  {
    assert ts[..k + 1] == ts[..k] + [ts[k]];
    assert ts[..k + 1][..k] == ts[..k];
  }

  lemma AllChecked(ts: seq<Timer>, clock: nat -> int, k: nat, front: seq<Timer>, es: seq<Execution>)
    requires Checking(ts, clock, k, front, [], es)
    ensures front + [] == Where(ts, Not(Due(ts, clock))) && es == Executions(ts, clock)
  {
    assert ts[..k] == ts;
  }

  /** Where a cancellation stands before the k-th timer: what it kept, what is left, what is gone. */
  ghost predicate Comparing(ts: seq<Timer>, f: nat -> bool, k: nat,
                            front: seq<Timer>, rest: seq<Timer>, gone: seq<Timer>) {
    && k <= |ts| && rest == ts[k..] && front == Where(ts[..k], Not(f)) && gone == Where(ts[..k], f)
  }

  lemma NothingCompared(ts: seq<Timer>, f: nat -> bool)
    ensures Comparing(ts, f, 0, [], ts, [])
  {
  }

  lemma Compared(ts: seq<Timer>, f: nat -> bool, k: nat, front: seq<Timer>, rest: seq<Timer>, gone: seq<Timer>)
    requires Comparing(ts, f, k, front, rest, gone) && rest != []
    ensures k < |ts| && rest[0] == ts[k]
    ensures Comparing(ts, f, k + 1, if f(k) then front else front + [rest[0]], rest[1..],
                      if f(k) then gone + [rest[0]] else gone)
  {
    assert ts[..k + 1] == ts[..k] + [ts[k]];
  }

  lemma AllCompared(ts: seq<Timer>, f: nat -> bool, k: nat, front: seq<Timer>, gone: seq<Timer>)
    requires Comparing(ts, f, k, front, [], gone)
    ensures front + [] == Where(ts, Not(f)) && gone == Where(ts, f)
  {
    assert ts[..k] == ts;
  }
}
