/** What holds in every run of the library, for any behaviour of kernel, resolver and caller. */
module SocketTheorems {
  import opened Common
  import opened DnsCache
  import opened SocketModel
  import opened SocketSafety
  import opened SocketLookups
  import opened SocketRuns

  lemma InitInv(cmp: Comparison, now: int)
    ensures Inv(cmp, Init(now))
  {
    var st := Init(now);
    forall i | 0 <= i < HIGHSOCK ensures SlotOk(st, i) { }
    assert forall e :: Some(e) !in st.cache;
  }

  /** A corpse is only found at descriptors that are in use again. */
  predicate HousekeepingDefined(st: State) {
    ReadsAreDefinedFrom(st, 0)
  }

  lemma QueriesAreOk(cmp: Comparison, st: State, q: Query)
    requires Inv(cmp, st) && q in st.env.queries
    ensures QueryOk(st, q)
  {
  }

  lemma SocketsHaveBoth(st: State)
    requires TablesOk(st)
    ensures Shaped(st) && st.lookups.Keys == st.socks.Keys
  {
  }

  lemma SlotsAreOk(st: State, i: nat)
    requires TablesOk(st) && i < HIGHSOCK
    ensures Shaped(st) && SlotOk(st, i)
  {
  }

  lemma EventIsDefined(st: State, step: Step)
    requires TablesOk(st) && Enabled(st, step) && (step.Readable? || step.Writable?)
    ensures Defined(st, step)
  {
    TablesMeanFds(st);
    SlotsAreOk(st, step.fd);
    EventsAreOwned(st, step.fd);
    hide TablesOk, SlotOk, Fds;
  }

  lemma OtherIsDefined(st: State, step: Step)
    requires TablesOk(st) && Enabled(st, step)
    requires !step.Readable? && !step.Writable? && !step.PtrReply? && !step.AReply? && !step.Housekeeping?
    ensures Defined(st, step)
  {
    SocketsHaveBoth(st);
    TablesMeanFds(st);
    hide TablesOk;
  }

  /** Under the invariant, the one step that can touch memory it must not is housekeeping, and its
      loop comes to that exactly when some descriptor has a corpse and no listed socket. */
  lemma StepIsDefined(cmp: Comparison, st: State, step: Step)
    requires Inv(cmp, st) && Enabled(st, step)
    ensures Defined(st, step) <==> (step.Housekeeping? ==> HousekeepingDefined(st))
  {
    if step.Housekeeping? {
      TablesMeanFds(st);
      SocketsHaveBoth(st);
      hide TablesOk, Settled, Faults, Fds;
      FaultsExactly(st, 0, step.flushed);
    } else {
      hide Settled, Defined, TablesOk, Enabled;
      if step.Readable? || step.Writable? {
        EventIsDefined(st, step);
      } else if step.PtrReply? || step.AReply? {
      } else {
        OtherIsDefined(st, step);
      }
    }
  }

  predicate IsMuxStep(step: Step) {
    step.AddToMux? || step.RemoveFromMux? || step.Readable? || step.Writable?
  }

  lemma MuxStepKeepsInv(cmp: Comparison, st: State, step: Step)
    requires Inv(cmp, st) && Enabled(st, step) && Defined(st, step) && IsMuxStep(step)
    ensures Inv(cmp, Apply(cmp, st, step))
  {
    hide Inv, RemFd, AddFd, ReadEvent, WriteEvent;
    match step
    case AddToMux(m) => AddFdKeepsInv(cmp, st, m);
    case RemoveFromMux(fd) => RemFdKeepsInv(cmp, st, fd);
    case Readable(fd, gone) => ReadKeepsInv(cmp, st, st.revents[fd], gone);
    case Writable(fd, sent) => WriteKeepsInv(cmp, st, st.wevents[fd], sent);
  }

  lemma DestroyIsApplied(cmp: Comparison, st: State, m: MSocket)
    requires Defined(st, DestroySocket(m))
    ensures Shaped(st) && Listed(st) && AtFd(st, m)
    ensures Apply(cmp, st, DestroySocket(m)) == Destroy(st, m)
  {
    hide Destroy, Listed, AtFd;
  }

  lemma CloseIsApplied(cmp: Comparison, st: State, m: MSocket, sent: bool)
    requires Defined(st, CloseSocket(m, sent))
    ensures Shaped(st) && Listed(st) && AtFd(st, m)
    ensures Apply(cmp, st, CloseSocket(m, sent)) == Close(st, m, sent)
  {
    hide Close, Listed, AtFd;
  }

  /** A housekeeping that is defined is its whole loop, none of whose reads goes wrong. */
  lemma HousekeepingIsLoop(cmp: Comparison, st: State, sent: set<int>)
    requires TablesOk(st) && Defined(st, Housekeeping(sent))
    ensures ReadsAreDefinedFrom(st, 0) && Apply(cmp, st, Housekeeping(sent)) == HouseFrom(st, 0, sent)
  {
    hide TablesOk, Faults, Fds, HouseFrom;
    FaultsExactly(st, 0, sent);
  }

  lemma PtrIsApplied(cmp: Comparison, st: State, q: Query, a: Answer, accepted: bool)
    requires Defined(st, PtrReply(q, a, accepted))
    ensures Has(st, q.m)
    ensures Apply(cmp, st, PtrReply(q, a, accepted)) == PtrAnswer(LogPtr(Answered(st, q), q, a), q.m, a, accepted)
  {
    hide PtrAnswer;
  }

  lemma AIsApplied(cmp: Comparison, st: State, q: Query, a: Answer, accepted: bool)
    requires Defined(st, AReply(q, a, accepted))
    ensures Has(st, q.m)
    ensures Apply(cmp, st, AReply(q, a, accepted)) == AAnswer(cmp, LogA(Answered(st, q), q.target, a), q.m, a, accepted)
  {
    hide AAnswer;
  }

  lemma HousekeepingKeepsInv(cmp: Comparison, st: State, sent: set<int>)
    requires Inv(cmp, st) && Defined(st, Housekeeping(sent))
    ensures Inv(cmp, Apply(cmp, st, Housekeeping(sent)))
  {
    hide TablesOk, Settled, Defined, Apply, HouseFrom, ReadsAreDefinedFrom;
    HousekeepingIsLoop(cmp, st, sent);
    HouseFromKeepsInv(cmp, st, 0, sent);
  }

  lemma DestroyStepKeepsInv(cmp: Comparison, st: State, step: Step)
    requires Inv(cmp, st) && Enabled(st, step) && Defined(st, step)
    requires step.DestroySocket? || step.CloseSocket? || step.Housekeeping?
    ensures Inv(cmp, Apply(cmp, st, step))
  {
    hide Inv, Apply, Defined, Destroy, Close;
    match step
    case DestroySocket(m) =>
      DestroyIsApplied(cmp, st, m);
      DestroyKeepsInv(cmp, st, m);
    case CloseSocket(m, sent) =>
      CloseIsApplied(cmp, st, m, sent);
      CloseKeepsInv(cmp, st, m, sent);
    case Housekeeping(flushed) =>
      HousekeepingKeepsInv(cmp, st, flushed);
  }

  lemma DnsStepKeepsInv(cmp: Comparison, st: State, step: Step)
    requires Inv(cmp, st) && Enabled(st, step) && Defined(st, step)
    requires step.StartLookup? || step.PtrReply? || step.AReply?
    ensures Inv(cmp, Apply(cmp, st, step))
  {
    hide Inv, FindRev, PtrAnswer, AAnswer;
    match step
    case StartLookup(m, accepted) => StartKeepsInv(cmp, st, m, accepted);
    case PtrReply(q, a, accepted) => PtrReplyKeepsInv(cmp, st, q, a, accepted);
    case AReply(q, a, accepted) => AReplyKeepsInv(cmp, cmp, st, q, a, accepted);
  }

  lemma OtherStepKeepsInv(cmp: Comparison, st: State, step: Step)
    requires Inv(cmp, st) && Enabled(st, step) && Defined(st, step) && !step.Open?
    requires step.CleanCache? || step.ForwardLookup? || step.ForwardReply? || step.Tick?
    ensures Inv(cmp, Apply(cmp, st, step))
  {
    hide Inv, ForwardAnswer, Sweep;
    match step
    case CleanCache => SweepKeepsInv(cmp, st);
    case ForwardLookup(accepted) => CountingKeepsInv(cmp, st, accepted);
    case ForwardReply(host, a) => ForwardKeepsInv(cmp, st, host, a);
    case Tick(now) => TickKeepsInv(cmp, st, now);
  }

  lemma OpenStepKeepsInv(cmp: Comparison, st: State, step: Step)
    requires Inv(cmp, st) && Enabled(st, step) && Defined(st, step) && step.Open?
    ensures Inv(cmp, Apply(cmp, st, step))
  {
    var s := Opened(st.now, step.fd, step.kind, step.allowIdle, step.host,
                    step.connected, step.ready, step.waitConn, step.connTo);
    assert Apply(cmp, st, step) == WithSocket(st, step.m, s).(list := st.list[step.fd := step.m]);
    hide Inv, Apply, WithSocket;
    OpenKeepsInv(cmp, st, step.m, step.fd, s);
  }

  lemma StepKeepsInv(cmp: Comparison, st: State, step: Step)
    requires Inv(cmp, st) && Enabled(st, step) && Defined(st, step)
    ensures Inv(cmp, Apply(cmp, st, step))
  {
    hide Inv, Apply, Enabled, Defined;
    if IsMuxStep(step) {
      MuxStepKeepsInv(cmp, st, step);
    } else if step.DestroySocket? || step.CloseSocket? || step.Housekeeping? {
      DestroyStepKeepsInv(cmp, st, step);
    } else if step.Open? {
      OpenStepKeepsInv(cmp, st, step);
    } else if step.StartLookup? || step.PtrReply? || step.AReply? {
      DnsStepKeepsInv(cmp, st, step);
    } else {
      OtherStepKeepsInv(cmp, st, step);
    }
  }

  lemma CountingKeepsInv(cmp: Comparison, st: State, accepted: bool)
    requires Inv(cmp, st)
    ensures Inv(cmp, if accepted then Forwarded(st) else st)
  {
    if accepted {
      var st' := Forwarded(st);
      assert CacheSound(st') && Elsewhere(st, st');
      hide Elsewhere, CacheSound, LookupsOk, TablesOk, NamesOk;
      ElsewhereKeepsInv(cmp, st, st');
    }
  }

  lemma TickKeepsInv(cmp: Comparison, st: State, now: int)
    requires Inv(cmp, st)
    ensures Inv(cmp, st.(now := now))
  {
    var st' := st.(now := now);
    assert CacheSound(st') && Elsewhere(st, st');
    hide Elsewhere, CacheSound, LookupsOk, TablesOk, NamesOk;
    ElsewhereKeepsInv(cmp, st, st');
  }

  /** The joint invariant holds in every state of every run. */
  lemma {:induction false} RunsKeepInv(cmp: Comparison, states: seq<State>, steps: seq<Step>, i: nat)
    requires IsRun(cmp, states, steps) && i < |states|
    ensures Inv(cmp, states[i])
  {
    hide Inv, Apply, Enabled, Defined;
    if i == 0 {
      var now :| states[0] == Init(now);
      InitInv(cmp, now);
    } else {
      RunsKeepInv(cmp, states, steps, i - 1);
      StepKeepsInv(cmp, states[i - 1], steps[i - 1]);
    }
  }

  // ----- Memory safety ---------------------------------------------------------------------

  /** Some table or some outstanding query still points at m. */
  ghost predicate Held(st: State, m: MSocket) {
    m in st.list || m in st.corpses || m in st.revents || m in st.wevents
    || exists q :: q in st.env.queries && q.m == m
  }

  /** In every run, whatever is held is allocated: no freed socket is left in the descriptor list,
      the corpse table, a mux event or an outstanding reverse query. */
  lemma NoFreedSocketIsHeld(cmp: Comparison, states: seq<State>, steps: seq<Step>, i: nat, m: MSocket)
    requires IsRun(cmp, states, steps) && i < |states|
    ensures Held(states[i], m) ==> m in states[i].socks
  {
    RunsKeepInv(cmp, states, steps, i);
    var st := states[i];
    hide IsRun, NamesOk, CacheSound, SocketOk, SockOk;
    if m in st.list {
      var k :| 0 <= k < HIGHSOCK && st.list[k] == m;
      assert SlotOk(st, k);
    }
    if m in st.corpses {
      var k :| 0 <= k < HIGHSOCK && st.corpses[k] == m;
      assert SlotOk(st, k);
    }
    if m in st.revents {
      var k :| 0 <= k < HIGHSOCK && st.revents[k] == m;
      assert SlotOk(st, k);
    }
    if m in st.wevents {
      var k :| 0 <= k < HIGHSOCK && st.wevents[k] == m;
      assert SlotOk(st, k);
    }
    if q :| q in st.env.queries && q.m == m {
      assert QueryOk(st, q);
    }
  }

  /** In every run, every step that can come next only touches allocated sockets and existing
      slots, with one exception: housekeeping reads through a null pointer exactly when some
      descriptor has a corpse and no listed socket. */
  lemma RunsOnlyFaultInHousekeeping(cmp: Comparison, states: seq<State>, steps: seq<Step>, step: Step)
    requires IsRun(cmp, states, steps) && Enabled(states[|steps|], step)
    ensures Defined(states[|steps|], step) <==> (step.Housekeeping? ==> HousekeepingDefined(states[|steps|]))
  {
    RunsKeepInv(cmp, states, steps, |steps|);
    hide IsRun, Inv, Enabled, Defined;
    StepIsDefined(cmp, states[|steps|], step);
  }

  // ----- Queries ---------------------------------------------------------------------------

  /** Exactly one query of m's is outstanding: one element of the multiset, once. */
  ghost predicate OneQuery(st: State, m: MSocket) {
    exists q :: q in st.env.queries && q.m == m && st.env.queries[q] == 1
                && forall r :: r in st.env.queries && r.m == m ==> r == q
  }

  lemma OneQueryIsOutstanding(cmp: Comparison, st: State, m: MSocket)
    requires Inv(cmp, st) && m in st.socks
    ensures Has(st, m) && (OneQuery(st, m) <==> Outstanding(st, m))
    ensures Outstanding(st, m) ==> m !in st.env.refused
  {
    hide TablesOk, CacheSound, NamesOk;
    if Outstanding(st, m) {
      var q :| q in st.env.queries && q.m == m
               && (q == Query(m, PtrPhase, st.socks[m].remoteHost)
                   || (st.lookups[m].candidate.Some? && q == Query(m, APhase, st.lookups[m].candidate.value)));
      assert QueryOk(st, q);
    }
    if OneQuery(st, m) {
      var q :| q in st.env.queries && q.m == m && st.env.queries[q] == 1;
      assert QueryOk(st, q);
    }
  }

  /** In every run a socket waits for DNS exactly when one reverse query of its is outstanding,
      or when evdns once refused its query, which the library does not notice. */
  lemma WaitingIsOneQuery(cmp: Comparison, states: seq<State>, steps: seq<Step>, i: nat, m: MSocket)
    requires IsRun(cmp, states, steps) && i < |states| && m in states[i].socks
    ensures Has(states[i], m)
    ensures states[i].lookups[m].waiting <==> OneQuery(states[i], m) || m in states[i].env.refused
    ensures !(OneQuery(states[i], m) && m in states[i].env.refused)
  {
    RunsKeepInv(cmp, states, steps, i);
    hide IsRun, OneQuery;
    OneQueryIsOutstanding(cmp, states[i], m);
    assert SocketOk(states[i], m);
  }

  /** An outstanding A query asks for the candidate name of its socket, which is therefore set. */
  lemma AQueriesHaveCandidates(cmp: Comparison, states: seq<State>, steps: seq<Step>, i: nat, q: Query)
    requires IsRun(cmp, states, steps) && i < |states| && q in states[i].env.queries && q.phase.APhase?
    ensures Has(states[i], q.m) && states[i].lookups[q.m].candidate == Some(q.target)
  {
    RunsKeepInv(cmp, states, steps, i);
    hide IsRun;
    assert QueryOk(states[i], q);
  }

  /** lms_dns_activequeries counts the outstanding forward and reverse queries, and one more for
      every refused query; so it is their total exactly when evdns refused none, and a callback
      always finds it positive. */
  lemma ActiveQueriesAreCounted(cmp: Comparison, states: seq<State>, steps: seq<Step>, i: nat)
    requires IsRun(cmp, states, steps) && i < |states|
    ensures var st := states[i];
            && st.active == |st.env.queries| + st.env.forward + |st.env.refused|
            && (st.active == |st.env.queries| + st.env.forward <==> st.env.refused == {})
            && (st.env.queries != multiset{} || st.env.forward > 0 ==> st.active > 0)
  {
    RunsKeepInv(cmp, states, steps, i);
    hide IsRun, TablesOk, QueriesOk, CacheSound, NamesOk;
    assert Counted(states[i]);
  }

  predicate Accepts(step: Step) {
    match step
    case StartLookup(_, accepted) => accepted
    case PtrReply(_, _, accepted) => accepted
    case AReply(_, _, accepted) => accepted
    case _ => true
  }

  /** One lookup issues at most four queries, whatever is answered or cached or swept. */
  lemma FourQueries(cmp: Comparison, states: seq<State>, steps: seq<Step>, i: nat, m: MSocket)
    requires IsRun(cmp, states, steps) && i < |states| && m in states[i].socks
    ensures Has(states[i], m) && IssuedBy(states[i].env, m) <= 4 && states[i].lookups[m].retries <= 1
  {
    RunsKeepInv(cmp, states, steps, i);
    hide IsRun;
    assert SocketOk(states[i], m);
  }

  /** A confirmed name was given by a PTR answer for the socket's own address and led back to that
      address, with the comparison the comment at line 693 describes. */
  lemma NamesAreConfirmed(states: seq<State>, steps: seq<Step>, i: nat, m: MSocket)
    requires IsRun(AsDocumented, states, steps) && i < |states| && Has(states[i], m)
    requires states[i].lookups[m].name.Some?
    ensures Confirmed(states[i].env, states[i].socks[m].remoteHost, states[i].lookups[m].name.value)
  {
    RunsKeepInv(AsDocumented, states, steps, i);
    hide IsRun, LookupsOk, TablesOk, CacheSound;
    assert NamesOk(AsDocumented, states[i]);
    assert NameOk(AsDocumented, states[i].env, states[i].socks[m].remoteHost, states[i].lookups[m]);
  }
}
