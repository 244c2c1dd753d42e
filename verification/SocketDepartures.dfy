/** Progress of lookups, and the places where the code departs from what it says it does, each
    with a run that shows it and the exact condition under which it does not matter. */
module SocketDepartures {
  import opened Common
  import opened DnsCache
  import opened SocketModel
  import opened SocketSafety
  import opened SocketLookups
  import opened SocketRuns
  import opened SocketTheorems

  // ----- Progress --------------------------------------------------------------------------

  /** Every query of m's has fewer than n queries to follow it, itself not counted. */
  ghost predicate LeftBelow(st: State, m: MSocket, n: int)
    requires Has(st, m)
  {
    forall q :: q in st.env.queries && q.m == m ==> Left(st.lookups[m].retries, q.phase) < n
  }

  ghost predicate Quiet(st: State, m: MSocket) {
    Has(st, m) && forall q :: q in st.env.queries ==> q.m != m
  }

  lemma FindRevLeft(st: State, m: MSocket, accepted: bool)
    requires Quiet(st, m)
    ensures var st' := FindRev(st, m, accepted);
            Has(st', m) && LeftBelow(st', m, 2 * (1 - st.lookups[m].retries) + 2)
  {
    hide Find;
  }

  lemma RetryLeft(st: State, m: MSocket, d: Lookup, accepted: bool)
    requires Quiet(st, m) && d.retries <= 1
    ensures var st' := Retry(st, m, d, accepted);
            Has(st', m) && LeftBelow(st', m, 2 * (1 - d.retries))
  {
    hide FindRev;
    if d.retries == 0 {
      FindRevLeft(PutDns(st, m, d.(retries := 1)), m, accepted);
    }
  }

  lemma PtrAnswerLeft(st: State, m: MSocket, a: Answer, accepted: bool)
    requires Quiet(st, m) && st.lookups[m].retries <= 1
    ensures var st' := PtrAnswer(st, m, a, accepted);
            Has(st', m) && LeftBelow(st', m, Left(st.lookups[m].retries, PtrPhase))
  {
    hide Retry, Find, Add;
    RetryLeft(st, m, st.lookups[m], accepted);
  }

  lemma AAnswerLeft(cmp: Comparison, st: State, m: MSocket, a: Answer, accepted: bool)
    requires Quiet(st, m) && st.lookups[m].retries <= 1
    ensures var st' := AAnswer(cmp, st, m, a, accepted);
            Has(st', m) && LeftBelow(st', m, Left(st.lookups[m].retries, APhase))
  {
    hide Retry, Find, Add;
    RetryLeft(st, m, st.lookups[m].(candidate := None), accepted);
  }

  lemma AnsweredIsQuiet(cmp: Comparison, st: State, q: Query)
    requires Inv(cmp, st) && q in st.env.queries
    ensures Has(st, q.m) && st.lookups[q.m].retries <= 1 && Quiet(Answered(st, q), q.m)
  {
    assert QueryOk(st, q) && SocketOk(st, q.m);
    AnsweredBut(st, q);
  }

  lemma PtrReplyLeft(cmp: Comparison, st: State, step: Step)
    requires Inv(cmp, st) && step.PtrReply? && Enabled(st, step) && Defined(st, step)
    ensures Has(Apply(cmp, st, step), step.q.m)
    ensures LeftBelow(Apply(cmp, st, step), step.q.m, Left(st.lookups[step.q.m].retries, PtrPhase))
  {
    hide Inv, Apply, Defined, PtrAnswer, LeftBelow;
    AnsweredIsQuiet(cmp, st, step.q);
    PtrIsApplied(cmp, st, step.q, step.a, step.accepted);
    PtrAnswerLeft(LogPtr(Answered(st, step.q), step.q, step.a), step.q.m, step.a, step.accepted);
  }

  lemma AReplyLeft(cmp: Comparison, st: State, step: Step)
    requires Inv(cmp, st) && step.AReply? && Enabled(st, step) && Defined(st, step)
    ensures Has(Apply(cmp, st, step), step.q.m)
    ensures LeftBelow(Apply(cmp, st, step), step.q.m, Left(st.lookups[step.q.m].retries, APhase))
  {
    hide Inv, Apply, Defined, AAnswer, LeftBelow;
    AnsweredIsQuiet(cmp, st, step.q);
    AIsApplied(cmp, st, step.q, step.a, step.accepted);
    AAnswerLeft(cmp, LogA(Answered(st, step.q), step.q.target, step.a), step.q.m, step.a, step.accepted);
  }

  /** Across a callback the number of queries a lookup may still issue strictly decreases: retries
      left and phase together are a termination measure. */
  lemma CallbacksMakeProgress(cmp: Comparison, states: seq<State>, steps: seq<Step>, i: nat, q: Query, r: Query)
    requires IsRun(cmp, states, steps) && i < |steps|
    requires (steps[i].PtrReply? || steps[i].AReply?) && q == steps[i].q
    requires r in states[i + 1].env.queries && r.m == q.m
    ensures Has(states[i], q.m) && Has(states[i + 1], q.m)
    ensures 0 <= Left(states[i + 1].lookups[r.m].retries, r.phase) < Left(states[i].lookups[q.m].retries, q.phase)
  {
    RunsKeepInv(cmp, states, steps, i);
    RunsKeepInv(cmp, states, steps, i + 1);
    RunsTakeSteps(cmp, states, steps, i);
    hide IsRun, Inv, Defined, Apply, Enabled;
    QueriesAreOk(cmp, states[i + 1], r);
    FourQueries(cmp, states, steps, i + 1, q.m);
    if steps[i].PtrReply? {
      PtrReplyLeft(cmp, states[i], steps[i]);
      ReplyIsExpected(states[i], steps[i]);
    } else {
      AReplyLeft(cmp, states[i], steps[i]);
      ReplyIsExpected(states[i], steps[i]);
    }
    QueriesAreOk(cmp, states[i], q);
  }

  // ----- Retries ---------------------------------------------------------------------------

  /** Of the lookups only m's is different. */
  ghost predicate OnlyLookup(st: State, st': State, m: MSocket) {
    Has(st', m) && st'.lookups == st.lookups[m := st'.lookups[m]]
  }

  lemma FindRevLookup(st: State, m: MSocket, accepted: bool)
    requires Has(st, m)
    ensures OnlyLookup(st, FindRev(st, m, accepted), m)
    ensures FindRev(st, m, accepted).lookups[m].retries == st.lookups[m].retries
  {
    hide Find;
  }

  lemma RetryLookup(st: State, m: MSocket, d: Lookup, accepted: bool)
    requires Has(st, m)
    ensures OnlyLookup(st, Retry(st, m, d, accepted), m)
  {
    hide FindRev;
    if d.retries == 0 { FindRevLookup(PutDns(st, m, d.(retries := 1)), m, accepted); }
  }

  lemma PtrAnswerLookup(st: State, m: MSocket, a: Answer, accepted: bool)
    requires Has(st, m)
    ensures OnlyLookup(st, PtrAnswer(st, m, a, accepted), m)
  {
    hide Retry, Find, Add;
    RetryLookup(st, m, st.lookups[m], accepted);
  }

  lemma AAnswerLookup(cmp: Comparison, st: State, m: MSocket, a: Answer, accepted: bool)
    requires Has(st, m)
    ensures OnlyLookup(st, AAnswer(cmp, st, m, a, accepted), m)
  {
    hide Retry, Add;
    RetryLookup(st, m, st.lookups[m].(candidate := None), accepted);
  }

  /** Every socket that stays keeps its retry count, m perhaps excepted. */
  ghost predicate RetriesKept(st: State, st': State, but: set<MSocket>) {
    forall x :: x in st.lookups && x in st'.lookups && x !in but ==> st'.lookups[x].retries == st.lookups[x].retries
  }

  lemma DestroyKeepsRetries(st: State, m: MSocket)
    requires Shaped(st) && Listed(st) && AtFd(st, m)
    ensures RetriesKept(st, Destroy(st, m), {})
    ensures Destroy(st, m).lookups.Keys <= st.lookups.Keys
  {
  }

  lemma HouseAtKeepsRetries(st: State, i: nat, sent: set<int>)
    requires Shaped(st) && Fds(st) && i < HIGHSOCK && ReadsAreDefined(st, i)
    ensures RetriesKept(st, HouseAt(st, i, sent), {}) && HouseAt(st, i, sent).lookups.Keys <= st.lookups.Keys
  {
    hide Destroy;
    if st.list[i] != null { DestroyKeepsRetries(st, st.list[i]); }
    if st.corpses[i] != null { DestroyKeepsRetries(st, st.corpses[i]); }
  }

  lemma {:induction false} HouseFromKeepsRetries(st: State, i: nat, sent: set<int>)
    ensures RetriesKept(st, HouseFrom(st, i, sent), {}) && HouseFrom(st, i, sent).lookups.Keys <= st.lookups.Keys
    decreases HIGHSOCK - i
  {
    hide Fds, ReadsAreDefined, Shaped, HouseAt;
    if i < HIGHSOCK && Shaped(st) && Fds(st) && ReadsAreDefined(st, i) {
      HouseAtKeepsRetries(st, i, sent);
      HouseFromKeepsRetries(HouseAt(st, i, sent), i + 1, sent);
    }
  }

  lemma EndStepKeepsRetries(cmp: Comparison, st: State, step: Step)
    requires Defined(st, step)
    requires step.DestroySocket? || step.CloseSocket? || step.Readable? || step.Housekeeping?
    ensures RetriesKept(st, Apply(cmp, st, step), {})
  {
    hide Destroy, Close, ReadEvent, HouseFrom, Faults, Fds, Listed, AtFd, RetriesKept;
    match step
    case DestroySocket(m) => DestroyKeepsRetries(st, m);
    case CloseSocket(m, sent) => CloseKeepsRetries(st, m, sent);
    case Readable(fd, gone) => ReadKeepsRetries(st, st.revents[fd], gone);
    case Housekeeping(flushed) => HouseFromKeepsRetries(st, 0, flushed);
  }

  lemma CloseKeepsRetries(st: State, m: MSocket, sent: bool)
    requires Shaped(st) && Listed(st) && AtFd(st, m)
    ensures RetriesKept(st, Close(st, m, sent), {})
  {
    DestroyKeepsRetries(AfterWrite(if st.socks[m].flags.muxActive then RemFd(st, st.socks[m].fd) else st, m, sent), m);
    hide Destroy;
  }

  lemma ReadKeepsRetries(st: State, m: MSocket, gone: bool)
    requires Shaped(st) && Listed(st) && AtFd(st, m)
    ensures RetriesKept(st, ReadEvent(st, m, gone), {})
  {
    DestroyKeepsRetries(st, m);
    hide Destroy;
  }

  lemma DnsStepKeepsRetries(cmp: Comparison, st: State, step: Step)
    requires Defined(st, step) && (step.StartLookup? || step.PtrReply? || step.AReply?)
    ensures RetriesKept(st, Apply(cmp, st, step), if step.StartLookup? then {} else {step.q.m})
  {
    hide FindRev, PtrAnswer, AAnswer;
    match step
    case StartLookup(m, accepted) => FindRevLookup(Restarted(st, m), m, accepted);
    case PtrReply(q, a, accepted) => PtrAnswerLookup(LogPtr(Answered(st, q), q, a), q.m, a, accepted);
    case AReply(q, a, accepted) => AAnswerLookup(cmp, LogA(Answered(st, q), q.target, a), q.m, a, accepted);
  }

  /** Nothing but a socket's own callbacks changes its retry count. */
  lemma StepKeepsRetries(cmp: Comparison, st: State, step: Step)
    requires Enabled(st, step) && Defined(st, step)
    requires step.Open? ==> step.m !in st.lookups
    ensures RetriesKept(st, Apply(cmp, st, step), if step.PtrReply? || step.AReply? then {step.q.m} else {})
  {
    if step.StartLookup? || step.PtrReply? || step.AReply? {
      hide Apply, Defined, Enabled;
      DnsStepKeepsRetries(cmp, st, step);
    } else if step.DestroySocket? || step.CloseSocket? || step.Readable? || step.Housekeeping? {
      hide Apply, Defined, Enabled;
      EndStepKeepsRetries(cmp, st, step);
    } else {
      hide Listed, Fds, Faults, Add, Sweep;
    }
  }

  lemma ResetIsByCallback(cmp: Comparison, st: State, step: Step, m: MSocket)
    requires Inv(cmp, st) && Enabled(st, step) && Defined(st, step)
    requires m in st.lookups && m in Apply(cmp, st, step).lookups
    requires Apply(cmp, st, step).lookups[m].retries != st.lookups[m].retries
    ensures (step.PtrReply? || step.AReply?) && step.q.m == m
  {
    SocketsHaveBoth(st);
    hide Inv, TablesOk, Defined, Apply, Enabled;
    StepKeepsRetries(cmp, st, step);
  }

  /** A retry count is reset only where the lookup ends: by a callback after which no query of the
      socket is outstanding. */
  lemma RetriesResetAtEnd(cmp: Comparison, states: seq<State>, steps: seq<Step>, i: nat, m: MSocket)
    requires IsRun(cmp, states, steps) && i < |steps|
    requires m in states[i].lookups && m in states[i + 1].lookups
    requires states[i].lookups[m].retries > 0 && states[i + 1].lookups[m].retries == 0
    ensures (steps[i].PtrReply? || steps[i].AReply?) && steps[i].q.m == m
    ensures forall r :: r in states[i + 1].env.queries ==> r.m != m
  {
    RunsKeepInv(cmp, states, steps, i);
    RunsTakeSteps(cmp, states, steps, i);
    hide IsRun, Inv, Defined, Apply, Enabled;
    ResetIsByCallback(cmp, states[i], steps[i], m);
    forall r | r in states[i + 1].env.queries ensures r.m != m {
      if r.m == m { CallbacksMakeProgress(cmp, states, steps, i, steps[i].q, r); }
    }
  }

  lemma RunsTakeSteps(cmp: Comparison, states: seq<State>, steps: seq<Step>, i: nat)
    requires IsRun(cmp, states, steps) && i < |steps|
    ensures Enabled(states[i], steps[i]) && Defined(states[i], steps[i])
    ensures states[i + 1] == Apply(cmp, states[i], steps[i])
  {
    hide Enabled, Defined, Apply;
  }

  lemma ReplyIsExpected(st: State, step: Step)
    requires Enabled(st, step) && (step.PtrReply? || step.AReply?)
    ensures step.q in st.env.queries
  {
  }

  // ----- Refused queries -------------------------------------------------------------------

  /** What one query for m can do to the set of the refused. */
  ghost predicate RefusedGrows(st: State, st': State, accepted: bool) {
    st.env.refused <= st'.env.refused && (accepted ==> st'.env.refused == st.env.refused)
  }

  lemma FindRevRefusal(st: State, m: MSocket, accepted: bool)
    requires Has(st, m)
    ensures RefusedGrows(st, FindRev(st, m, accepted), accepted)
  {
    hide Find;
  }

  lemma RetryRefusal(st: State, m: MSocket, d: Lookup, accepted: bool)
    requires Has(st, m)
    ensures RefusedGrows(st, Retry(st, m, d, accepted), accepted)
  {
    hide FindRev;
    FindRevRefusal(PutDns(st, m, d.(retries := 1)), m, accepted);
  }

  lemma PtrAnswerRefusal(st: State, m: MSocket, a: Answer, accepted: bool)
    requires Has(st, m)
    ensures RefusedGrows(st, PtrAnswer(st, m, a, accepted), accepted)
  {
    hide Retry, Find, Add;
    RetryRefusal(st, m, st.lookups[m], accepted);
  }

  lemma AAnswerRefusal(cmp: Comparison, st: State, m: MSocket, a: Answer, accepted: bool)
    requires Has(st, m)
    ensures RefusedGrows(st, AAnswer(cmp, st, m, a, accepted), accepted)
  {
    hide Retry, Add;
    RetryRefusal(st, m, st.lookups[m].(candidate := None), accepted);
  }

  lemma DestroyKeepsEnv(st: State, m: MSocket)
    requires Shaped(st) && Listed(st) && AtFd(st, m)
    ensures Destroy(st, m).env == st.env
  {
  }

  lemma CloseKeepsEnv(st: State, m: MSocket, sent: bool)
    requires Shaped(st) && Listed(st) && AtFd(st, m)
    ensures Close(st, m, sent).env == st.env
  {
    var st1 := if st.socks[m].flags.muxActive then RemFd(st, st.socks[m].fd) else st;
    DestroyKeepsEnv(AfterWrite(st1, m, sent), m);
    hide Destroy;
  }

  lemma {:induction false} HouseFromKeepsEnv(st: State, i: nat, sent: set<int>)
    ensures HouseFrom(st, i, sent).env == st.env
    decreases HIGHSOCK - i
  {
    hide Fds, Destroy, ReadsAreDefined, Shaped;
    if i < HIGHSOCK && Shaped(st) && Fds(st) && ReadsAreDefined(st, i) {
      HouseAtKeepsEnv(st, i, sent);
      hide HouseAt;
      HouseFromKeepsEnv(HouseAt(st, i, sent), i + 1, sent);
    }
  }

  lemma HouseAtKeepsEnv(st: State, i: nat, sent: set<int>)
    requires Shaped(st) && Fds(st) && i < HIGHSOCK && ReadsAreDefined(st, i)
    ensures HouseAt(st, i, sent).env == st.env
  {
    hide Destroy;
    if st.list[i] != null { DestroyKeepsEnv(st, st.list[i]); }
    if st.corpses[i] != null { DestroyKeepsEnv(st, st.corpses[i]); }
  }

  lemma ReadKeepsEnv(st: State, m: MSocket, gone: bool)
    requires Shaped(st) && Listed(st) && AtFd(st, m)
    ensures ReadEvent(st, m, gone).env == st.env
  {
    DestroyKeepsEnv(st, m);
    hide Destroy;
  }

  lemma DnsStepRefusal(cmp: Comparison, st: State, step: Step)
    requires Defined(st, step) && (step.StartLookup? || step.PtrReply? || step.AReply?)
    ensures RefusedGrows(st, Apply(cmp, st, step), Accepts(step))
  {
    hide FindRev, PtrAnswer, AAnswer;
    match step
    case StartLookup(m, accepted) => FindRevRefusal(Restarted(st, m), m, accepted);
    case PtrReply(q, a, accepted) => PtrAnswerRefusal(LogPtr(Answered(st, q), q, a), q.m, a, accepted);
    case AReply(q, a, accepted) => AAnswerRefusal(cmp, LogA(Answered(st, q), q.target, a), q.m, a, accepted);
  }

  lemma EndStepRefusal(cmp: Comparison, st: State, step: Step)
    requires Defined(st, step)
    requires step.DestroySocket? || step.CloseSocket? || step.Readable? || step.Housekeeping?
    ensures Apply(cmp, st, step).env == st.env
  {
    hide Destroy, Close, ReadEvent, HouseFrom, Faults, Listed, Fds, AtFd;
    match step
    case DestroySocket(m) => DestroyKeepsEnv(st, m);
    case CloseSocket(m, sent) => CloseKeepsEnv(st, m, sent);
    case Readable(fd, gone) => ReadKeepsEnv(st, st.revents[fd], gone);
    case Housekeeping(flushed) => HouseFromKeepsEnv(st, 0, flushed);
  }

  /** The refused only become more, and not even that where evdns accepts what it is given. */
  lemma StepRefusal(cmp: Comparison, st: State, step: Step)
    requires Defined(st, step)
    ensures RefusedGrows(st, Apply(cmp, st, step), Accepts(step))
  {
    if step.StartLookup? || step.PtrReply? || step.AReply? {
      hide Apply, Defined;
      DnsStepRefusal(cmp, st, step);
    } else if step.DestroySocket? || step.CloseSocket? || step.Readable? || step.Housekeeping? {
      hide Apply, Defined;
      EndStepRefusal(cmp, st, step);
    } else {
      hide Listed, Fds, Faults, Add, Sweep;
    }
  }

  lemma {:induction false} RefusedStay(cmp: Comparison, states: seq<State>, steps: seq<Step>, i: nat, j: nat)
    requires IsRun(cmp, states, steps) && i <= j < |states|
    ensures states[i].env.refused <= states[j].env.refused
    decreases j - i
  {
    hide Apply, Enabled, Defined;
    if i < j {
      RefusedStay(cmp, states, steps, i, j - 1);
      StepRefusal(cmp, states[j - 1], steps[j - 1]);
    }
  }

  /** A socket whose query was refused waits for ever and is never freed, and no query is
      outstanding that could end that. */
  lemma RefusedWaitsForEver(cmp: Comparison, states: seq<State>, steps: seq<Step>, i: nat, j: nat, m: MSocket)
    requires IsRun(cmp, states, steps) && i <= j < |states| && m in states[i].env.refused
    ensures Has(states[j], m) && states[j].lookups[m].waiting && !OneQuery(states[j], m)
  {
    RefusedStay(cmp, states, steps, i, j);
    RunsKeepInv(cmp, states, steps, j);
    hide IsRun, OneQuery;
    WaitingIsOneQuery(cmp, states, steps, j, m);
  }

  /** When evdns accepts every query it is given, no socket is ever left with a refused one: then
      WAITDNS is set exactly while one reverse query is outstanding, and the counter is exact. */
  lemma {:induction false} WithoutRefusals(cmp: Comparison, states: seq<State>, steps: seq<Step>, i: nat)
    requires IsRun(cmp, states, steps) && i < |states|
    requires forall j :: 0 <= j < |steps| ==> Accepts(steps[j])
    ensures states[i].env.refused == {}
    ensures states[i].active == |states[i].env.queries| + states[i].env.forward
    ensures forall m :: m in states[i].socks ==>
              Has(states[i], m) && (states[i].lookups[m].waiting <==> OneQuery(states[i], m))
  {
    hide Apply, Enabled, OneQuery;
    if i > 0 {
      WithoutRefusals(cmp, states, steps, i - 1);
      StepRefusal(cmp, states[i - 1], steps[i - 1]);
    }
    hide Defined;
    assert states[i].env.refused == {};
    ActiveQueriesAreCounted(cmp, states, steps, i);
    forall m | m in states[i].socks
      ensures Has(states[i], m) && (states[i].lookups[m].waiting <==> OneQuery(states[i], m))
    {
      WaitingIsOneQuery(cmp, states, steps, i, m);
    }
  }

  // ----- Lines 633 to 645: an error that falls through ------------------------------------

  /** An unexpected error on the second attempt is not handled where errors are, but as it carries no
      records the tests that follow end the lookup. */
  lemma FallThroughGivesUp(cmp: Comparison, st: State, m: MSocket, a: Answer, accepted: bool)
    requires Has(st, m) && st.lookups[m].candidate.Some? && st.lookups[m].retries > 0
    requires a.result != NoError && !Terminal(a.result) && a.count == 0
    ensures AAnswer(cmp, st, m, a, accepted) == PutDns(st, m, GIVEN_UP)
  {
    hide FindRev, AFound, AFailed;
  }

  // ----- Line 717: which address the A answer is compared with -----------------------------

  /** As coded, an A answer confirms a name only if the name is spelled like the address.  The
      outcome is the documented one exactly when the two comparisons agree on this answer. */
  lemma CodedComparisonAgrees(st: State, m: MSocket, a: Answer)
    requires Has(st, m) && st.lookups[m].candidate.Some?
    ensures AFound(AsCoded, st, m, a) == AFound(AsDocumented, st, m, a) <==>
            st.socks[m].flags.waitDestroy
            || (a.addr == st.lookups[m].candidate.value <==> a.addr == st.socks[m].remoteHost)
  {
    hide Add;
    var s1, s2 := AFound(AsCoded, st, m, a), AFound(AsDocumented, st, m, a);
    assert s1.lookups[m].name == s2.lookups[m].name || s1 != s2;
  }

  /** A name that really leads back to the address is given up, unless it is spelled like it. */
  lemma CodedComparisonRejects(st: State, m: MSocket, a: Answer)
    requires Has(st, m) && st.lookups[m].candidate.Some? && !st.socks[m].flags.waitDestroy
    requires a.addr == st.socks[m].remoteHost && a.addr != st.lookups[m].candidate.value
    ensures AFound(AsCoded, st, m, a).lookups[m].name == None
    ensures AFound(AsDocumented, st, m, a).lookups[m].name == st.lookups[m].candidate
  {
    hide Add;
  }

  // ----- Runs ------------------------------------------------------------------------------

  const HOST: IpText := "1.2.3.4"
  const OTHER: IpText := "9.9.9.9"

  function OpenStep(m: MSocket): Step {
    Open(m, 0, Stream4, false, HOST, true, false, false, 60)
  }

  lemma NothingFound(h: string, t: RecordType)
    ensures Find(Empty(MAXDNSCACHE), h, t) == None
  {
    FindFinds(Empty(MAXDNSCACHE), h, t);
    assert forall e :: Some(e) !in Empty(MAXDNSCACHE);
  }

  /** A possible step other than housekeeping extends a run. */
  lemma Extend(cmp: Comparison, states: seq<State>, steps: seq<Step>, step: Step)
    requires IsRun(cmp, states, steps) && Enabled(states[|steps|], step) && !step.Housekeeping?
    ensures Defined(states[|steps|], step)
    ensures IsRun(cmp, states + [Apply(cmp, states[|steps|], step)], steps + [step])
  {
    RunsOnlyFaultInHousekeeping(cmp, states, steps, step);
    hide Apply, Enabled, Defined;
  }

  /** The beginning of the runs: a socket is accepted at descriptor 0 and its lookup starts. */
  lemma LookupStarts(cmp: Comparison, m: MSocket, accepted: bool) returns (states: seq<State>, steps: seq<Step>)
    ensures IsRun(cmp, states, steps) && |steps| == 2
    ensures var st := states[2];
            && st.socks == map[m := Opened(0, 0, Stream4, false, HOST, true, false, false, 60)]
            && st.lookups == map[m := Lookup(true, None, None, 0)]
            && st.env.queries == (if accepted then multiset{Query(m, PtrPhase, HOST)} else multiset{})
            && st.env.refused == (if accepted then {} else {m})
            && st.env.aLog == {} && st.cache == Empty(MAXDNSCACHE)
            && Shaped(st) && st.list[0] == m && st.corpses[0] == null
  {
    states, steps := [Init(0)], [];
    Extend(cmp, states, steps, OpenStep(m));
    states, steps := states + [Apply(cmp, states[0], OpenStep(m))], steps + [OpenStep(m)];
    NothingFound(HOST, Ptr);
    Extend(cmp, states, steps, StartLookup(m, accepted));
    states, steps := states + [Apply(cmp, states[1], StartLookup(m, accepted))], steps + [StartLookup(m, accepted)];
    hide IsRun, Find;
  }

  /** When evdns refuses the first query, the socket waits although nothing is outstanding. */
  lemma RefusedQueryIsMissed(cmp: Comparison, m: MSocket) returns (states: seq<State>, steps: seq<Step>)
    ensures IsRun(cmp, states, steps)
    ensures var st := states[|steps|];
            m in st.env.refused && Has(st, m) && st.lookups[m].waiting && st.env.queries == multiset{}
  {
    states, steps := LookupStarts(cmp, m, false);
  }

  /** Destroying a socket while its lookup is outstanding makes the next housekeeping read the
      flags of a null pointer, as long as the descriptor is not in use again. */
  lemma HousekeepingCanFault(cmp: Comparison, m: MSocket) returns (states: seq<State>, steps: seq<Step>)
    ensures IsRun(cmp, states, steps)
    ensures Enabled(states[|steps|], Housekeeping({})) && !Defined(states[|steps|], Housekeeping({}))
  {
    states, steps := LookupStarts(cmp, m, true);
    Extend(cmp, states, steps, DestroySocket(m));
    states, steps := states + [Apply(cmp, states[2], DestroySocket(m))], steps + [DestroySocket(m)];
    hide IsRun;
    assert states[3].corpses[0] == m && states[3].list[0] == null;
    assert !ReadsAreDefined(states[3], 0);
  }

  /** A cache that has only ever seen one PTR record knows no A record. */
  lemma NoAddressYet(ttl: int, now: int)
    ensures Find(Add(Empty(MAXDNSCACHE), Ptr, Some(HOST), Some(OTHER), ttl, now).0, OTHER, A) == None
  {
    var op := AddOp(Ptr, Some(HOST), Some(OTHER), ttl, now);
    var s := Add(Empty(MAXDNSCACHE), Ptr, Some(HOST), Some(OTHER), ttl, now).0;
    assert forall e :: Some(e) !in Empty(MAXDNSCACHE);
    FindFinds(s, OTHER, A);
    hide Find, Add;
    forall e | Some(e) in s
      ensures e == EntryOf(op)
    {
      AddStep(Empty(MAXDNSCACHE), op, e);
    }
  }

  const PTR_ANSWER := Answer(NoError, PtrName, 1, 600, OTHER, HOST)
  const A_ANSWER := Answer(NoError, IPv4A, 1, 600, "", OTHER)

  lemma PtrNamesAnAddress(cmp: Comparison, st: State, m: MSocket, q: Query)
    requires q == Query(m, PtrPhase, HOST) && Defined(st, PtrReply(q, PTR_ANSWER, true))
    requires st.socks == map[m := Opened(0, 0, Stream4, false, HOST, true, false, false, 60)]
    requires st.lookups == map[m := Lookup(true, None, None, 0)]
    requires st.env.queries == multiset{q}
    requires st.cache == Empty(MAXDNSCACHE)
    ensures var st' := Apply(cmp, st, PtrReply(q, PTR_ANSWER, true));
            && st'.socks == st.socks && st'.lookups == map[m := Lookup(true, None, Some(OTHER), 0)]
            && st'.env.queries == multiset{Query(m, APhase, OTHER)} && st'.env.aLog == st.env.aLog
  {
    NoAddressYet(600, st.now);
    hide Find, Add;
  }

  lemma ANamesTheSameAddress(st: State, m: MSocket, r: Query)
    requires r == Query(m, APhase, OTHER) && Defined(st, AReply(r, A_ANSWER, true))
    requires st.socks == map[m := Opened(0, 0, Stream4, false, HOST, true, false, false, 60)]
    requires st.lookups == map[m := Lookup(true, None, Some(OTHER), 0)] && st.env.aLog == {}
    ensures var st' := Apply(AsCoded, st, AReply(r, A_ANSWER, true));
            && st'.socks == st.socks && st'.lookups == map[m := Lookup(false, Some(OTHER), None, 0)]
            && st'.env.aLog == {(OTHER, OTHER)}
  {
    hide Add;
  }

  /** As coded, a client at 1.2.3.4 whose PTR record is the text "9.9.9.9" gets that confirmed as
      its name by an A answer that leads to 9.9.9.9 and not back to the client. */
  lemma CodedComparisonMisleads(m: MSocket) returns (states: seq<State>, steps: seq<Step>)
    ensures IsRun(AsCoded, states, steps)
    ensures var st := states[|steps|];
            && Has(st, m) && st.lookups[m].name == Some(OTHER)
            && !Confirmed(st.env, st.socks[m].remoteHost, OTHER)
  {
    var q, r := Query(m, PtrPhase, HOST), Query(m, APhase, OTHER);
    var step3, step4 := PtrReply(q, PTR_ANSWER, true), AReply(r, A_ANSWER, true);
    states, steps := LookupStarts(AsCoded, m, true);
    Extend(AsCoded, states, steps, step3);
    PtrNamesAnAddress(AsCoded, states[2], m, q);
    states, steps := states + [Apply(AsCoded, states[2], step3)], steps + [step3];
    hide IsRun, Apply, Defined;
    Extend(AsCoded, states, steps, step4);
    ANamesTheSameAddress(states[3], m, r);
    states, steps := states + [Apply(AsCoded, states[3], step4)], steps + [step4];
  }
}
