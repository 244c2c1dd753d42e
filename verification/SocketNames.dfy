/** When line 717 of msocket/dns.c, which compares an answered address with the candidate name
    instead of the remote address, still confirms only names that lead back to their sockets. */
module SocketNames {
  import opened Common
  import opened DnsCache
  import opened SocketModel
  import opened SocketLookups
  import opened SocketRuns
  import opened SocketTheorems

  /** The reply gets to line 717, for a socket that is no corpse, and passes there although its
      address is not the remote one: the name asked for is spelled like the answer. */
  predicate Harmful(st: State, q: Query, a: Answer)
    requires Has(st, q.m)
  {
    && Considered(st, q.m, a) && !st.socks[q.m].flags.waitDestroy
    && st.lookups[q.m].candidate == Some(a.addr) && a.addr != st.socks[q.m].remoteHost
  }

  /** A harmful reply for a name that no answer so far has led back to the socket. */
  ghost predicate MisleadingStep(st: State, step: Step) {
    && step.AReply? && Has(st, step.q.m) && Harmful(st, step.q, step.a)
    && !LeadsTo(st.env, step.a.addr, st.socks[step.q.m].remoteHost)
  }

  lemma OthersDoNotMislead(cmp: Comparison, st: State, q: Query, a: Answer, accepted: bool)
    requires Inv(cmp, st) && Enabled(st, AReply(q, a, accepted)) && !MisleadingStep(st, AReply(q, a, accepted))
    ensures var st1 := LogA(Answered(st, q), q.target, a);
            Has(st1, q.m) && (Considered(st1, q.m, a) ==> !Misleads(AsCoded, st1, q.m, a))
  {
    QueriesAreOk(cmp, st, q);
    hide Inv, SameHost;
    var st1 := LogA(Answered(st, q), q.target, a);
    if Considered(st1, q.m, a) {
      var host := st.socks[q.m].remoteHost;
      assert (q.target, a.addr) in st1.env.aLog;
      assert SameHost(q.target, q.target) by { SameAsItself(q.target); }
      assert LeadsTo(st.env, a.addr, host) ==> LeadsTo(st1.env, a.addr, host);
    }
  }

  lemma SameAsItself(h: string)
    ensures SameHost(h, h)
  {
  }

  lemma CodedReplyKeepsNames(st: State, step: Step)
    requires Inv(AsDocumented, st) && Enabled(st, step) && Defined(st, step)
    requires step.AReply? && !MisleadingStep(st, step)
    ensures Inv(AsDocumented, Apply(AsCoded, st, step))
  {
    OthersDoNotMislead(AsDocumented, st, step.q, step.a, step.accepted);
    hide Inv, Considered, Misleads, AAnswer, MisleadingStep;
    AReplyKeepsInv(AsDocumented, AsCoded, st, step.q, step.a, step.accepted);
  }

  /** Only A replies are compared at all. */
  lemma OthersAreNotCompared(st: State, step: Step)
    requires Defined(st, step) && !step.AReply?
    ensures Apply(AsCoded, st, step) == Apply(AsDocumented, st, step)
  {
  }

  /** As coded, every step but a misleading one keeps all names confirmed. */
  lemma CodedStepKeepsNames(st: State, step: Step)
    requires Inv(AsDocumented, st) && Enabled(st, step) && Defined(st, step) && !MisleadingStep(st, step)
    ensures Inv(AsDocumented, Apply(AsCoded, st, step))
  {
    if step.AReply? {
      CodedReplyKeepsNames(st, step);
    } else {
      OthersAreNotCompared(st, step);
      StepKeepsInv(AsDocumented, st, step);
    }
  }

  lemma {:induction false} CodedRunKeepsNames(states: seq<State>, steps: seq<Step>, i: nat)
    requires IsRun(AsCoded, states, steps) && i < |states|
    requires forall j: nat :: j < |steps| ==> !MisleadingStep(states[j], steps[j])
    ensures Inv(AsDocumented, states[i])
  {
    hide Inv, Apply, Enabled, Defined, MisleadingStep;
    if i == 0 {
      var now :| states[0] == Init(now);
      InitInv(AsDocumented, now);
    } else {
      CodedRunKeepsNames(states, steps, i - 1);
      CodedStepKeepsNames(states[i - 1], steps[i - 1]);
    }
  }

  lemma HarmfulIsFound(st: State, q: Query, a: Answer, accepted: bool)
    requires Inv(AsCoded, st) && Enabled(st, AReply(q, a, accepted)) && Has(st, q.m) && Harmful(st, q, a)
    ensures q.target == a.addr && (st.socks[q.m].remoteHost, a.addr) in st.env.ptrLog
    ensures var st1 := LogA(Answered(st, q), q.target, a);
            && st1.socks == st.socks && st1.lookups == st.lookups
            && st1.env.ptrLog == st.env.ptrLog && st1.env.aLog == st.env.aLog + {(a.addr, a.addr)}
            && AAnswer(AsCoded, st1, q.m, a, accepted) == AFound(AsCoded, st1, q.m, a)
  {
    QueriesAreOk(AsCoded, st, q);
    hide Inv, AFound, AFailed, Retry;
  }

  lemma FoundIsNamed(st: State, m: MSocket, a: Answer)
    requires Has(st, m) && st.lookups[m].candidate == Some(a.addr) && !st.socks[m].flags.waitDestroy
    ensures var st' := AFound(AsCoded, st, m, a);
            st'.socks == st.socks && st'.env == st.env && Has(st', m) && st'.lookups[m].name == Some(a.addr)
  {
    hide Add;
  }

  /** Right after a harmful reply the candidate is the name, and it is confirmed exactly when some A
      answer for it gave the remote address before. */
  lemma HarmfulReply(st: State, step: Step)
    requires Inv(AsCoded, st) && Enabled(st, step) && Defined(st, step)
    requires step.AReply? && Has(st, step.q.m) && Harmful(st, step.q, step.a)
    ensures var st', m, host := Apply(AsCoded, st, step), step.q.m, st.socks[step.q.m].remoteHost;
            && Has(st', m) && st'.socks == st.socks && st'.lookups[m].name == Some(step.a.addr)
            && (Confirmed(st'.env, host, step.a.addr) <==> LeadsTo(st.env, step.a.addr, host))
  {
    hide Apply, Defined, Enabled, Inv, LeadsTo, AAnswer, AFound, LogA, Answered;
    var q, a := step.q, step.a;
    AIsApplied(AsCoded, st, q, a, step.accepted);
    HarmfulIsFound(st, q, a, step.accepted);
    FoundIsNamed(LogA(Answered(st, q), q.target, a), q.m, a);
    LeadsWithOther(st.env, Apply(AsCoded, st, step).env, (a.addr, a.addr), a.addr, st.socks[q.m].remoteHost);
  }

  /** An answer with another address leads no name to this one. */
  lemma LeadsWithOther(env: Env, env': Env, pair: (string, string), name: string, host: string)
    requires env'.aLog == env.aLog + {pair} && pair.1 != host
    ensures LeadsTo(env', name, host) <==> LeadsTo(env, name, host)
  {
    hide SameHost;
  }

  /** In a run as coded, every name is at every moment given by a PTR answer for the socket's own
      address and led back to it by an A answer, exactly when no reply was misleading. */
  lemma CodedNamesAreConfirmed(states: seq<State>, steps: seq<Step>)
    requires IsRun(AsCoded, states, steps)
    ensures (forall i: nat, m :: i < |states| && Has(states[i], m) && states[i].lookups[m].name.Some? ==>
               Confirmed(states[i].env, states[i].socks[m].remoteHost, states[i].lookups[m].name.value))
            <==> (forall j: nat :: j < |steps| ==> !MisleadingStep(states[j], steps[j]))
  {
    hide Apply, Enabled, Defined, Confirmed, LeadsTo, Harmful;
    if forall j: nat :: j < |steps| ==> !MisleadingStep(states[j], steps[j]) {
      forall i: nat, m | i < |states| && Has(states[i], m) && states[i].lookups[m].name.Some?
        ensures Confirmed(states[i].env, states[i].socks[m].remoteHost, states[i].lookups[m].name.value)
      {
        CodedRunKeepsNames(states, steps, i);
        NamesOfInv(states[i], m);
      }
    }
    if j: nat :| j < |steps| && MisleadingStep(states[j], steps[j]) {
      RunsKeepInv(AsCoded, states, steps, j);
      HarmfulReply(states[j], steps[j]);
      var m := steps[j].q.m;
      assert Has(states[j + 1], m) && states[j + 1].lookups[m].name.Some?;
      assert !Confirmed(states[j + 1].env, states[j + 1].socks[m].remoteHost, states[j + 1].lookups[m].name.value);
    }
  }

  lemma NamesOfInv(st: State, m: MSocket)
    requires Inv(AsDocumented, st) && Has(st, m) && st.lookups[m].name.Some?
    ensures Confirmed(st.env, st.socks[m].remoteHost, st.lookups[m].name.value)
  {
    assert NameOk(AsDocumented, st.env, st.socks[m].remoteHost, st.lookups[m]);
  }

  /** So a run as coded without harmful replies confirms only right names. */
  lemma HarmlessRunsConfirm(states: seq<State>, steps: seq<Step>, i: nat, m: MSocket)
    requires IsRun(AsCoded, states, steps) && i < |states|
    requires forall j: nat :: j < |steps| && steps[j].AReply? && Has(states[j], steps[j].q.m) ==>
               !Harmful(states[j], steps[j].q, steps[j].a)
    requires Has(states[i], m) && states[i].lookups[m].name.Some?
    ensures Confirmed(states[i].env, states[i].socks[m].remoteHost, states[i].lookups[m].name.value)
  {
    hide IsRun, Harmful, Confirmed;
    CodedRunKeepsNames(states, steps, i);
    NamesOfInv(states[i], m);
  }
}
