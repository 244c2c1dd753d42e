/** Every step of a run keeps the joint invariant, and what follows for whole runs. */
module SocketRuns {
  import opened Common
  import opened DnsCache
  import opened SocketModel
  import opened SocketSafety
  import opened SocketLookups

  ghost predicate Inv(cmp: Comparison, st: State) {
    TablesOk(st) && Settled(cmp, st)
  }

  // ----- Steps that leave the resolver's side alone ----------------------------------------

  /** The lookups of the sockets that are left are as they were, and whoever is gone was idle. */
  ghost predicate LookupsStay(st: State, st': State) {
    && st'.lookups.Keys == st'.socks.Keys
    && (forall x :: x in st'.lookups ==> x in st.lookups && st'.lookups[x] == st.lookups[x])
    && (forall x :: x in st.lookups && x !in st'.lookups ==> !st.lookups[x].waiting)
  }

  lemma QueriesSurvive(st: State, st': State)
    requires LookupsOk(st) && OnlyTables(st, st') && LookupsStay(st, st')
    ensures QueriesOk(st')
  {
    forall q | q in st'.env.queries ensures QueryOk(st', q) { assert QueryOk(st, q); }
  }

  lemma SocketsSurvive(st: State, st': State)
    requires LookupsOk(st) && OnlyTables(st, st') && LookupsStay(st, st')
    ensures forall x :: x in st'.socks ==> SocketOk(st', x)
    ensures forall m :: m in st'.env.refused ==> m in st'.socks
  {
    forall x | x in st'.socks ensures SocketOk(st', x) { assert SocketOk(st, x); }
    forall m | m in st'.env.refused ensures m in st'.socks { assert SocketOk(st, m); }
  }

  lemma TablesOnlySettles(cmp: Comparison, st: State, st': State)
    requires Settled(cmp, st) && OnlyTables(st, st') && LookupsStay(st, st')
    ensures Settled(cmp, st')
  {
    hide SocketOk, QueriesOk;
    QueriesSurvive(st, st');
    SocketsSurvive(st, st');
  }

  lemma DestroyKeepsInv(cmp: Comparison, st: State, m: MSocket)
    requires Inv(cmp, st) && m in st.socks
    ensures Listed(st) && AtFd(st, m) && Inv(cmp, Destroy(st, m))
  {
    TablesMeanFds(st);
    DestroyKeepsTables(st, m);
    DestroyFrees(st, m);
    hide Destroy, OnlyTables, LookupsOk, CacheSound, NamesOk, SockOk, SlotOk;
    assert LookupsStay(st, Destroy(st, m));
    TablesOnlySettles(cmp, st, Destroy(st, m));
  }

  lemma RemFdKeepsInv(cmp: Comparison, st: State, fd: int)
    requires Inv(cmp, st) && fd < HIGHSOCK
    ensures 0 <= fd && st.list[fd] != null ==> st.list[fd] in st.socks
    ensures Inv(cmp, RemFd(st, fd))
  {
    TablesMeanFds(st);
    RemFdKeepsTables(st, fd);
    RemFdOnlyTables(st, fd);
    hide RemFd, OnlyTables, LookupsOk, CacheSound, NamesOk, SockOk, SlotOk;
    TablesOnlySettles(cmp, st, RemFd(st, fd));
  }

  /** The socket leaves the mux if it is in it. */
  lemma QuietKeepsInv(cmp: Comparison, st: State, m: MSocket)
    requires Inv(cmp, st) && m in st.socks
    ensures Listed(st) && AtFd(st, m)
    ensures var st1 := if st.socks[m].flags.muxActive then RemFd(st, st.socks[m].fd) else st;
            Inv(cmp, st1) && m in st1.socks
  {
    TablesMeanFds(st);
    RemFdKeepsInv(cmp, st, st.socks[m].fd);
    RemFdOnlyTables(st, st.socks[m].fd);
    hide Inv;
  }

  lemma AfterWriteKeepsInv(cmp: Comparison, st: State, m: MSocket, sent: bool)
    requires Inv(cmp, st) && m in st.socks
    ensures Inv(cmp, AfterWrite(st, m, sent)) && m in AfterWrite(st, m, sent).socks
  {
    TouchKeepsInv(cmp, st, m, st.socks[m].(lastSend := st.now));
  }

  lemma CloseKeepsInv(cmp: Comparison, st: State, m: MSocket, sent: bool)
    requires Inv(cmp, st) && m in st.socks
    ensures Listed(st) && AtFd(st, m) && Inv(cmp, Close(st, m, sent))
  {
    QuietKeepsInv(cmp, st, m);
    hide Inv, Destroy, RemFd, AfterWrite, Listed;
    var st1 := if st.socks[m].flags.muxActive then RemFd(st, st.socks[m].fd) else st;
    AfterWriteKeepsInv(cmp, st1, m, sent);
    DestroyKeepsInv(cmp, AfterWrite(st1, m, sent), m);
  }

  lemma AddFdKeepsInv(cmp: Comparison, st: State, m: MSocket)
    requires Inv(cmp, st) && m in st.socks && !st.socks[m].flags.waitDestroy
    ensures AtFd(st, m) && Inv(cmp, AddFd(st, m))
  {
    TablesMeanFds(st);
    AddFdKeepsTables(st, m);
    assert OnlyTables(st, AddFd(st, m));
    hide AddFd, OnlyTables, LookupsOk, CacheSound, NamesOk, SockOk, SlotOk;
    TablesOnlySettles(cmp, st, AddFd(st, m));
  }

  /** Only time stamps or the connection bits differ. */
  predicate Touched(s: Sock, s': Sock) {
    && s'.fd == s.fd && s'.remoteHost == s.remoteHost
    && s'.flags == s.flags.(waitConn := s'.flags.waitConn, connected := s'.flags.connected)
  }

  lemma TouchKeepsTables(st: State, m: MSocket, s: Sock)
    requires TablesOk(st) && m in st.socks && Touched(st.socks[m], s)
    ensures TablesOk(Put(st, m, s))
  {
    var st' := Put(st, m, s);
    forall i | 0 <= i < HIGHSOCK ensures SlotOk(st', i) { assert SlotOk(st, i); }
    forall x | x in st'.socks ensures SockOk(st', x) { assert SockOk(st, x); }
  }

  lemma TouchKeepsInv(cmp: Comparison, st: State, m: MSocket, s: Sock)
    requires Inv(cmp, st) && m in st.socks && Touched(st.socks[m], s)
    ensures Inv(cmp, Put(st, m, s))
  {
    hide SlotOk, SockOk, LookupsOk, CacheSound, NamesOk;
    TouchKeepsTables(st, m, s);
    TablesOnlySettles(cmp, st, Put(st, m, s));
  }

  lemma EventsAreOwned(st: State, fd: int)
    requires TablesOk(st) && 0 <= fd < HIGHSOCK && st.revents[fd] != null
    ensures st.revents[fd] == st.wevents[fd] == st.list[fd] && AtFd(st, st.list[fd]) && st.socks[st.list[fd]].fd == fd
  {
    assert SlotOk(st, fd);
    TablesMeanFds(st);
  }

  lemma ReadKeepsInv(cmp: Comparison, st: State, m: MSocket, gone: bool)
    requires Inv(cmp, st) && m in st.socks && Listed(st) && AtFd(st, m)
    ensures Inv(cmp, ReadEvent(st, m, gone))
  {
    hide Inv, Destroy;
    DestroyKeepsInv(cmp, st, m);
    TouchKeepsInv(cmp, st, m, st.socks[m].(lastRecv := st.now));
  }

  lemma WriteKeepsInv(cmp: Comparison, st: State, m: MSocket, sent: bool)
    requires Inv(cmp, st) && m in st.socks
    ensures Inv(cmp, WriteEvent(st, m, sent))
  {
    hide Inv;
    var s := WithFlags(st.socks[m], st.socks[m].flags.(waitConn := false, connected := true));
    TouchKeepsInv(cmp, st, m, if sent then s.(lastSend := st.now) else s);
  }

  // ----- Housekeeping ----------------------------------------------------------------------

  lemma HouseAtKeepsInv(cmp: Comparison, st: State, i: nat, sent: set<int>)
    requires Inv(cmp, st) && i < HIGHSOCK && ReadsAreDefined(st, i)
    ensures Shaped(st) && Fds(st) && Inv(cmp, HouseAt(st, i, sent))
  {
    TablesMeanFds(st);
    hide Inv, Destroy, TablesOk, AfterWrite;
    var c, l := st.corpses[i], st.list[i];
    if c != null && st.socks[c].flags.waitDestroy && !Waiting(st, l) {
      DestroyKeepsInv(cmp, st, c);
    } else if l == null {
    } else if TimedOut(st.socks[l], st.now) || Idle(st.socks[l], st.now) {
      DestroyKeepsInv(cmp, st, l);
    } else {
      AfterWriteKeepsInv(cmp, st, l, i in sent && !IsListener(st.socks[l].kind) && !st.socks[l].allowIdle);
    }
  }

  lemma DismantleIsLocal(st: State, m: MSocket, j: nat)
    requires Shaped(st) && AtFd(st, m) && j < HIGHSOCK && j != st.socks[m].fd
    ensures var st' := Dismantle(st, m);
            Shaped(st') && st'.list[j] == st.list[j] && st'.corpses[j] == st.corpses[j]
  {
  }

  lemma DestroyIsLocal(st: State, m: MSocket, j: nat)
    requires Shaped(st) && Listed(st) && AtFd(st, m) && j < HIGHSOCK && j != st.socks[m].fd
    ensures var st' := Destroy(st, m);
            Shaped(st') && st'.list[j] == st.list[j] && st'.corpses[j] == st.corpses[j]
  {
    hide Dismantle;
    DismantleIsLocal(if st.socks[m].flags.muxActive then RemFd(st, st.socks[m].fd) else st, m, j);
  }

  /** A round at i changes no slot of another descriptor. */
  lemma HouseAtIsLocal(st: State, i: nat, sent: set<int>, j: nat)
    requires Shaped(st) && Fds(st) && i < HIGHSOCK && ReadsAreDefined(st, i) && j < HIGHSOCK && i != j
    ensures var st' := HouseAt(st, i, sent);
            Shaped(st') && st'.list[j] == st.list[j] && st'.corpses[j] == st.corpses[j]
  {
    hide Destroy;
    var c, l := st.corpses[i], st.list[i];
    if c != null && st.socks[c].flags.waitDestroy && !Waiting(st, l) {
      DestroyIsLocal(st, c, j);
    } else if l != null {
      DestroyIsLocal(st, l, j);
    }
  }

  /** From i on, a corpse is only found where a socket is listed. */
  predicate ReadsAreDefinedFrom(st: State, i: nat) {
    Shaped(st) && forall j :: i <= j < HIGHSOCK ==> ReadsAreDefined(st, j)
  }

  lemma HouseAtKeepsReads(st: State, i: nat, sent: set<int>)
    requires Shaped(st) && Fds(st) && i < HIGHSOCK && ReadsAreDefinedFrom(st, i)
    ensures ReadsAreDefined(st, i) && ReadsAreDefinedFrom(HouseAt(st, i, sent), i + 1)
  {
    hide HouseAt, Fds;
    var st' := HouseAt(st, i, sent);
    assert Shaped(st') by {
      HouseAtIsLocal(st, i, sent, if i == 0 then 1 else 0);
    }
    forall j | i + 1 <= j < HIGHSOCK
      ensures ReadsAreDefined(st', j)
    {
      assert ReadsAreDefined(st, j);
      HouseAtIsLocal(st, i, sent, j);
    }
  }

  /** The tables alone survive a round, whatever the resolver is doing. */
  lemma HouseAtKeepsTables(st: State, i: nat, sent: set<int>)
    requires TablesOk(st) && Fds(st) && i < HIGHSOCK && ReadsAreDefined(st, i)
    ensures TablesOk(HouseAt(st, i, sent)) && Shaped(HouseAt(st, i, sent)) && Fds(HouseAt(st, i, sent))
  {
    hide Destroy, SlotOk, SockOk;
    var c, l := st.corpses[i], st.list[i];
    if c != null && st.socks[c].flags.waitDestroy && !Waiting(st, l) {
      DestroyKeepsTables(st, c);
    } else if l == null {
    } else if TimedOut(st.socks[l], st.now) || Idle(st.socks[l], st.now) {
      DestroyKeepsTables(st, l);
    } else {
      TouchKeepsTables(st, l, st.socks[l].(lastSend := st.now));
    }
    hide HouseAt, TablesOk, Fds, AfterWrite;
    TablesMeanFds(HouseAt(st, i, sent));
  }

  lemma {:induction false} HouseFromKeepsInv(cmp: Comparison, st: State, i: nat, sent: set<int>)
    requires Inv(cmp, st) && i <= HIGHSOCK && ReadsAreDefinedFrom(st, i)
    ensures Inv(cmp, HouseFrom(st, i, sent))
    decreases HIGHSOCK - i
  {
    hide HouseAt, Inv, Fds, ReadsAreDefined;
    if i < HIGHSOCK {
      assert ReadsAreDefined(st, i);
      HouseAtKeepsInv(cmp, st, i, sent);
      HouseAtKeepsReads(st, i, sent);
      HouseFromKeepsInv(cmp, HouseAt(st, i, sent), i + 1, sent);
    }
  }

  /** The loop comes to the null pointer of line 508 exactly when some descriptor has a corpse and no
      listed socket at the start: no round makes or mends that at another descriptor. */
  lemma {:induction false} FaultsExactly(st: State, i: nat, sent: set<int>)
    requires TablesOk(st) && i <= HIGHSOCK
    ensures Faults(st, i, sent) <==> !ReadsAreDefinedFrom(st, i)
    decreases HIGHSOCK - i
  {
    TablesMeanFds(st);
    hide HouseAt, TablesOk, Fds, ReadsAreDefined;
    if i == HIGHSOCK {
    } else if ReadsAreDefined(st, i) {
      HouseAtKeepsTables(st, i, sent);
      FaultsExactly(HouseAt(st, i, sent), i + 1, sent);
      SameReads(st, i, sent);
    }
  }

  /** A round changes nothing about the reads of the rounds to come. */
  lemma SameReads(st: State, i: nat, sent: set<int>)
    requires Shaped(st) && Fds(st) && i < HIGHSOCK && ReadsAreDefined(st, i)
    ensures ReadsAreDefinedFrom(st, i) <==> ReadsAreDefinedFrom(HouseAt(st, i, sent), i + 1)
  {
    hide HouseAt, Fds;
    var st' := HouseAt(st, i, sent);
    HouseAtIsLocal(st, i, sent, if i == 0 then 1 else 0);
    forall j: nat | i < j < HIGHSOCK ensures ReadsAreDefined(st', j) == ReadsAreDefined(st, j) {
      HouseAtIsLocal(st, i, sent, j);
    }
  }

  // ----- Resolver steps --------------------------------------------------------------------

  lemma DnsKeepsInv(cmp: Comparison, st: State, st': State)
    requires TablesOk(st) && OnlyDns(st, st') && Settled(cmp, st')
    ensures Inv(cmp, st')
  {
    OnlyDnsKeepsTables(st, st');
  }

  /** The logs only grow, and a lookup being worked on does not mind. */
  lemma LogPtrWorks(cmp: Comparison, st: State, m: MSocket, q: Query, a: Answer)
    requires Working(cmp, st, m)
    ensures Working(cmp, LogPtr(st, q, a), m)
  {
    var st' := LogPtr(st, q, a);
    forall r | r in st'.env.queries ensures QueryOk(st', r) { assert QueryOk(st, r); }
    forall x | x in st'.socks && x != m ensures SocketOk(st', x) { assert SocketOk(st, x); }
    assert CacheSound(st') && NamesOk(cmp, st');
  }

  lemma LogAWorks(cmp: Comparison, st: State, m: MSocket, host: string, a: Answer)
    requires Working(cmp, st, m)
    ensures Working(cmp, LogA(st, host, a), m)
  {
    var st' := LogA(st, host, a);
    forall r | r in st'.env.queries ensures QueryOk(st', r) { assert QueryOk(st, r); }
    forall x | x in st'.socks && x != m ensures SocketOk(st', x) { assert SocketOk(st, x); }
    assert CacheSound(st') && NamesOk(cmp, st');
  }

  lemma AnsweredWorks(cmp: Comparison, st: State, q: Query)
    requires Settled(cmp, st) && q in st.env.queries
    ensures QueryOk(st, q) && SocketOk(st, q.m)
    ensures Working(cmp, Answered(st, q), q.m)
  {
    assert QueryOk(st, q);
    AnsweredBut(st, q);
    assert NamesOk(cmp, Answered(st, q)) by {
      assert NamesOk(cmp, st);
      hide LookupsOk, LookupsBut, CacheSound;
    }
  }

  lemma PtrReplyKeepsInv(cmp: Comparison, st: State, q: Query, a: Answer, accepted: bool)
    requires Inv(cmp, st) && q in st.env.queries && q.phase.PtrPhase?
    ensures Has(st, q.m)
    ensures Inv(cmp, PtrAnswer(LogPtr(Answered(st, q), q, a), q.m, a, accepted))
  {
    hide LookupsBut, LookupsOk, CacheSound, NamesOk, PtrAnswer, TablesOk;
    AnsweredWorks(cmp, st, q);
    var st1 := LogPtr(Answered(st, q), q, a);
    LogPtrWorks(cmp, Answered(st, q), q.m, q, a);
    assert OnlyDns(st, st1) && st1.lookups == st.lookups && IssuedBy(st1.env, q.m) == IssuedBy(st.env, q.m);
    PtrAnswerSettles(cmp, st1, q.m, a, accepted);
    PtrAnswerOnlyDns(st1, q.m, a, accepted);
    hide Working, Settled, LogPtr, Answered, QueryOk, SocketOk;
    DnsKeepsInv(cmp, st, PtrAnswer(st1, q.m, a, accepted));
  }

  /** What is wanted with the comparison cmp is kept by every A reply that is compared the same way,
      or otherwise does not mislead. */
  lemma AReplyKeepsInv(cmp: Comparison, used: Comparison, st: State, q: Query, a: Answer, accepted: bool)
    requires Inv(cmp, st) && q in st.env.queries && q.phase.APhase? && (a.result != NoError ==> a.count == 0)
    requires var st1 := LogA(Answered(st, q), q.target, a);
             Has(st1, q.m) && cmp != used && cmp.AsDocumented? && Considered(st1, q.m, a) ==>
               !Misleads(used, st1, q.m, a)
    ensures Has(st, q.m)
    ensures Inv(cmp, AAnswer(used, LogA(Answered(st, q), q.target, a), q.m, a, accepted))
  {
    hide LookupsBut, LookupsOk, CacheSound, NamesOk, AAnswer, TablesOk, Misleads;
    AnsweredWorks(cmp, st, q);
    var st1 := LogA(Answered(st, q), q.target, a);
    LogAWorks(cmp, Answered(st, q), q.m, q.target, a);
    assert OnlyDns(st, st1) && st1.lookups == st.lookups && IssuedBy(st1.env, q.m) == IssuedBy(st.env, q.m);
    assert Has(st1, q.m) && st1.lookups[q.m].candidate == Some(q.target);
    assert a.count >= 1 && a.rtype.IPv4A? ==> (q.target, a.addr) in st1.env.aLog;
    if used.AsDocumented? && Considered(st1, q.m, a) { DocumentedLeads(st1, q.m, a); }
    AAnswerSettles(cmp, used, st1, q.m, a, accepted);
    AAnswerOnlyDns(used, st1, q.m, a, accepted);
    hide Working, Settled, LogA, Answered, QueryOk, SocketOk;
    DnsKeepsInv(cmp, st, AAnswer(used, st1, q.m, a, accepted));
  }

  function Restarted(st: State, m: MSocket): State {
    st.(env := st.env.(issued := st.env.issued[m := 0]))
  }

  lemma RestartKeepsOthers(st: State, m: MSocket, q: Query)
    requires QueryOk(st, q) && q.m != m
    ensures QueryOk(Restarted(st, m), q)
  {
  }

  lemma RestartKeepsSocket(st: State, m: MSocket, x: MSocket)
    requires Has(st, x) && SocketOk(st, x) && x != m
    ensures SocketOk(Restarted(st, m), x)
  {
  }

  lemma IdleAsksNothing(st: State, m: MSocket, q: Query)
    requires LookupsOk(st) && Has(st, m) && !st.lookups[m].waiting && q in st.env.queries
    ensures q.m != m && QueryOk(st, q)
  {
  }

  /** A socket that does not wait has nothing outstanding, so a lookup may start. */
  lemma RestartWorks(cmp: Comparison, st: State, m: MSocket)
    requires Settled(cmp, st) && Has(st, m) && !st.lookups[m].waiting
    ensures SocketOk(st, m) && Working(cmp, Restarted(st, m), m)
  {
    var st' := Restarted(st, m);
    assert SocketOk(st, m);
    CountedAlike(st, st');
    assert NamesOk(cmp, st') by { RestartKeepsNames(cmp, st, m); }
    hide QueryOk, SocketOk, Counted, NamesOk;
    forall q | q in st'.env.queries ensures q.m != m && QueryOk(st', q) {
      IdleAsksNothing(st, m, q);
      RestartKeepsOthers(st, m, q);
    }
    forall x | x in st'.socks && x != m ensures SocketOk(st', x) { RestartKeepsSocket(st, m, x); }
  }

  lemma RestartKeepsNames(cmp: Comparison, st: State, m: MSocket)
    requires NamesOk(cmp, st)
    ensures NamesOk(cmp, Restarted(st, m))
  {
  }

  lemma StartKeepsInv(cmp: Comparison, st: State, m: MSocket, accepted: bool)
    requires Inv(cmp, st) && Has(st, m) && !st.lookups[m].waiting
    ensures Inv(cmp, FindRev(Restarted(st, m), m, accepted))
  {
    hide Find, FindRev, Resolved, TablesOk, LookupsBut;
    RestartWorks(cmp, st, m);
    var st1 := Restarted(st, m);
    assert OnlyDns(st, st1);
    FindRevSettles(cmp, st1, m, accepted);
    FindRevOnlyDns(st1, m, accepted);
    hide Settled, Working, Restarted, SocketOk;
    DnsKeepsInv(cmp, st, FindRev(st1, m, accepted));
  }

  /** A change of the cache, the clock, or the count of forward queries. */
  ghost predicate Elsewhere(st: State, st': State) {
    && st' == st.(cache := st'.cache, now := st'.now, active := st'.active, env := st'.env)
    && st'.env == st.env.(forward := st'.env.forward, aLog := st'.env.aLog)
    && st'.active - st.active == st'.env.forward - st.env.forward
    && st.env.aLog <= st'.env.aLog
  }

  lemma ElsewhereKeepsLookups(st: State, st': State)
    requires LookupsOk(st) && Elsewhere(st, st')
    ensures LookupsOk(st')
  {
    forall q | q in st'.env.queries ensures QueryOk(st', q) { assert QueryOk(st, q); }
    forall x | x in st'.socks ensures SocketOk(st', x) { assert SocketOk(st, x); }
  }

  lemma ElsewhereKeepsNames(cmp: Comparison, st: State, st': State)
    requires NamesOk(cmp, st) && Elsewhere(st, st')
    ensures NamesOk(cmp, st')
  {
    forall x | x in st'.socks && x in st'.lookups
      ensures NameOk(cmp, st'.env, st'.socks[x].remoteHost, st'.lookups[x])
    {
      assert NameOk(cmp, st.env, st.socks[x].remoteHost, st.lookups[x]);
    }
  }

  lemma ElsewhereKeepsTables(st: State, st': State)
    requires TablesOk(st) && Elsewhere(st, st')
    ensures TablesOk(st')
  {
    forall i | 0 <= i < HIGHSOCK ensures SlotOk(st', i) { assert SlotOk(st, i); }
    forall m | m in st'.socks ensures SockOk(st', m) { assert SockOk(st, m); }
  }

  lemma ElsewhereKeepsInv(cmp: Comparison, st: State, st': State)
    requires Inv(cmp, st) && Elsewhere(st, st') && CacheSound(st')
    ensures Inv(cmp, st')
  {
    hide TablesOk, LookupsOk, NamesOk, CacheSound, Elsewhere;
    ElsewhereKeepsTables(st, st');
    ElsewhereKeepsLookups(st, st');
    ElsewhereKeepsNames(cmp, st, st');
  }

  lemma SweepKeepsInv(cmp: Comparison, st: State)
    requires Inv(cmp, st)
    ensures Inv(cmp, st.(cache := Sweep(st.cache, st.now)))
  {
    hide TablesOk, LookupsOk, NamesOk, Sweep;
    var st' := st.(cache := Sweep(st.cache, st.now));
    forall e | Some(e) in st'.cache
      ensures Sourced(st'.env, e)
    {
      SweepStep(st.cache, st.now, e);
    }
    ElsewhereKeepsInv(cmp, st, st');
  }

  lemma ForwardCacheSound(st: State, host: string, a: Answer)
    requires CacheSound(st)
    ensures CacheSound(ForwardAnswer(st, host, a))
  {
    hide Add;
    var st1 := LogA(st.(active := st.active - 1,
                        env := st.env.(forward := if st.env.forward > 0 then st.env.forward - 1 else 0)), host, a);
    assert CacheSound(st1);
    if a.result.NotExist? {
      CachedSound(st1, A, None, Some(host), a.ttl);
    } else if a.result == NoError && a.rtype.IPv4A? && a.count >= 1 {
      WholeAddress(A, a.addr, Some(host), a.ttl, st1.now);
      CachedSound(st1, A, Some(a.addr), Some(host), a.ttl);
    }
  }

  lemma ForwardKeepsInv(cmp: Comparison, st: State, host: string, a: Answer)
    requires Inv(cmp, st) && st.env.forward > 0
    ensures Inv(cmp, ForwardAnswer(st, host, a))
  {
    hide TablesOk, LookupsOk, NamesOk, CacheSound, Add;
    ForwardCacheSound(st, host, a);
    assert Elsewhere(st, ForwardAnswer(st, host, a));
    hide ForwardAnswer, Elsewhere;
    ElsewhereKeepsInv(cmp, st, ForwardAnswer(st, host, a));
  }

  // ----- Opening a socket ------------------------------------------------------------------

  function WithSocket(st: State, m: MSocket, s: Sock): State {
    Restarted(Put(st, m, s), m).(lookups := st.lookups[m := NO_LOOKUP])
  }

  lemma OpenKeepsQuery(st: State, m: MSocket, s: Sock, list: seq<MSocket?>, q: Query)
    requires QueryOk(st, q) && q in st.env.queries && m !in st.socks
    ensures q.m != m && QueryOk(WithSocket(st, m, s).(list := list), q)
  {
  }

  lemma OpenKeepsSocket(st: State, m: MSocket, s: Sock, list: seq<MSocket?>, x: MSocket)
    requires Has(st, x) && SocketOk(st, x) && m !in st.socks
    ensures SocketOk(WithSocket(st, m, s).(list := list), x)
  {
  }

  lemma OpenedIsIdle(st: State, m: MSocket, s: Sock, list: seq<MSocket?>)
    requires m !in st.env.refused && forall q :: q in st.env.queries ==> q.m != m
    ensures SocketOk(WithSocket(st, m, s).(list := list), m)
  {
  }

  lemma OpenFacts(st: State, m: MSocket, s: Sock, list: seq<MSocket?>)
    ensures var st' := WithSocket(st, m, s).(list := list);
            && st'.socks == st.socks[m := s] && st'.lookups == st.lookups[m := NO_LOOKUP]
            && st'.active == st.active && st'.env == st.env.(issued := st'.env.issued)
  {
  }

  lemma OpenKeepsLookups(st: State, m: MSocket, s: Sock, list: seq<MSocket?>)
    requires LookupsOk(st) && m !in st.socks
    ensures LookupsOk(WithSocket(st, m, s).(list := list))
  {
    OpenFacts(st, m, s, list);
    hide WithSocket, QueryOk, SocketOk, Counted;
    var st' := WithSocket(st, m, s).(list := list);
    forall q | q in st'.env.queries ensures q.m != m && QueryOk(st', q) { OpenKeepsQuery(st, m, s, list, q); }
    OpenedIsIdle(st, m, s, list);
    forall x | x in st'.socks ensures SocketOk(st', x) {
      if x != m { OpenKeepsSocket(st, m, s, list, x); }
    }
    CountedAlike(st, st');
  }

  lemma CountedAlike(st: State, st': State)
    requires Counted(st) && st'.active == st.active
    requires st'.env.queries == st.env.queries && st'.env.forward == st.env.forward && st'.env.refused == st.env.refused
    ensures Counted(st')
  {
  }

  lemma OpenKeepsNames(cmp: Comparison, st: State, m: MSocket, s: Sock, list: seq<MSocket?>)
    requires CacheSound(st) && NamesOk(cmp, st) && m !in st.socks
    ensures CacheSound(WithSocket(st, m, s).(list := list)) && NamesOk(cmp, WithSocket(st, m, s).(list := list))
  {
    var st' := WithSocket(st, m, s).(list := list);
    forall x | x in st'.socks && x in st'.lookups
      ensures NameOk(cmp, st'.env, st'.socks[x].remoteHost, st'.lookups[x])
    {
      if x != m { assert NameOk(cmp, st.env, st.socks[x].remoteHost, st.lookups[x]); }
    }
  }

  lemma OpenKeepsInv(cmp: Comparison, st: State, m: MSocket, fd: int, s: Sock)
    requires Inv(cmp, st) && m !in st.socks && 0 <= fd < HIGHSOCK && st.list[fd] == null
    requires s.fd == fd && !s.flags.waitDestroy && !s.flags.waitIdent && !s.flags.muxActive
    ensures Inv(cmp, WithSocket(st, m, s).(list := st.list[fd := m]))
  {
    var st' := WithSocket(st, m, s).(list := st.list[fd := m]);
    OpenKeepsTables(st, m, fd, s, st');
    hide LookupsOk, CacheSound, NamesOk, SlotOk, SockOk;
    OpenKeepsLookups(st, m, s, st.list[fd := m]);
    OpenKeepsNames(cmp, st, m, s, st.list[fd := m]);
  }
}
