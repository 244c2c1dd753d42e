/** Reverse lookups: one query at a time per socket, at most four per lookup, exact counting of
    active queries, and the provenance of every confirmed name. */
module SocketLookups {
  import opened Common
  import opened DnsCache
  import opened SocketModel
  import opened SocketSafety

  // ----- The invariant ---------------------------------------------------------------------

  /** How many more queries a lookup can issue while this one is outstanding. */
  function Left(retries: nat, phase: Phase): int {
    2 * (1 - retries) + (if phase.PtrPhase? then 1 else 0)
  }

  /** The query is the one this socket would ask: its own address, or its candidate name. */
  predicate AsksFor(host: string, d: Lookup, q: Query) {
    match q.phase
    case PtrPhase => q.target == host
    case APhase => d.candidate == Some(q.target)
  }

  predicate Given(env: Env, host: string, q: Query) {
    q.phase.APhase? ==> (host, q.target) in env.ptrLog
  }

  predicate QueryOk(st: State, q: Query) {
    && st.env.queries[q] == 1
    && Has(st, q.m)
    && q.m !in st.env.refused
    && st.lookups[q.m].waiting
    && AsksFor(st.socks[q.m].remoteHost, st.lookups[q.m], q)
    && Given(st.env, st.socks[q.m].remoteHost, q)
    && IssuedBy(st.env, q.m) + Left(st.lookups[q.m].retries, q.phase) <= 4
  }

  predicate Outstanding(st: State, m: MSocket)
    requires Has(st, m)
  {
    || Query(m, PtrPhase, st.socks[m].remoteHost) in st.env.queries
    || (st.lookups[m].candidate.Some? && Query(m, APhase, st.lookups[m].candidate.value) in st.env.queries)
  }

  /** A socket waits exactly when its query is outstanding or was refused. */
  predicate SocketOk(st: State, m: MSocket)
    requires Has(st, m)
  {
    && (st.lookups[m].waiting <==> m in st.env.refused || Outstanding(st, m))
    && st.lookups[m].retries <= 1
    && IssuedBy(st.env, m) <= 4
  }

  ghost predicate QueriesOk(st: State) {
    && (forall q :: q in st.env.queries ==> QueryOk(st, q))
    && (forall q, r :: q in st.env.queries && r in st.env.queries && q.m == r.m ==> q == r)
  }

  predicate Counted(st: State) {
    st.active == |st.env.queries| + st.env.forward + |st.env.refused|
  }

  ghost predicate LookupsOk(st: State) {
    && QueriesOk(st)
    && st.lookups.Keys == st.socks.Keys
    && (forall m :: m in st.socks ==> SocketOk(st, m))
    && (forall m :: m in st.env.refused ==> m in st.socks)
    && Counted(st)
  }

  /** The invariant in the middle of a callback for m: nothing is asked for m, and nothing is
      said about whether it waits. */
  ghost predicate LookupsBut(st: State, m: MSocket) {
    && m in st.socks
    && st.lookups.Keys == st.socks.Keys
    && (forall q :: q in st.env.queries ==> q.m != m)
    && m !in st.env.refused
    && QueriesOk(st)
    && (forall x :: x in st.socks && x != m ==> SocketOk(st, x))
    && (forall x :: x in st.env.refused ==> x in st.socks)
    && Counted(st)
  }

  // ----- The moves a callback is made of ---------------------------------------------------

  lemma Rest(st: State, m: MSocket, d: Lookup)
    requires LookupsBut(st, m) && !d.waiting && d.retries <= 1 && IssuedBy(st.env, m) <= 4
    ensures LookupsOk(PutDns(st, m, d))
  {
    var st' := PutDns(st, m, d);
    forall q | q in st'.env.queries ensures QueryOk(st', q) { assert QueryOk(st, q); }
    forall x | x in st'.socks ensures SocketOk(st', x) { if x != m { assert SocketOk(st, x); } }
  }

  /** Nobody else notices the new query. */
  lemma AskOthers(st: State, m: MSocket, d: Lookup, phase: Phase, target: string, accepted: bool, x: MSocket)
    requires LookupsBut(st, m) && x in st.socks && x != m
    ensures SocketOk(Issue(PutDns(st, m, d), m, phase, target, accepted), x)
  {
    assert SocketOk(st, x);
  }

  predicate MayAsk(st: State, m: MSocket, d: Lookup, phase: Phase, target: string)
    requires m in st.socks
  {
    && d.waiting && d.retries <= 1
    && AsksFor(st.socks[m].remoteHost, d, Query(m, phase, target))
    && Given(st.env, st.socks[m].remoteHost, Query(m, phase, target))
    && IssuedBy(st.env, m) + 1 + Left(d.retries, phase) <= 4
  }

  lemma AskQuery(st: State, m: MSocket, d: Lookup, phase: Phase, target: string, accepted: bool, q: Query)
    requires LookupsBut(st, m) && MayAsk(st, m, d, phase, target)
    requires q in Issue(PutDns(st, m, d), m, phase, target, accepted).env.queries
    ensures QueryOk(Issue(PutDns(st, m, d), m, phase, target, accepted), q)
    ensures q in st.env.queries || (accepted && q == Query(m, phase, target))
  {
    if q in st.env.queries {
      assert QueryOk(st, q);
    }
  }

  lemma AskSelf(st: State, m: MSocket, d: Lookup, phase: Phase, target: string, accepted: bool)
    requires LookupsBut(st, m) && MayAsk(st, m, d, phase, target)
    ensures var st' := Issue(PutDns(st, m, d), m, phase, target, accepted);
            && st'.lookups.Keys == st'.socks.Keys == st.socks.Keys
            && SocketOk(st', m) && Counted(st')
            && st'.env.refused <= st.env.refused + {m}
  {
  }

  lemma Ask(st: State, m: MSocket, d: Lookup, phase: Phase, target: string, accepted: bool)
    requires LookupsBut(st, m) && MayAsk(st, m, d, phase, target)
    ensures LookupsOk(Issue(PutDns(st, m, d), m, phase, target, accepted))
  {
    hide Issue, SocketOk, QueryOk, Counted, MayAsk;
    var st' := Issue(PutDns(st, m, d), m, phase, target, accepted);
    AskSelf(st, m, d, phase, target, accepted);
    forall q | q in st'.env.queries
      ensures QueryOk(st', q)
      ensures q in st.env.queries || (accepted && q == Query(m, phase, target))
    {
      AskQuery(st, m, d, phase, target, accepted, q);
    }
    forall x | x in st'.socks ensures SocketOk(st', x) {
      if x != m { AskOthers(st, m, d, phase, target, accepted, x); }
    }
  }

  lemma CachedBut(st: State, m: MSocket, t: RecordType, ip: Option<string>, host: Option<string>, ttl: int)
    requires LookupsBut(st, m)
    ensures LookupsBut(Cached(st, t, ip, host, ttl), m)
  {
    hide Add;
    var st' := Cached(st, t, ip, host, ttl);
    forall q | q in st'.env.queries ensures QueryOk(st', q) { assert QueryOk(st, q); }
    forall x | x in st'.socks && x != m ensures SocketOk(st', x) { assert SocketOk(st, x); }
  }

  lemma PutBut(st: State, m: MSocket, d: Lookup)
    requires LookupsBut(st, m)
    ensures LookupsBut(PutDns(st, m, d), m)
  {
    var st' := PutDns(st, m, d);
    forall q | q in st'.env.queries ensures QueryOk(st', q) { assert QueryOk(st, q); }
    forall x | x in st'.socks && x != m ensures SocketOk(st', x) { assert SocketOk(st, x); }
  }

  lemma OneQueryLess(st: State, q: Query)
    requires Counted(st) && q in st.env.queries
    ensures Counted(Answered(st, q))
  {
    assert |st.env.queries - multiset{q}| == |st.env.queries| - 1;
  }

  lemma OtherQueriesStay(st: State, q: Query, r: Query)
    requires QueriesOk(st) && q in st.env.queries && r in Answered(st, q).env.queries
    ensures r in st.env.queries && r.m != q.m && QueryOk(Answered(st, q), r)
  {
    assert QueryOk(st, q) && QueryOk(st, r);
  }

  lemma OtherSocketsStay(st: State, q: Query, x: MSocket)
    requires Has(st, x) && SocketOk(st, x) && x != q.m
    ensures SocketOk(Answered(st, q), x)
  {
  }

  /** Taking an answered query out leaves the invariant for everyone else. */
  lemma AnsweredBut(st: State, q: Query)
    requires LookupsOk(st) && q in st.env.queries
    ensures LookupsBut(Answered(st, q), q.m)
  {
    assert QueryOk(st, q);
    OneQueryLess(st, q);
    hide QueryOk, SocketOk, Counted;
    var st' := Answered(st, q);
    forall r | r in st'.env.queries ensures r in st.env.queries && r.m != q.m && QueryOk(st', r) {
      OtherQueriesStay(st, q, r);
    }
    forall x | x in st'.socks && x != q.m ensures SocketOk(st', x) { OtherSocketsStay(st, q, x); }
  }

  // ----- Where names come from -------------------------------------------------------------

  /** A positive record repeats an answer that was received. */
  predicate Sourced(env: Env, e: Entry) {
    !e.negative ==>
      && (e.rtype.Ptr? ==> (e.ip, e.host) in env.ptrLog)
      && (e.rtype.A? ==> (e.host, e.ip) in env.aLog)
  }

  ghost predicate CacheSound(st: State) {
    forall e :: Some(e) in st.cache ==> Sourced(st.env, e)
  }

  /** Some A answer for the name, in any case of letters, gave this address. */
  ghost predicate LeadsTo(env: Env, name: string, host: string) {
    exists p :: p in env.aLog && SameHost(p.0, name) && p.1 == host
  }

  /** A PTR answer for the address gave this name, and an A answer for the name, in any case of
      letters, gave the address back (section 2.1 of RFC 1912). */
  ghost predicate Confirmed(env: Env, host: string, name: string) {
    (host, name) in env.ptrLog && LeadsTo(env, name, host)
  }

  /** Asked when the comparison is to be the documented one: as coded, line 717 lets other names
      through. */
  ghost predicate NameOk(cmp: Comparison, env: Env, host: string, d: Lookup) {
    cmp.AsDocumented? && d.name.Some? ==> Confirmed(env, host, d.name.value)
  }

  ghost predicate NamesOk(cmp: Comparison, st: State) {
    forall m :: m in st.socks && m in st.lookups ==> NameOk(cmp, st.env, st.socks[m].remoteHost, st.lookups[m])
  }

  /** Addresses are short enough to be stored whole. */
  lemma WholeAddress(t: RecordType, ip: IpText, host: Option<string>, ttl: int, now: int)
    ensures MakeEntry(t, Some(ip), host, ttl, now).ip == ip
  {
    assert ip[..|ip|] == ip;
  }

  lemma CachedSound(st: State, t: RecordType, ip: Option<string>, host: Option<string>, ttl: int)
    requires CacheSound(st) && Sourced(st.env, MakeEntry(t, ip, host, ttl, st.now))
    ensures CacheSound(Cached(st, t, ip, host, ttl))
  {
    forall e | Some(e) in Cached(st, t, ip, host, ttl).cache
      ensures Sourced(st.env, e)
    {
      AddStep(st.cache, AddOp(t, ip, host, ttl, st.now), e);
    }
  }

  /** What the cache answers was received from the resolver. */
  lemma FoundIsSourced(st: State, h: string, t: RecordType)
    requires CacheSound(st) && Find(st.cache, h, t).Some?
    ensures Answers(Find(st.cache, h, t).value, h, t) && Sourced(st.env, Find(st.cache, h, t).value)
  {
    FindFinds(st.cache, h, t);
  }

  /** A name and an address that the cache has together were both received. */
  lemma CachedPairConfirms(env: Env, host: string, p: Entry, a: Entry)
    requires Answers(p, host, Ptr) && Sourced(env, p) && !p.negative
    requires Answers(a, p.host, A) && Sourced(env, a) && !a.negative && a.ip == host
    ensures Confirmed(env, host, p.host)
  {
    assert (a.host, a.ip) in env.aLog;
  }

  // ----- The callbacks ---------------------------------------------------------------------

  /** Everything the lookup machine keeps, with m's lookup being worked on. */
  ghost predicate Working(cmp: Comparison, st: State, m: MSocket) {
    LookupsBut(st, m) && CacheSound(st) && NamesOk(cmp, st)
  }

  ghost predicate Settled(cmp: Comparison, st: State) {
    LookupsOk(st) && CacheSound(st) && NamesOk(cmp, st)
  }

  /** The lookup d that m is left with is over. */
  ghost predicate Over(cmp: Comparison, st: State, m: MSocket, d: Lookup)
    requires m in st.socks
  {
    !d.waiting && d.retries <= 1 && IssuedBy(st.env, m) <= 4 && NameOk(cmp, st.env, st.socks[m].remoteHost, d)
  }

  lemma Finish(cmp: Comparison, st: State, m: MSocket, d: Lookup)
    requires Working(cmp, st, m) && Over(cmp, st, m, d)
    ensures Settled(cmp, PutDns(st, m, d))
  {
    Rest(st, m, d);
    hide LookupsBut, LookupsOk, NameOk;
  }

  /** Issuing a query changes no record and no log. */
  lemma IssueKeepsNames(cmp: Comparison, st: State, m: MSocket, d: Lookup, phase: Phase, target: string, accepted: bool)
    requires m in st.socks && CacheSound(st) && NamesOk(cmp, st)
    requires NameOk(cmp, st.env, st.socks[m].remoteHost, d)
    ensures var st' := Issue(PutDns(st, m, d), m, phase, target, accepted); CacheSound(st') && NamesOk(cmp, st')
  {
    var st' := Issue(PutDns(st, m, d), m, phase, target, accepted);
    forall x | x in st'.socks && x in st'.lookups
      ensures NameOk(cmp, st'.env, st'.socks[x].remoteHost, st'.lookups[x])
    {
      assert NameOk(cmp, st.env, st.socks[x].remoteHost, st'.lookups[x]);
    }
  }

  lemma Pursue(cmp: Comparison, st: State, m: MSocket, d: Lookup, phase: Phase, target: string, accepted: bool)
    requires Working(cmp, st, m) && MayAsk(st, m, d, phase, target)
    requires NameOk(cmp, st.env, st.socks[m].remoteHost, d)
    ensures Settled(cmp, Issue(PutDns(st, m, d), m, phase, target, accepted))
  {
    hide LookupsOk, Issue, CacheSound, NamesOk, NameOk, MayAsk;
    Ask(st, m, d, phase, target, accepted);
    IssueKeepsNames(cmp, st, m, d, phase, target, accepted);
  }

  lemma Remember(cmp: Comparison, st: State, m: MSocket,
                 t: RecordType, ip: Option<string>, host: Option<string>, ttl: int)
    requires Working(cmp, st, m) && Sourced(st.env, MakeEntry(t, ip, host, ttl, st.now))
    ensures Working(cmp, Cached(st, t, ip, host, ttl), m)
  {
    hide LookupsBut, NameOk, Add;
    CachedBut(st, m, t, ip, host, ttl);
    CachedSound(st, t, ip, host, ttl);
  }

  lemma Rework(cmp: Comparison, st: State, m: MSocket, d: Lookup)
    requires Working(cmp, st, m) && m in st.socks && NameOk(cmp, st.env, st.socks[m].remoteHost, d)
    ensures Working(cmp, PutDns(st, m, d), m)
  {
    hide LookupsBut, NameOk;
    PutBut(st, m, d);
  }

  /** What is known of the records a lookup found in the cache. */
  ghost predicate FoundOk(env: Env, host: string, p: Option<Entry>, a: Option<Entry>) {
    && (p.Some? ==> Answers(p.value, host, Ptr) && Sourced(env, p.value))
    && (a.Some? ==> p.Some? && Answers(a.value, p.value.host, A) && Sourced(env, a.value))
  }

  lemma ResolvedSettles(cmp: Comparison, st: State, m: MSocket, d: Lookup,
                        p: Option<Entry>, a: Option<Entry>, accepted: bool)
    requires Working(cmp, st, m) && m in st.socks && FoundOk(st.env, st.socks[m].remoteHost, p, a)
    requires d.waiting && d.retries <= 1 && NameOk(cmp, st.env, st.socks[m].remoteHost, d)
    requires IssuedBy(st.env, m) + 2 * (2 - d.retries) <= 4
    ensures Settled(cmp, Resolved(st, m, d, p, a, accepted))
  {
    hide Working, Settled, Confirmed, SameHost, Issue;
    if p.None? {
      Pursue(cmp, st, m, d, PtrPhase, st.socks[m].remoteHost, accepted);
    } else if p.value.negative {
      Finish(cmp, st, m, Unnamed(d));
    } else if a.None? {
      Pursue(cmp, st, m, d.(candidate := Some(p.value.host)), APhase, p.value.host, accepted);
    } else if !a.value.negative && a.value.ip == st.socks[m].remoteHost {
      CachedPairConfirms(st.env, st.socks[m].remoteHost, p.value, a.value);
      Finish(cmp, st, m, Named(d, Some(p.value.host)));
    } else {
      Finish(cmp, st, m, Unnamed(d));
    }
  }

  /** A (re)started lookup: two queries per attempt are left to it. */
  lemma FindRevSettles(cmp: Comparison, st: State, m: MSocket, accepted: bool)
    requires Working(cmp, st, m) && Has(st, m) && st.lookups[m].retries <= 1
    requires IssuedBy(st.env, m) + 2 * (2 - st.lookups[m].retries) <= 4
    ensures Settled(cmp, FindRev(st, m, accepted))
  {
    hide Find, LookupsBut, LookupsOk, Confirmed, SameHost, Issue, Resolved, Settled;
    var host := st.socks[m].remoteHost;
    var p := Find(st.cache, host, Ptr);
    var a := if p.Some? then Find(st.cache, p.value.host, A) else None;
    if p.Some? {
      FoundIsSourced(st, host, Ptr);
      if a.Some? { FoundIsSourced(st, p.value.host, A); }
    }
    assert NameOk(cmp, st.env, host, st.lookups[m]);
    ResolvedSettles(cmp, st, m, st.lookups[m].(waiting := true), p, a, accepted);
  }

  lemma RetrySettles(cmp: Comparison, st: State, m: MSocket, d: Lookup, accepted: bool)
    requires Working(cmp, st, m) && m in st.socks && NameOk(cmp, st.env, st.socks[m].remoteHost, d)
    requires d.retries <= 1 && IssuedBy(st.env, m) + 2 * (1 - d.retries) <= 4
    ensures Settled(cmp, Retry(st, m, d, accepted))
  {
    hide Working, Settled, Confirmed, FindRev;
    if d.retries == 0 {
      Rework(cmp, st, m, d.(retries := 1));
      FindRevSettles(cmp, PutDns(st, m, d.(retries := 1)), m, accepted);
    } else {
      Finish(cmp, st, m, GIVEN_UP);
    }
  }

  lemma CheckedSettles(cmp: Comparison, st: State, m: MSocket, d: Lookup,
                       c: Option<Entry>, name: string, accepted: bool)
    requires Working(cmp, st, m) && m in st.socks && MayAsk(st, m, d, APhase, name)
    requires NameOk(cmp, st.env, st.socks[m].remoteHost, d)
    requires c.Some? ==> Answers(c.value, name, A) && Sourced(st.env, c.value)
    ensures Settled(cmp, Checked(st, m, d, c, name, accepted))
  {
    hide Working, Settled, SameHost, Issue;
    if c.None? {
      Pursue(cmp, st, m, d, APhase, name, accepted);
    } else if !c.value.negative && c.value.ip == st.socks[m].remoteHost {
      assert (c.value.host, c.value.ip) in st.env.aLog;
      Finish(cmp, st, m, Named(d, d.candidate));
    } else {
      Finish(cmp, st, m, GIVEN_UP);
    }
  }

  lemma PtrFoundSettles(cmp: Comparison, st: State, m: MSocket, a: Answer, accepted: bool)
    requires Working(cmp, st, m) && Has(st, m) && st.lookups[m].waiting && st.lookups[m].retries <= 1
    requires (st.socks[m].remoteHost, a.name) in st.env.ptrLog
    requires IssuedBy(st.env, m) + Left(st.lookups[m].retries, PtrPhase) <= 4
    ensures Settled(cmp, PtrFound(st, m, a, accepted))
  {
    hide Find, LookupsBut, LookupsOk, Confirmed, SameHost, Issue, Checked, Add, Settled;
    var host := st.socks[m].remoteHost;
    var d := st.lookups[m].(candidate := Some(a.name));
    var st1 := Cached(st, Ptr, Some(host), Some(a.name), a.ttl);
    WholeAddress(Ptr, host, Some(a.name), a.ttl, st.now);
    Remember(cmp, st, m, Ptr, Some(host), Some(a.name), a.ttl);
    assert NameOk(cmp, st.env, host, st.lookups[m]);
    if st.socks[m].flags.waitDestroy {
      Finish(cmp, st1, m, d.(waiting := false));
    } else {
      var c := Find(st1.cache, a.name, A);
      if c.Some? { FoundIsSourced(st1, a.name, A); }
      CheckedSettles(cmp, st1, m, d, c, a.name, accepted);
    }
  }

  lemma PtrFailedSettles(cmp: Comparison, st: State, m: MSocket, a: Answer)
    requires Working(cmp, st, m) && Has(st, m) && IssuedBy(st.env, m) <= 4
    ensures Settled(cmp, PtrFailed(st, m, a))
  {
    hide Working, Settled, Confirmed, Add;
    if a.result.NotExist? {
      Remember(cmp, st, m, Ptr, Some(st.socks[m].remoteHost), None, 3600);
    }
    Finish(cmp, if a.result.NotExist? then Cached(st, Ptr, Some(st.socks[m].remoteHost), None, 3600) else st,
           m, GIVEN_UP);
  }

  lemma PtrAnswerSettles(cmp: Comparison, st: State, m: MSocket, a: Answer, accepted: bool)
    requires Working(cmp, st, m) && Has(st, m) && st.lookups[m].waiting && st.lookups[m].retries <= 1
    requires a.result.NoError? && a.rtype.PtrName? ==> (st.socks[m].remoteHost, a.name) in st.env.ptrLog
    requires IssuedBy(st.env, m) + Left(st.lookups[m].retries, PtrPhase) <= 4
    ensures Settled(cmp, PtrAnswer(st, m, a, accepted))
  {
    hide LookupsBut, Settled, Confirmed, Retry, PtrFound, PtrFailed, Add;
    assert NameOk(cmp, st.env, st.socks[m].remoteHost, st.lookups[m]);
    if Terminal(a.result) {
      PtrFailedSettles(cmp, st, m, a);
    } else if a.result != NoError || !a.rtype.PtrName? {
      RetrySettles(cmp, st, m, st.lookups[m], accepted);
    } else {
      PtrFoundSettles(cmp, st, m, a, accepted);
    }
  }

  lemma AFailedSettles(cmp: Comparison, st: State, m: MSocket, a: Answer)
    requires Working(cmp, st, m) && Has(st, m) && st.lookups[m].candidate.Some? && IssuedBy(st.env, m) <= 4
    ensures Settled(cmp, AFailed(st, m, a))
  {
    hide Working, Settled, Confirmed, Add;
    if a.result.NotExist? {
      Remember(cmp, st, m, A, None, st.lookups[m].candidate, 600);
    }
    Finish(cmp, if a.result.NotExist? then Cached(st, A, None, st.lookups[m].candidate, 600) else st, m, GIVEN_UP);
  }

  /** The answer passes the comparison `used` for a name that leads nowhere near the socket. */
  ghost predicate Misleads(used: Comparison, st: State, m: MSocket, a: Answer)
    requires Has(st, m)
  {
    var host, d := st.socks[m].remoteHost, st.lookups[m];
    && !st.socks[m].flags.waitDestroy && d.candidate.Some?
    && SameAddress(used, host, d.candidate.value, a.addr)
    && !LeadsTo(st.env, d.candidate.value, host)
  }

  /** With the comparison `used`, what is wanted of names with the comparison cmp is kept by every
      answer that does not mislead. */
  lemma AFoundSettles(cmp: Comparison, used: Comparison, st: State, m: MSocket, a: Answer)
    requires Working(cmp, st, m) && Has(st, m) && st.lookups[m].candidate.Some? && st.lookups[m].retries <= 1
    requires IssuedBy(st.env, m) <= 4
    requires (st.socks[m].remoteHost, st.lookups[m].candidate.value) in st.env.ptrLog
    requires (st.lookups[m].candidate.value, a.addr) in st.env.aLog
    requires cmp.AsDocumented? ==> !Misleads(used, st, m, a)
    ensures Settled(cmp, AFound(used, st, m, a))
  {
    hide LookupsBut, LookupsOk, Settled, Add, SameHost;
    var d := st.lookups[m];
    assert NameOk(cmp, st.env, st.socks[m].remoteHost, d);
    WholeAddress(A, a.addr, d.candidate, a.ttl, st.now);
    Remember(cmp, st, m, A, Some(a.addr), d.candidate, a.ttl);
    var st1 := Cached(st, A, Some(a.addr), d.candidate, a.ttl);
    if st.socks[m].flags.waitDestroy {
      Finish(cmp, st1, m, d.(waiting := false));
    } else if SameAddress(used, st.socks[m].remoteHost, d.candidate.value, a.addr) {
      Finish(cmp, st1, m, Lookup(false, d.candidate, None, 0));
    } else {
      Finish(cmp, st1, m, GIVEN_UP);
    }
  }

  /** The documented comparison never misleads. */
  lemma DocumentedLeads(st: State, m: MSocket, a: Answer)
    requires Has(st, m) && st.lookups[m].candidate.Some?
    requires (st.lookups[m].candidate.value, a.addr) in st.env.aLog
    ensures !Misleads(AsDocumented, st, m, a)
  {
    assert SameHost(st.lookups[m].candidate.value, st.lookups[m].candidate.value);
  }

  /** The reply gets past the tests of result, type and count, and past the retry. */
  predicate Considered(st: State, m: MSocket, a: Answer)
    requires Has(st, m)
  {
    var d := st.lookups[m];
    && d.candidate.Some? && !Terminal(a.result) && (a.result == NoError || d.retries > 0)
    && a.rtype.IPv4A? && a.count == 1
  }

  lemma AAnswerSettles(cmp: Comparison, used: Comparison, st: State, m: MSocket, a: Answer, accepted: bool)
    requires Working(cmp, st, m) && Has(st, m) && st.lookups[m].candidate.Some? && st.lookups[m].retries <= 1
    requires (st.socks[m].remoteHost, st.lookups[m].candidate.value) in st.env.ptrLog
    requires a.rtype.IPv4A? && a.count >= 1 ==> (st.lookups[m].candidate.value, a.addr) in st.env.aLog
    requires IssuedBy(st.env, m) + Left(st.lookups[m].retries, APhase) <= 4
    requires cmp.AsDocumented? && Considered(st, m, a) ==> !Misleads(used, st, m, a)
    ensures Settled(cmp, AAnswer(used, st, m, a, accepted))
  {
    hide LookupsBut, Settled, Confirmed, Retry, AFailed, AFound, Add, Misleads;
    var d := st.lookups[m];
    assert NameOk(cmp, st.env, st.socks[m].remoteHost, d);
    if Terminal(a.result) {
      AFailedSettles(cmp, st, m, a);
    } else if (a.result != NoError && d.retries == 0) || !a.rtype.IPv4A? || a.count != 1 {
      RetrySettles(cmp, st, m, d.(candidate := None), accepted);
    } else {
      AFoundSettles(cmp, used, st, m, a);
    }
  }
}
