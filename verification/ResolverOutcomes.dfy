/** What each step of a reverse lookup makes of a socket, told by the fields of the state before and
    after it, and independently of how the steps are put together. */
module ResolverOutcomes {
  import opened Common
  import opened DnsCache
  import opened SocketModel
  import opened CacheOutcomes

  // ----- What can be seen of a step --------------------------------------------------------

  /** At most the lookup of m, the cache and the resolver's bookkeeping differ. */
  predicate Concerns(st: State, st': State, m: MSocket) {
    && m in st'.lookups
    && st' == st.(lookups := st.lookups[m := st'.lookups[m]], cache := st'.cache, active := st'.active, env := st'.env)
  }

  /** Nothing is asked. */
  predicate Silent(st: State, st': State) {
    st'.active == st.active && st'.env == st.env
  }

  /** Exactly one question is asked, which evdns takes or, unnoticed, refuses. */
  predicate Asks(st: State, st': State, m: MSocket, phase: Phase, target: string, accepted: bool) {
    && st'.active == st.active + 1
    && st'.env.queries ==
       (if accepted then st.env.queries + multiset{Query(m, phase, target)} else st.env.queries)
    && st'.env.refused == (if accepted then st.env.refused else st.env.refused + {m})
    && st'.env.issued == st.env.issued[m := (if m in st.env.issued then st.env.issued[m] else 0) + 1]
    && st'.env.forward == st.env.forward && st'.env.ptrLog == st.env.ptrLog && st'.env.aLog == st.env.aLog
  }

  /** The lookup of m is over, with this name or none. */
  predicate Over(st': State, m: MSocket, name: Option<string>, retries: nat) {
    && m in st'.lookups
    && !st'.lookups[m].waiting && st'.lookups[m].name == name
    && st'.lookups[m].candidate == None && st'.lookups[m].retries == retries
  }

  // ----- lms_dns_findrev -------------------------------------------------------------------

  /** With no PTR record cached, the remote address is asked for. */
  lemma UnknownAddressIsAsked(st: State, m: MSocket, accepted: bool)
    requires Has(st, m) && Find(st.cache, st.socks[m].remoteHost, Ptr) == None
    ensures var st', d := FindRev(st, m, accepted), st.lookups[m];
            && Concerns(st, st', m) && st'.cache == st.cache && FindRevCode(st, m) == 0
            && Asks(st, st', m, PtrPhase, st.socks[m].remoteHost, accepted)
            && st'.lookups[m] == Lookup(true, d.name, d.candidate, d.retries)
  {
  }

  /** A negative PTR record ends the lookup without a name. */
  lemma NegativePtrEnds(st: State, m: MSocket, accepted: bool, p: Entry)
    requires Has(st, m) && Find(st.cache, st.socks[m].remoteHost, Ptr) == Some(p) && p.negative
    ensures var st' := FindRev(st, m, accepted);
            && Concerns(st, st', m) && st'.cache == st.cache && Silent(st, st')
            && FindRevCode(st, m) == 2 && Over(st', m, None, st.lookups[m].retries)
  {
  }

  /** With a PTR record but no A record for its host, that host is the candidate and is asked for. */
  lemma UnknownHostIsAsked(st: State, m: MSocket, accepted: bool, p: Entry)
    requires Has(st, m) && Find(st.cache, st.socks[m].remoteHost, Ptr) == Some(p) && !p.negative
    requires Find(st.cache, p.host, A) == None
    ensures var st', d := FindRev(st, m, accepted), st.lookups[m];
            && Concerns(st, st', m) && st'.cache == st.cache && FindRevCode(st, m) == 0
            && Asks(st, st', m, APhase, p.host, accepted)
            && st'.lookups[m] == Lookup(true, d.name, Some(p.host), d.retries)
  {
  }

  /** With both records the lookup ends at once: with the host as the name exactly when the A record
      is positive and leads back to the remote address. */
  lemma CachedPairDecides(st: State, m: MSocket, accepted: bool, p: Entry, a: Entry)
    requires Has(st, m) && Find(st.cache, st.socks[m].remoteHost, Ptr) == Some(p) && !p.negative
    requires Find(st.cache, p.host, A) == Some(a)
    ensures var st', confirmed := FindRev(st, m, accepted), !a.negative && a.ip == st.socks[m].remoteHost;
            && Concerns(st, st', m) && st'.cache == st.cache && Silent(st, st')
            && FindRevCode(st, m) == (if confirmed then 1 else 3)
            && Over(st', m, if confirmed then Some(p.host) else None, st.lookups[m].retries)
  {
  }

  /** What lms_dns_findrev returns says what it did. */
  lemma CodeTells(st: State, m: MSocket, accepted: bool)
    requires Has(st, m)
    ensures var st', code := FindRev(st, m, accepted), FindRevCode(st, m);
            && m in st'.lookups && 0 <= code <= 3
            && (code == 0 <==> st'.lookups[m].waiting)
            && (code == 0 <==> st'.active == st.active + 1)
            && (code == 1 <==> !st'.lookups[m].waiting && st'.lookups[m].name.Some?)
  {
  }

  // ----- lms_dns_recvrevA ------------------------------------------------------------------

  /** The answer is neither a verdict nor a host name. */
  predicate OddPtr(a: Answer) {
    a.result.OtherError? || (a.result.NoError? && a.rtype != PtrName)
  }

  /** A verdict of the resolver ends the lookup without a name.  That the address has no name is
      remembered for an hour, other failures are not remembered. */
  lemma PtrVerdictEnds(st: State, m: MSocket, a: Answer, accepted: bool)
    requires Has(st, m) && (a.result == ServerFailed || a.result == NotExist || a.result == UnknownError)
    ensures var st' := PtrAnswer(st, m, a, accepted);
            && Concerns(st, st', m) && Silent(st, st') && Over(st', m, None, 0)
            && (a.result == NotExist ==>
                  st'.cache == Add(st.cache, Ptr, Some(st.socks[m].remoteHost), None, 3600, st.now).0)
            && (a.result != NotExist ==> st'.cache == st.cache)
  {
    hide Add;
  }

  /** The first odd answer leads to a second attempt, the second gives up. */
  lemma OddPtrIsRetriedOnce(st: State, m: MSocket, a: Answer, accepted: bool)
    requires Has(st, m) && OddPtr(a)
    ensures var st', d := PtrAnswer(st, m, a, accepted), st.lookups[m];
            && (d.retries == 0 ==>
                  st' == FindRev(st.(lookups := st.lookups[m := Lookup(d.waiting, d.name, d.candidate, 1)]),
                                 m, accepted))
            && (d.retries > 0 ==>
                  Concerns(st, st', m) && Silent(st, st') && st'.cache == st.cache && Over(st', m, None, 0))
  {
    hide FindRev;
  }

  /** When the cache knows nothing, the second attempt asks the same question once more. */
  lemma SecondAttemptAsksAgain(st: State, m: MSocket, a: Answer, accepted: bool)
    requires Has(st, m) && OddPtr(a) && st.lookups[m].retries == 0
    requires Find(st.cache, st.socks[m].remoteHost, Ptr) == None
    ensures var st', d := PtrAnswer(st, m, a, accepted), st.lookups[m];
            && Concerns(st, st', m) && st'.cache == st.cache
            && Asks(st, st', m, PtrPhase, st.socks[m].remoteHost, accepted)
            && st'.lookups[m] == Lookup(true, d.name, d.candidate, 1)
  {
    hide FindRev, Find, PtrAnswer;
    OddPtrIsRetriedOnce(st, m, a, accepted);
    var d := st.lookups[m];
    UnknownAddressIsAsked(st.(lookups := st.lookups[m := Lookup(d.waiting, d.name, d.candidate, 1)]), m, accepted);
  }

  /** A host name is remembered for the remote address.  A corpse stops there; for others the A
      record of the name decides, or is asked for when there is none. */
  lemma PtrNameIsChecked(st: State, m: MSocket, a: Answer, accepted: bool)
    requires Has(st, m) && a.result == NoError && a.rtype == PtrName
    ensures var st', s, d := PtrAnswer(st, m, a, accepted), st.socks[m], st.lookups[m];
            var c := Find(st'.cache, a.name, A);
            && Concerns(st, st', m)
            && st'.cache == Add(st.cache, Ptr, Some(s.remoteHost), Some(a.name), a.ttl, st.now).0
            && (s.flags.waitDestroy ==>
                  Silent(st, st') && st'.lookups[m] == Lookup(false, d.name, Some(a.name), d.retries))
            && (!s.flags.waitDestroy && c == None ==>
                  && Asks(st, st', m, APhase, a.name, accepted)
                  && st'.lookups[m] == Lookup(d.waiting, d.name, Some(a.name), d.retries))
            && (!s.flags.waitDestroy && c.Some? && !c.value.negative && c.value.ip == s.remoteHost ==>
                  Silent(st, st') && Over(st', m, Some(a.name), d.retries))
            && (!s.flags.waitDestroy && c.Some? && (c.value.negative || c.value.ip != s.remoteHost) ==>
                  Silent(st, st') && Over(st', m, None, 0))
  {
    hide Add, Find;
  }

  // ----- lms_dns_recvrevB ------------------------------------------------------------------

  /** The answer is not one address.  On a second attempt an unexpected error is not looked at. */
  predicate OddA(d: Lookup, a: Answer) {
    || (a.result.OtherError? && d.retries == 0)
    || ((a.result.OtherError? || a.result.NoError?) && (a.rtype != IPv4A || a.count != 1))
  }

  /** Without a candidate the answer is ignored. */
  lemma NoCandidateNoAnswer(cmp: Comparison, st: State, m: MSocket, a: Answer, accepted: bool)
    requires Has(st, m) && st.lookups[m].candidate == None
    ensures AAnswer(cmp, st, m, a, accepted) == st
  {
  }

  /** A verdict of the resolver ends the lookup without a name.  That the candidate has no address is
      remembered for ten minutes. */
  lemma AVerdictEnds(cmp: Comparison, st: State, m: MSocket, a: Answer, accepted: bool)
    requires Has(st, m) && st.lookups[m].candidate.Some?
    requires a.result == ServerFailed || a.result == NotExist || a.result == UnknownError
    ensures var st' := AAnswer(cmp, st, m, a, accepted);
            && Concerns(st, st', m) && Silent(st, st') && Over(st', m, None, 0)
            && (a.result == NotExist ==>
                  st'.cache == Add(st.cache, A, None, st.lookups[m].candidate, 600, st.now).0)
            && (a.result != NotExist ==> st'.cache == st.cache)
  {
    hide Add;
  }

  /** The first odd answer leads to a second attempt from the start, the second gives up. */
  lemma OddAIsRetriedOnce(cmp: Comparison, st: State, m: MSocket, a: Answer, accepted: bool)
    requires Has(st, m) && st.lookups[m].candidate.Some? && OddA(st.lookups[m], a)
    ensures var st', d := AAnswer(cmp, st, m, a, accepted), st.lookups[m];
            && (d.retries == 0 ==>
                  st' == FindRev(st.(lookups := st.lookups[m := Lookup(d.waiting, d.name, None, 1)]), m, accepted))
            && (d.retries > 0 ==>
                  Concerns(st, st', m) && Silent(st, st') && st'.cache == st.cache && Over(st', m, None, 0))
  {
    hide FindRev;
  }

  /** One address is remembered for the candidate.  A corpse stops there; for others the lookup ends,
      with the candidate as the name exactly when the address is the remote one, as documented, or
      the candidate itself, as coded. */
  lemma OneAddressDecides(cmp: Comparison, st: State, m: MSocket, a: Answer, accepted: bool)
    requires Has(st, m) && st.lookups[m].candidate.Some?
    requires a.result == NoError || (a.result.OtherError? && st.lookups[m].retries > 0)
    requires a.rtype == IPv4A && a.count == 1
    ensures var st', s, d := AAnswer(cmp, st, m, a, accepted), st.socks[m], st.lookups[m];
            && Concerns(st, st', m) && Silent(st, st')
            && st'.cache == Add(st.cache, A, Some(a.addr), d.candidate, a.ttl, st.now).0
            && (s.flags.waitDestroy ==> st'.lookups[m] == Lookup(false, d.name, d.candidate, d.retries))
            && (!s.flags.waitDestroy ==>
                  var same := match cmp
                              case AsDocumented => a.addr == s.remoteHost
                              case AsCoded => a.addr == d.candidate.value;
                  Over(st', m, if same then d.candidate else None, 0))
  {
    hide Add;
  }

  // ----- Replies and forward lookups as steps ----------------------------------------------

  /** A reply takes its query off the books before it is looked at. */
  lemma RepliesAreCounted(cmp: Comparison, st: State, q: Query, a: Answer, accepted: bool)
    requires Has(st, q.m) && Shaped(st)
    ensures var st1 := st.(active := st.active - 1, env := st.env.(queries := st.env.queries - multiset{q}));
            var ptr, addr := a.result == NoError && a.rtype == PtrName,
                             a.result == NoError && a.rtype == IPv4A && a.count >= 1;
            && Apply(cmp, st, PtrReply(q, a, accepted)) ==
               PtrAnswer(if ptr then st1.(env := st1.env.(ptrLog := st.env.ptrLog + {(q.target, a.name)})) else st1,
                         q.m, a, accepted)
            && Apply(cmp, st, AReply(q, a, accepted)) ==
               AAnswer(cmp, if addr then st1.(env := st1.env.(aLog := st.env.aLog + {(q.target, a.addr)})) else st1,
                       q.m, a, accepted)
  {
    hide PtrAnswer, AAnswer;
  }

  /** A forward answer is remembered for the host it was asked for: its first address, or that there
      is none. */
  lemma ForwardAnswersAreCached(cmp: Comparison, st: State, host: string, a: Answer)
    requires Shaped(st) && st.env.forward > 0
    ensures var st' := Apply(cmp, st, ForwardReply(host, a));
            var found := a.result == NoError && a.rtype == IPv4A && a.count >= 1;
            && st' == st.(cache := st'.cache, active := st.active - 1, env := st'.env)
            && st'.env == st.env.(forward := st.env.forward - 1, aLog := st'.env.aLog)
            && st'.env.aLog == (if found then st.env.aLog + {(host, a.addr)} else st.env.aLog)
            && st'.cache ==
               (if a.result == NotExist then Add(st.cache, A, None, Some(host), a.ttl, st.now).0
                else if found then Add(st.cache, A, Some(a.addr), Some(host), a.ttl, st.now).0
                else st.cache)
  {
    hide Add;
  }

  // ----- A whole lookup --------------------------------------------------------------------

  /** A lookup nothing is cached for, both of whose questions get an answer, the second being one
      address: the states after its start and its two replies. */
  predicate FreshLookup(st: State, m: MSocket, ptr: Answer, a: Answer) {
    && Shaped(st) && Has(st, m) && !st.socks[m].flags.waitDestroy
    && Find(st.cache, st.socks[m].remoteHost, Ptr) == None && Find(st.cache, ptr.name, A) == None
    && ptr.result == NoError && ptr.rtype == PtrName
    && a.result == NoError && a.rtype == IPv4A && a.count == 1
  }

  function PtrQuery(st: State, m: MSocket): Query
    requires Has(st, m)
  {
    Query(m, PtrPhase, st.socks[m].remoteHost)
  }

  lemma FreshStarts(cmp: Comparison, st: State, m: MSocket, ptr: Answer, a: Answer)
    requires FreshLookup(st, m, ptr, a)
    ensures var st1, d := Apply(cmp, st, StartLookup(m, true)), st.lookups[m];
            && Concerns(st, st1, m) && st1.cache == st.cache && st1.active == st.active + 1
            && PtrQuery(st, m) in st1.env.queries
            && st1.lookups[m] == Lookup(true, d.name, d.candidate, d.retries)
  {
    hide FindRev, Find;
    UnknownAddressIsAsked(st.(env := st.env.(issued := st.env.issued[m := 0])), m, true);
  }

  lemma FreshGetsCandidate(cmp: Comparison, st: State, m: MSocket, q: Query, ptr: Answer, a: Answer)
    requires FreshLookup(st, m, ptr, a) && q.m == m
    ensures var st', host, d := Apply(cmp, st, PtrReply(q, ptr, true)), st.socks[m].remoteHost, st.lookups[m];
            && Concerns(st, st', m) && st'.active == st.active
            && Query(m, APhase, ptr.name) in st'.env.queries
            && st'.cache == Add(st.cache, Ptr, Some(host), Some(ptr.name), ptr.ttl, st.now).0
            && Find(st'.cache, ptr.name, A) == None
            && st'.lookups[m] == Lookup(d.waiting, d.name, Some(ptr.name), d.retries)
  {
    hide PtrAnswer, Find, Add, Apply;
    RepliesAreCounted(cmp, st, q, ptr, true);
    OthersFindTheSame(st.cache, Ptr, Some(st.socks[m].remoteHost), Some(ptr.name), ptr.ttl, st.now, ptr.name, A);
    var st1 := st.(active := st.active - 1, env := st.env.(queries := st.env.queries - multiset{q}));
    PtrNameIsChecked(st1.(env := st1.env.(ptrLog := st.env.ptrLog + {(q.target, ptr.name)})), m, ptr, true);
  }

  lemma FreshIsDecided(cmp: Comparison, st: State, m: MSocket, q: Query, ptr: Answer, a: Answer)
    requires Shaped(st) && Has(st, m) && q.m == m && !st.socks[m].flags.waitDestroy
    requires a.result == NoError && a.rtype == IPv4A && a.count == 1
    requires st.lookups[m].candidate == Some(ptr.name)
    ensures var st', host := Apply(cmp, st, AReply(q, a, true)), st.socks[m].remoteHost;
            && Concerns(st, st', m) && st'.active == st.active - 1
            && st'.cache == Add(st.cache, A, Some(a.addr), Some(ptr.name), a.ttl, st.now).0
            && Over(st', m, if (cmp.AsDocumented? && a.addr == host) || (cmp.AsCoded? && a.addr == ptr.name)
                            then Some(ptr.name) else None, 0)
  {
    hide AAnswer, Add, Apply;
    RepliesAreCounted(cmp, st, q, a, true);
    var st1 := st.(active := st.active - 1, env := st.env.(queries := st.env.queries - multiset{q}));
    OneAddressDecides(cmp, st1.(env := st1.env.(aLog := st.env.aLog + {(q.target, a.addr)})), m, a, true);
  }

  /** st1, st2 and st3 are the states after its start and after each question was answered; each was
      outstanding then. */
  ghost predicate IsLookup(cmp: Comparison, st: State, st1: State, st2: State, st3: State, m: MSocket,
                            ptr: Answer, a: Answer)
    requires Shaped(st) && Has(st, m)
  {
    var first, second := PtrQuery(st, m), Query(m, APhase, ptr.name);
    && st1 == Apply(cmp, st, StartLookup(m, true))
    && first in st1.env.queries && Defined(st1, PtrReply(first, ptr, true))
    && st2 == Apply(cmp, st1, PtrReply(first, ptr, true))
    && second in st2.env.queries && Defined(st2, AReply(second, a, true))
    && st3 == Apply(cmp, st2, AReply(second, a, true))
  }

  /** Such a lookup, from its start to its end: each question is outstanding when it is answered, and at
      the end the socket has the name that was given for its address exactly when the address that was
      given for the name is its own, as documented, or spells the name itself, as coded. */
  lemma LookupGivesName(cmp: Comparison, st: State, m: MSocket, ptr: Answer, a: Answer)
    returns (st1: State, st2: State, st3: State)
    requires FreshLookup(st, m, ptr, a)
    ensures IsLookup(cmp, st, st1, st2, st3, m, ptr, a)
    ensures var host := st.socks[m].remoteHost;
            && Concerns(st, st3, m) && st3.active == st.active
            && Over(st3, m, if (cmp.AsDocumented? && a.addr == host) || (cmp.AsCoded? && a.addr == ptr.name)
                            then Some(ptr.name) else None, 0)
            && st2.cache == Add(st.cache, Ptr, Some(host), Some(ptr.name), ptr.ttl, st.now).0
            && st3.cache == Add(st2.cache, A, Some(a.addr), Some(ptr.name), a.ttl, st.now).0
            && Find(st2.cache, ptr.name, A) == None
  {
    hide Apply, Add, Find;
    FreshStarts(cmp, st, m, ptr, a);
    st1 := Apply(cmp, st, StartLookup(m, true));
    FreshGetsCandidate(cmp, st1, m, PtrQuery(st, m), ptr, a);
    st2 := Apply(cmp, st1, PtrReply(PtrQuery(st, m), ptr, true));
    FreshIsDecided(cmp, st2, m, Query(m, APhase, ptr.name), ptr, a);
    st3 := Apply(cmp, st2, AReply(Query(m, APhase, ptr.name), a, true));
  }

  /** What the two answers leave in the cache, if there was room, decides the next lookup for the same
      address at once, by the documented comparison even if the first was decided by the coded one. */
  lemma NextLookupIsCached(cmp: Comparison, st: State, m: MSocket, ptr: Answer, a: Answer, n: MSocket, accepted: bool)
    returns (st1: State, st2: State, st3: State)
    requires FreshLookup(st, m, ptr, a) && n != m && Has(st, n) && st.socks[n].remoteHost == st.socks[m].remoteHost
    requires var (cache, r) := Add(st.cache, Ptr, Some(st.socks[m].remoteHost), Some(ptr.name), ptr.ttl, st.now);
             r == Added && Add(cache, A, Some(a.addr), Some(ptr.name), a.ttl, st.now).1 == Added
    ensures IsLookup(cmp, st, st1, st2, st3, m, ptr, a) && Has(st3, n)
    ensures var same, st' := a.addr == st.socks[m].remoteHost, FindRev(st3, n, accepted);
            && FindRevCode(st3, n) == (if same then 1 else 3) && Silent(st3, st')
            && Over(st', n, if same then Some(ptr.name) else None, st.lookups[n].retries)
  {
    hide Apply, Add, Find, FindRev, FindRevCode, PtrQuery;
    var host, name := st.socks[m].remoteHost, ptr.name;
    st1, st2, st3 := LookupGivesName(cmp, st, m, ptr, a);
    AddedPtrIsFound(st.cache, host, Some(name), ptr.ttl, st.now);
    OthersFindTheSame(st2.cache, A, Some(a.addr), Some(name), a.ttl, st.now, host, Ptr);
    AddedAIsFound(st2.cache, name, Some(a.addr), a.ttl, st.now);
    CachedPairDecides(st3, n, accepted, Find(st3.cache, host, Ptr).value, Find(st3.cache, name, A).value);
  }
}
