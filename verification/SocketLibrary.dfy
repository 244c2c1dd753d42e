/** The library itself: global arrays of socket pointers, sockets on the heap, and the C functions
    that update them in place, each proved to do what SocketModel says it does. */
module SocketLibrary {
  import opened Common
  import opened DnsCache
  import opened SocketModel
  import opened SocketSafety
  import opened SocketRuns

  class Library {
    const list: array<MSocket?>
    const corpses: array<MSocket?>
    const revents: array<MSocket?>
    const wevents: array<MSocket?>
    const cache: Cache
    const cmp: Comparison         // what line 717 of msocket/dns.c compares
    var active: int
    var now: int                  // what time(NULL) returns
    ghost var live: set<MSocket>  // the sockets allocated and not freed
    ghost var env: Env

    ghost predicate Valid()
      reads this
    {
      && list.Length == corpses.Length == revents.Length == wevents.Length == HIGHSOCK
      && list != corpses && list != revents && list != wevents
      && corpses != revents && corpses != wevents && revents != wevents
    }

    ghost function Socks(): (r: map<MSocket, Sock>)
      reads this, live
    {
      map m | m in live :: m.Value()
    }

    ghost function Lookups(): (r: map<MSocket, Lookup>)
      reads this, live
    {
      map m | m in live :: m.Dns()
    }

    ghost function Model(): State
      reads this, list, corpses, revents, wevents, cache.slots, live
    {
      State(Socks(), Lookups(), list[..], corpses[..], revents[..], wevents[..], cache.slots[..], active, now, env)
    }

    /** No socket was written to. */
    twostate lemma NoSocket()
      requires live == old(live) && forall x :: x in live ==> unchanged(x)
      ensures Socks() == old(Socks()) && Lookups() == old(Lookups())
    {
    }

    /** m was freed and no other socket written to. */
    twostate lemma OneFreed(m: MSocket)
      requires live == old(live) - {m} && forall x :: x in live ==> unchanged(x)
      ensures Socks() == old(Socks()) - {m} && Lookups() == old(Lookups()) - {m}
    {
    }

    /** m was allocated and no other socket written to. */
    twostate lemma OneOpened(new m: MSocket)
      requires live == old(live) + {m} && m !in old(live)
      requires forall x :: x in old(live) ==> unchanged(x)
      ensures Socks() == old(Socks())[m := m.Value()] && Lookups() == old(Lookups())[m := m.Dns()]
    {
    }

    lemma Known(m: MSocket)
      requires m in live
      ensures Has(Model(), m) && Socks()[m] == m.Value() && Lookups()[m] == m.Dns()
    {
    }

    lemma Living(m: MSocket)
      ensures m in Model().socks <==> m in live
    {
    }

    /** Only m was written to. */
    twostate lemma OneSocket(m: MSocket)
      requires m in old(live) && live == old(live)
      requires forall x :: x in live && x != m ==> unchanged(x)
      ensures Socks() == old(Socks())[m := m.Value()]
      ensures Lookups() == old(Lookups())[m := m.Dns()]
      ensures m.Value() == old(m.Value()) ==> Socks() == old(Socks())
      ensures m.Dns() == old(m.Dns()) ==> Lookups() == old(Lookups())
    {
    }

    constructor (start: int, compare: Comparison)
      ensures Valid() && Model() == Init(start) && cmp == compare && live == {}
      ensures fresh(list) && fresh(corpses) && fresh(revents) && fresh(wevents) && fresh(cache.slots)
    {
      list := new MSocket?[HIGHSOCK](_ => null);
      corpses := new MSocket?[HIGHSOCK](_ => null);
      revents := new MSocket?[HIGHSOCK](_ => null);
      wevents := new MSocket?[HIGHSOCK](_ => null);
      cache := new Cache();
      active, now, cmp := 0, start, compare;
      live, env := {}, Env(multiset{}, 0, {}, map[], {}, {});
    }

    /** lms_mux_addfd */
    method AddFd(m: MSocket)
      requires Valid() && AtFd(Model(), m)
      modifies m, revents, wevents
      ensures Model() == SocketModel.AddFd(old(Model()), m)
    {
      var fd := m.fd;
      revents[fd] := m;
      wevents[fd] := m;
      m.flags := m.flags.(muxActive := true);
      OneSocket(m);
    }

    /** lms_mux_remfd */
    method RemFd(fd: int)
      requires Valid() && fd < HIGHSOCK
      requires 0 <= fd && list[fd] != null ==> list[fd] in live && list[fd] in Socks()
      modifies revents, wevents, live
      ensures Model() == SocketModel.RemFd(old(Model()), fd)
    {
      hide Socks, Lookups;
      if fd < 0 {
        return;
      }
      if revents[fd] == null || wevents[fd] == null {
        return;
      }
      var mso := list[fd];
      if mso != null {
        Known(mso);
        mso.flags := mso.flags.(muxActive := false);
        OneSocket(mso);
      }
      label removing:
      revents[fd] := null;
      wevents[fd] := null;
      NoSocket@removing();
    }

    /** The part of lms_socket_destroy that shuts a listed socket down. */
    method ShutDown(m: MSocket)
      requires Valid() && m in live && AtFd(Model(), m)
      modifies m`flags, list
      ensures m.fd == old(m.fd) && m.Value() == SocketModel.ShutDown(old(m.Value())) && m.Dns() == old(m.Dns())
      ensures Model() == Put(old(Model()), m, m.Value()).(list := old(list[..])[m.fd := null])
    {
      hide Socks, Lookups;
      Known(m);
      list[m.fd] := null;
      if m.kind != LocalListen {
        if m.flags.connected {
          m.flags := m.flags.(connected := false);
        } else if m.flags.ready {
          m.flags := m.flags.(ready := false);
        }
      }
      OneSocket(m);
    }

    /** A socket that still waits becomes a corpse. */
    method Park(m: MSocket)
      requires Valid() && m in live && AtFd(Model(), m)
      modifies m`flags, corpses
      ensures Model() == Put(old(Model()), m, Corpse(old(m.Value()))).(corpses := old(corpses[..])[old(m.fd) := m])
    {
      hide Socks, Lookups;
      Known(m);
      m.flags := m.flags.(waitDestroy := true);
      m.flags := m.flags.(connected := false);
      m.flags := m.flags.(ready := false);
      corpses[m.fd] := m;
      OneSocket(m);
    }

    /** Lines 346 to 429 of lms_socket_destroy; freeing m is taking it out of `live`. */
    method Dismantle(m: MSocket)
      requires Valid() && m in live && AtFd(Model(), m)
      modifies this`live, list, corpses, m`flags
      ensures Model() == SocketModel.Dismantle(old(Model()), m)
      ensures live <= old(live)
    {
      hide Socks, Lookups, Corpse;
      Known(m);
      if !m.flags.waitDestroy {
        ShutDown(m);
        Known(m);
        if m.waitDns || m.flags.waitIdent {
          ghost var down := m.Value();
          Park(m);
          assert old(Socks())[m := down][m := Corpse(down)] == old(Socks())[m := Corpse(down)];
          return;
        }
        label freeing:
        live := live - {m};
        OneFreed@freeing(m);
      } else if m.waitDns || m.flags.waitIdent {
        corpses[m.fd] := m;
        NoSocket();
      } else {
        corpses[m.fd] := null;
        live := live - {m};
        OneFreed(m);
      }
    }

    /** lms_socket_destroy */
    method Destroy(m: MSocket)
      requires Valid() && m in live && Listed(Model()) && AtFd(Model(), m)
      modifies this`live, list, corpses, revents, wevents, live
      ensures Model() == SocketModel.Destroy(old(Model()), m)
      ensures live <= old(live)
    {
      Known(m);
      if m.flags.muxActive {
        RemFd(m.fd);
      }
      hide SocketModel.Dismantle;
      Dismantle(m);
    }

    static lemma RemFdKeepsListed(st: State, m: MSocket)
      requires Shaped(st) && Listed(st) && AtFd(st, m)
      ensures var st1 := SocketModel.RemFd(st, st.socks[m].fd);
              Shaped(st1) && Listed(st1) && AtFd(st1, m)
    {
    }

    /** The write callback a socket is created with, which flushes its queue. */
    method WriteCallback(m: MSocket, sent: bool)
      requires Valid() && m in live && m in Socks()
      modifies m`lastSend
      ensures Model() == SocketModel.AfterWrite(old(Model()), m, sent)
    {
      hide Socks, Lookups;
      Known(m);
      if sent { m.lastSend := now; }
      OneSocket(m);
    }

    static lemma AfterWriteKeepsListed(st: State, m: MSocket, sent: bool)
      requires Shaped(st) && Listed(st) && AtFd(st, m)
      ensures var st1 := SocketModel.AfterWrite(st, m, sent); Shaped(st1) && Listed(st1) && AtFd(st1, m)
    {
    }

    /** lms_socket_close; sent says whether anything was queued and went out. */
    method Close(m: MSocket, sent: bool) returns (r: int)
      requires Valid() && m in live && Listed(Model()) && AtFd(Model(), m)
      modifies this`live, list, corpses, revents, wevents, live
      ensures Model() == SocketModel.Close(old(Model()), m, sent) && live <= old(live)
      ensures r == if old(m.flags.waitDestroy) then -1 else 0
    {
      hide Socks, Lookups, SocketModel.Destroy, SocketModel.RemFd, SocketModel.AfterWrite, Listed;
      Known(m);
      if m.flags.waitDestroy {
        return -1;
      }
      RemFdKeepsListed(Model(), m);
      ListedIsLive(m);
      if m.flags.muxActive {
        RemFd(m.fd);
      }
      AfterWriteKeepsListed(Model(), m, sent);
      WriteCallback(m, sent);
      Destroy(m);
      r := 0;
    }

    lemma ListedIsLive(m: MSocket)
      requires Valid() && m in live && Listed(Model()) && AtFd(Model(), m)
      ensures list[m.fd] != null ==> list[m.fd] in live && list[m.fd] in Socks()
      ensures SocketModel.RemFd(Model(), m.fd).socks.Keys == Model().socks.Keys
    {
    }

    // ----- Reverse lookups -----------------------------------------------------------------

    /** A call to evdns on behalf of m.  Whether it accepts the query, the C code does not ask. */
    method Resolve(m: MSocket, ghost phase: Phase, ghost target: string, ghost accepted: bool)
      requires Valid()
      modifies this`active, this`env
      ensures Model() == Issue(old(Model()), m, phase, target, accepted)
    {
      hide Socks, Lookups;
      active := active + 1;
      var issued := env.(issued := env.issued[m := IssuedBy(env, m) + 1]);
      env := if accepted then issued.(queries := issued.queries + multiset{Query(m, phase, target)})
             else issued.(refused := issued.refused + {m});
      NoSocket();
    }

    /** lms_dns_findrev */
    method FindRev(m: MSocket, ghost accepted: bool) returns (r: int)
      requires Valid() && m in live && Has(Model(), m)
      modifies this`active, this`env, m`waitDns, m`remoteDns, m`candidate
      ensures Model() == SocketModel.FindRev(old(Model()), m, accepted)
      ensures r == FindRevCode(old(Model()), m)
    {
      hide Socks, Lookups, Find, Issue;
      Known(m);
      m.waitDns := true;
      var cacheent := cache.FindInCache(m.remoteHost, Ptr);
      if cacheent.Some? {
        if cacheent.value.negative {
          m.waitDns, m.remoteDns, m.candidate := false, None, None;
          OneSocket(m);
          return 2;
        }
        var c := cache.FindInCache(cacheent.value.host, A);
        if c.Some? {
          if c.value.negative {
            m.waitDns, m.remoteDns, m.candidate := false, None, None;
            OneSocket(m);
            return 3;
          }
          if c.value.ip == m.remoteHost {
            m.waitDns := false;
            m.remoteDns := Some(cacheent.value.host);
            m.candidate := None;
            OneSocket(m);
            return 1;
          } else {
            m.waitDns, m.remoteDns, m.candidate := false, None, None;
            OneSocket(m);
            return 3;
          }
        } else {
          m.candidate := Some(cacheent.value.host);
          OneSocket(m);
          Resolve(m, APhase, cacheent.value.host, accepted);
        }
      } else {
        OneSocket(m);
        Resolve(m, PtrPhase, m.remoteHost, accepted);
      }
      return 0;
    }

    /** No longer waiting, no name, no candidate, no retries: the way most failures end. */
    method GiveUp(m: MSocket)
      requires Valid() && m in live && Has(Model(), m)
      modifies m`waitDns, m`remoteDns, m`candidate, m`retries
      ensures Model() == PutDns(old(Model()), m, GIVEN_UP)
    {
      hide Socks, Lookups;
      m.waitDns := false;
      m.remoteDns := None;
      m.candidate := None;
      if m.retries > 0 {
        m.retries := 0;
      }
      OneSocket(m);
    }

    method Retry(m: MSocket, ghost accepted: bool)
      requires Valid() && m in live && Has(Model(), m)
      modifies this`active, this`env, m`waitDns, m`remoteDns, m`candidate, m`retries
      ensures Model() == SocketModel.Retry(old(Model()), m, old(m.Dns()), accepted)
    {
      hide Socks, Lookups, SocketModel.FindRev;
      Known(m);
      if m.retries == 0 {
        m.retries := m.retries + 1;
        OneSocket(m);
        var _ := FindRev(m, accepted);
      } else {
        GiveUp(m);
      }
    }

    /** An addition to the cache whose outcome the caller does not look at. */
    method Remember(t: RecordType, ip: Option<string>, host: Option<string>, ttl: int)
      requires Valid()
      modifies cache.slots
      ensures Model() == Cached(old(Model()), t, ip, host, ttl)
    {
      hide Socks, Lookups, Add;
      var _ := cache.AddCache(t, ip, host, ttl, now);
      NoSocket();
    }

    /** The answer to q arrives. */
    ghost method Arrive(q: Query, ptrs: set<(string, string)>, addrs: set<(string, string)>)
      requires Valid()
      modifies this`env
      ensures Model() == old(Model()).(env := old(env).(
                                         queries := old(env).queries - multiset{q},
                                         ptrLog := old(env).ptrLog + ptrs,
                                         aLog := old(env).aLog + addrs))
    {
      hide Socks, Lookups;
      env := env.(queries := env.queries - multiset{q}, ptrLog := env.ptrLog + ptrs, aLog := env.aLog + addrs);
      NoSocket();
    }

    /** Lines 533 to 579 of lms_dns_recvrevA: the candidate against the cached record c. */
    method CheckCandidate(m: MSocket, c: Option<Entry>, name: string, ghost accepted: bool)
      requires Valid() && m in live && Has(Model(), m)
      modifies this`active, this`env, m`waitDns, m`remoteDns, m`candidate, m`retries
      ensures Model() == Checked(old(Model()), m, old(m.Dns()), c, name, accepted)
    {
      hide Socks, Lookups, Issue;
      Known(m);
      if c.Some? {
        if c.value.negative {
          GiveUp(m);
        } else if c.value.ip == m.remoteHost {
          m.waitDns := false;
          m.remoteDns := m.candidate;
          m.candidate := None;
          OneSocket(m);
        } else {
          GiveUp(m);
        }
      } else {
        assert PutDns(Model(), m, m.Dns()) == Model();
        Resolve(m, APhase, name, accepted);
      }
    }

    /** Lines 512 to 579 of lms_dns_recvrevA. */
    method PtrFound(m: MSocket, a: Answer, ghost accepted: bool)
      requires Valid() && m in live && Has(Model(), m)
      modifies this`active, this`env, cache.slots, m`waitDns, m`remoteDns, m`candidate, m`retries
      ensures Model() == SocketModel.PtrFound(old(Model()), m, a, accepted)
    {
      hide Socks, Lookups, Find, Add, Issue;
      Known(m);
      m.candidate := Some(a.name);
      OneSocket(m);
      Remember(Ptr, Some(m.remoteHost), m.candidate, a.ttl);
      if m.flags.waitDestroy {
        label corpse:
        m.waitDns := false;
        OneSocket@corpse(m);
        return;
      }
      var c := cache.FindInCache(a.name, A);
      CheckedOverwrites(Cached(old(Model()), Ptr, Some(m.remoteHost), m.candidate, a.ttl),
                        m, m.Dns(), c, a.name, accepted);
      hide Checked;
      CheckCandidate(m, c, a.name, accepted);
    }

    static lemma CheckedOverwrites(st: State, m: MSocket, d: Lookup, c: Option<Entry>, name: string, accepted: bool)
      requires Has(st, m)
      ensures Checked(PutDns(st, m, d), m, d, c, name, accepted) == Checked(st, m, d, c, name, accepted)
    {
      assert PutDns(PutDns(st, m, d), m, d) == PutDns(st, m, d);
      assert PutDns(PutDns(st, m, d), m, GIVEN_UP) == PutDns(st, m, GIVEN_UP);
      assert PutDns(PutDns(st, m, d), m, Named(d, d.candidate)) == PutDns(st, m, Named(d, d.candidate));
    }

    /** The counter decrement both callbacks begin with. */
    method CountDown(ghost q: Query, ghost ptrs: set<(string, string)>, ghost addrs: set<(string, string)>)
      requires Valid()
      modifies this`active, this`env
      ensures Model() == Answered(old(Model()), q).(env := Answered(old(Model()), q).env.(
                                                      ptrLog := old(env).ptrLog + ptrs,
                                                      aLog := old(env).aLog + addrs))
    {
      hide Socks, Lookups;
      active := active - 1;
      NoSocket();
      Arrive(q, ptrs, addrs);
    }

    method CountPtr(ghost q: Query, ghost a: Answer)
      requires Valid()
      modifies this`active, this`env
      ensures Model() == LogPtr(Answered(old(Model()), q), q, a)
    {
      hide Socks, Lookups;
      CountDown(q, if a.result.NoError? && a.rtype.PtrName? then {(q.target, a.name)} else {}, {});
    }

    method CountA(ghost q: Query, ghost a: Answer)
      requires Valid()
      modifies this`active, this`env
      ensures Model() == LogA(Answered(old(Model()), q), q.target, a)
    {
      hide Socks, Lookups;
      CountDown(q, {}, if a.result.NoError? && a.rtype.IPv4A? && a.count >= 1 then {(q.target, a.addr)} else {});
    }

    /** The error branch of lms_dns_recvrevA. */
    method PtrError(m: MSocket, a: Answer, ghost accepted: bool)
      requires Valid() && m in live && Has(Model(), m) && a.result != NoError
      modifies this`active, this`env, cache.slots, m`waitDns, m`remoteDns, m`candidate, m`retries
      ensures Model() == PtrAnswer(old(Model()), m, a, accepted)
    {
      hide Socks, Lookups, SocketModel.Retry, SocketModel.PtrFound, Add;
      Known(m);
      if a.result == ServerFailed || a.result == NotExist || a.result == UnknownError {
        if a.result == NotExist {
          Remember(Ptr, Some(m.remoteHost), None, 3600);
        }
        GiveUp(m);
      } else {
        Retry(m, accepted);
      }
    }

    /** lms_dns_recvrevA */
    method RecvRevA(m: MSocket, a: Answer, ghost q: Query, ghost accepted: bool)
      requires Valid() && m in live && Has(Model(), m) && q.m == m
      modifies this`active, this`env, cache.slots, m`waitDns, m`remoteDns, m`candidate, m`retries
      ensures Model() == PtrAnswer(LogPtr(Answered(old(Model()), q), q, a), m, a, accepted)
    {
      hide Socks, Lookups, SocketModel.Retry, SocketModel.PtrFound, LogPtr, Answered, PtrFailed;
      Known(m);
      CountPtr(q, a);
      Known(m);
      if a.result != NoError {
        hide PtrAnswer;
        PtrError(m, a, accepted);
        return;
      }
      if a.rtype != PtrName {
        Retry(m, accepted);
        return;
      }
      PtrFound(m, a, accepted);
    }

    /** Lines 693 to 734 of lms_dns_recvrevB. */
    method AFound(m: MSocket, a: Answer)
      requires Valid() && m in live && Has(Model(), m) && m.candidate.Some? && Model().lookups[m].candidate.Some?
      modifies cache.slots, m`waitDns, m`remoteDns, m`candidate, m`retries
      ensures Model() == SocketModel.AFound(cmp, old(Model()), m, a)
    {
      hide Socks, Lookups, Find, Add;
      Known(m);
      Remember(A, Some(a.addr), m.candidate, a.ttl);
      label remembered:
      if m.flags.waitDestroy {
        m.waitDns := false;
        OneSocket@remembered(m);
        return;
      }
      // Line 717 compares the address with the candidate name, not with the remote address.
      if a.addr == (if cmp == AsCoded then m.candidate.value else m.remoteHost) {
        m.waitDns := false;
        m.remoteDns := m.candidate;
        m.candidate := None;
        if m.retries > 0 {
          m.retries := 0;
        }
        OneSocket@remembered(m);
      } else {
        GiveUp(m);
      }
    }

    /** What was written to m's lookup before does not matter to a retry. */
    static lemma RetryOverwrites(st: State, m: MSocket, before: Lookup, d: Lookup, accepted: bool)
      requires Has(st, m)
      ensures SocketModel.Retry(PutDns(st, m, before), m, d, accepted) == SocketModel.Retry(st, m, d, accepted)
    {
      assert PutDns(PutDns(st, m, before), m, d.(retries := 1)) == PutDns(st, m, d.(retries := 1));
      assert PutDns(PutDns(st, m, before), m, GIVEN_UP) == PutDns(st, m, GIVEN_UP);
      hide SocketModel.FindRev;
    }

    /** The candidate is freed, then another attempt is made if none was yet. */
    method RetryAfterA(m: MSocket, ghost accepted: bool)
      requires Valid() && m in live && Has(Model(), m)
      modifies this`active, this`env, m`waitDns, m`remoteDns, m`candidate, m`retries
      ensures Model() == SocketModel.Retry(old(Model()), m, old(m.Dns()).(candidate := None), accepted)
    {
      hide Socks, Lookups, SocketModel.Retry;
      Known(m);
      m.candidate := None;
      OneSocket(m);
      RetryOverwrites(old(Model()), m, m.Dns(), m.Dns(), accepted);
      Retry(m, accepted);
    }

    /** The error branch of lms_dns_recvrevB.  An unexpected error on the second attempt falls
        through. */
    method AError(m: MSocket, a: Answer, ghost accepted: bool) returns (done: bool)
      requires Valid() && m in live && Has(Model(), m) && a.result != NoError
      requires m.candidate.Some? && Model().lookups[m].candidate.Some?
      modifies this`active, this`env, cache.slots, m`waitDns, m`remoteDns, m`candidate, m`retries
      ensures done <==> Terminal(a.result) || old(m.retries) == 0
      ensures done ==> Model() == AAnswer(cmp, old(Model()), m, a, accepted)
      ensures !done ==> Model() == old(Model())
    {
      hide Socks, Lookups, SocketModel.Retry, SocketModel.AFound, Add;
      Known(m);
      if a.result == ServerFailed || a.result == NotExist || a.result == UnknownError {
        if a.result == NotExist {
          Remember(A, None, m.candidate, 600);
        }
        GiveUp(m);
        return true;
      } else if m.retries == 0 {
        RetryAfterA(m, accepted);
        return true;
      }
      done := false;
    }

    /** lms_dns_recvrevB after its counter decrement. */
    method HandleA(m: MSocket, a: Answer, ghost accepted: bool)
      requires Valid() && m in live && Has(Model(), m)
      modifies this`active, this`env, cache.slots, m`waitDns, m`remoteDns, m`candidate, m`retries
      ensures Model() == AAnswer(cmp, old(Model()), m, a, accepted)
    {
      hide Socks, Lookups, SocketModel.Retry, SocketModel.AFound, AFailed;
      Known(m);
      if m.candidate == None {
        return;
      }
      if a.result != NoError {
        var done := AError(m, a, accepted);
        if done { return; }
      }
      Known(m);
      if a.rtype != IPv4A || a.count != 1 {
        RetryAfterA(m, accepted);
        return;
      }
      AFound(m, a);
    }

    /** lms_dns_recvrevB */
    method RecvRevB(m: MSocket, a: Answer, ghost q: Query, ghost accepted: bool)
      requires Valid() && m in live && Has(Model(), m) && q.m == m
      modifies this`active, this`env, cache.slots, m`waitDns, m`remoteDns, m`candidate, m`retries
      ensures Model() == AAnswer(cmp, LogA(Answered(old(Model()), q), q.target, a), m, a, accepted)
    {
      hide Socks, Lookups, AAnswer, Answered, LogA;
      CountA(q, a);
      StillThere(old(Model()), q, a, m);
      HandleA(m, a, accepted);
    }

    static lemma StillThere(st: State, q: Query, a: Answer, m: MSocket)
      requires Has(st, m)
      ensures Has(LogA(Answered(st, q), q.target, a), m)
    {
    }

    // ----- Forward lookups and the clock ---------------------------------------------------

    /** The counter in lms_dns_lookup, when the host is not cached. */
    method LookUp(accepted: bool)
      requires Valid()
      modifies this`active, this`env
      ensures Model() == if accepted then Forwarded(old(Model())) else old(Model())
    {
      hide Socks, Lookups;
      if accepted {
        active := active + 1;
        env := env.(forward := env.forward + 1);
      }
      NoSocket();
    }

    /** lms_dns_recv, as far as the counter and the cache go. */
    method RecvForward(host: string, a: Answer)
      requires Valid()
      modifies this`active, this`env, cache.slots
      ensures Model() == ForwardAnswer(old(Model()), host, a)
    {
      hide Socks, Lookups, Add;
      active := active - 1;
      env := env.(forward := if env.forward > 0 then env.forward - 1 else 0);
      if a.result == NoError && a.rtype == IPv4A && a.count >= 1 {
        env := env.(aLog := env.aLog + {(host, a.addr)});
      }
      NoSocket();
      if a.result == NotExist {
        Remember(A, None, Some(host), a.ttl);
      } else if a.result == NoError && a.rtype == IPv4A && a.count >= 1 {
        Remember(A, Some(a.addr), Some(host), a.ttl);
      }
    }

    /** lms_dns_cleancache */
    method CleanCache()
      requires Valid()
      modifies cache.slots
      ensures Model() == old(Model()).(cache := Sweep(old(cache.slots[..]), now))
    {
      hide Socks, Lookups;
      cache.CleanCache(now);
      NoSocket();
    }

    method SetTime(t: int)
      requires Valid()
      modifies this`now
      ensures Model() == old(Model()).(now := t)
    {
      hide Socks, Lookups;
      now := t;
      NoSocket();
    }

    /** A lookup begins: m's queries are counted from here. */
    ghost method Restart(m: MSocket)
      requires Valid()
      modifies this`env
      ensures Model() == Restarted(old(Model()), m)
    {
      hide Socks, Lookups;
      env := env.(issued := env.issued[m := 0]);
      NoSocket();
    }

    // ----- Events --------------------------------------------------------------------------

    /** lms_conn_default_error */
    method ErrorCallback(m: MSocket)
      requires Valid() && m in live && Listed(Model()) && AtFd(Model(), m)
      modifies this`live, list, corpses, revents, wevents, live
      ensures Model() == SocketModel.ErrorCallback(old(Model()), m) && live <= old(live)
    {
      hide Socks, Lookups, SocketModel.Destroy, Listed;
      Known(m);
      if m.flags.waitDestroy && (m.waitDns || m.flags.waitIdent) {
        return;
      }
      Destroy(m);
    }

    /** _lms_mux_default_read and lms_socket_read, as far as the socket's state goes: the peer is
        gone, or the read ends and its time is noted. */
    method OnReadable(m: MSocket, gone: bool)
      requires Valid() && m in live && Listed(Model()) && AtFd(Model(), m)
      modifies this`live, list, corpses, revents, wevents, live
      ensures Model() == ReadEvent(old(Model()), m, gone) && live <= old(live)
    {
      hide Socks, Lookups, SocketModel.ErrorCallback, Listed;
      Known(m);
      if m.kind != Stream4 && m.kind != Stream6 {
        return;
      }
      if !m.flags.connected {
        return;
      }
      if gone {
        ErrorCallback(m);
        return;
      }
      m.lastRecv := now;
      OneSocket(m);
    }

    /** The flags a write event leaves. */
    method NowConnected(m: MSocket)
      requires Valid() && m in live && m in Socks()
      modifies m`flags
      ensures Model() == Put(old(Model()), m, WithFlags(old(m.Value()),
                                                        old(m.flags).(waitConn := false, connected := true)))
    {
      hide Socks, Lookups;
      Known(m);
      if m.flags.waitConn {
        m.flags := m.flags.(waitConn := false);
      }
      if !m.flags.connected {
        m.flags := m.flags.(connected := true);
      }
      OneSocket(m);
    }

    static lemma WriteIsTwo(st: State, m: MSocket, sent: bool)
      requires m in st.socks
      ensures var s := WithFlags(st.socks[m], st.socks[m].flags.(waitConn := false, connected := true));
              WriteEvent(st, m, sent) == SocketModel.AfterWrite(Put(st, m, s), m, sent)
    {
      var s := WithFlags(st.socks[m], st.socks[m].flags.(waitConn := false, connected := true));
      assert Put(Put(st, m, s), m, s.(lastSend := st.now)) == Put(st, m, s.(lastSend := st.now));
    }

    /** _lms_mux_default_write */
    method OnWritable(m: MSocket, sent: bool)
      requires Valid() && m in live && m in Socks()
      modifies m`flags, m`lastSend
      ensures Model() == WriteEvent(old(Model()), m, sent)
    {
      hide Socks, Lookups, WriteEvent, SocketModel.AfterWrite;
      Known(m);
      WriteIsTwo(Model(), m, sent);
      NowConnected(m);
      WriteCallback(m, sent);
    }

    // ----- Opening and housekeeping --------------------------------------------------------

    /** lms_socket_create followed by one of the open calls, whose descriptor is fd. */
    method Open(fd: int, kind: SockType, allowIdle: bool, host: IpText,
                connected: bool, ready: bool, waitConn: bool, connTo: nat) returns (m: MSocket)
      requires Valid() && 0 <= fd < HIGHSOCK
      modifies this`live, this`env, list
      ensures fresh(m) && m !in old(live) && live == old(live) + {m}
      ensures var s := Opened(old(now), fd, kind, allowIdle, host, connected, ready, waitConn, connTo);
              Model() == WithSocket(old(Model()), m, s).(list := old(list[..])[fd := m])
    {
      var s := Opened(now, fd, kind, allowIdle, host, connected, ready, waitConn, connTo);
      m := new MSocket(s);
      live := live + {m};
      env := env.(issued := env.issued[m := 0]);
      list[fd] := m;
      OneOpened(m);
      hide Socks, Lookups;
    }

    /** One round of the loop of lms_socket_housekeeping. */
    method HouseRound(i: nat, flushed: set<int>) returns (reaped: bool)
      requires Valid() && i < HIGHSOCK && Fds(Model()) && ReadsAreDefined(Model(), i)
      requires corpses[i] != null ==> corpses[i] in live
      requires list[i] != null ==> list[i] in live
      modifies this`live, list, corpses, revents, wevents, live
      ensures live <= old(live)
      ensures Model() == HouseAt(old(Model()), i, flushed)
      ensures reaped == Reaps(old(Model()), i)
    {
      hide Socks, Lookups, SocketModel.Destroy;
      reaped := false;
      var c, m := corpses[i], list[i];
      if c != null {
        Known(c);
        Known(m);
        if c.flags.waitDestroy && !m.waitDns && !m.flags.waitIdent {
          Destroy(c);
          return;
        }
      }
      if m == null {
        return;
      }
      Known(m);
      if m.flags.waitConn && m.connStart < now - m.connTo {
        Destroy(m);
        return true;
      }
      if m.kind == Listen4 || m.kind == Listen6 || m.kind == LocalListen {
        return;
      } else if m.allowIdle {
        return;
      }
      var ka := if m.kind == LocalClient then LOCALKEEPALIVE else MAXKEEPALIVE;
      if m.lastRecv <= now - ka && m.lastSend <= now - ka {
        Destroy(m);
        return true;
      }
      WriteCallback(m, i in flushed);
    }

    lemma SlotsAreLive(i: nat)
      requires Valid() && i < HIGHSOCK && Fds(Model())
      ensures corpses[i] != null ==> corpses[i] in live
      ensures list[i] != null ==> list[i] in live
    {
      if list[i] != null {
        assert list[i] in Socks();
      }
      if corpses[i] != null {
        assert corpses[i] in Socks();
      }
    }

    /** lms_socket_housekeeping, where no corpse is found at an unused descriptor. */
    method Housekeeping(flushed: set<int>) returns (num: nat)
      requires Valid() && TablesOk(Model()) && ReadsAreDefinedFrom(Model(), 0)
      modifies this`live, list, corpses, revents, wevents, live
      ensures Valid() && TablesOk(Model())
      ensures Model() == HouseFrom(old(Model()), 0, flushed)
      ensures num == ReapedFrom(old(Model()), 0, flushed)
    {
      hide TablesOk, Fds, HouseAt, ReadsAreDefined, Reaps, Socks, Lookups;
      var i := 0;
      num := 0;
      TablesMeanFds(Model());
      while i < HIGHSOCK
        invariant 0 <= i <= HIGHSOCK && live <= old(live)
        invariant TablesOk(Model()) && Fds(Model()) && ReadsAreDefinedFrom(Model(), i)
        invariant HouseFrom(Model(), i, flushed) == HouseFrom(old(Model()), 0, flushed)
        invariant num + ReapedFrom(Model(), i, flushed) == ReapedFrom(old(Model()), 0, flushed)
      {
        SlotsAreLive(i);
        HouseAtKeepsTables(Model(), i, flushed);
        HouseAtKeepsReads(Model(), i, flushed);
        var reaped := HouseRound(i, flushed);
        num := if reaped then num + 1 else num;
        i := i + 1;
      }
    }
  }
}
