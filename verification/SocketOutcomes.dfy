/** What opening, joining and leaving the mux, events, destroying and closing make of the sockets and
    the tables, told by the fields of the state before and after. */
module SocketOutcomes {
  import opened Common
  import opened DnsCache
  import opened CacheOutcomes
  import opened SocketModel
  import opened SocketSafety
  import opened SocketRuns
  import opened SocketTheorems

  // ----- Start, time, and the cache --------------------------------------------------------

  /** At the start there are 32768 descriptors, none of them in use, 30000 free cache slots, and nothing
      is being asked. */
  lemma StartsEmpty(now: int)
    ensures var st := Init(now);
            && |st.list| == |st.corpses| == |st.revents| == |st.wevents| == 32768 && |st.cache| == 30000
            && (forall i :: 0 <= i < 32768 ==>
                  st.list[i] == null && st.corpses[i] == null && st.revents[i] == null && st.wevents[i] == null)
            && (forall i :: 0 <= i < 30000 ==> st.cache[i] == None)
            && st.socks == map[] && st.lookups == map[] && st.active == 0 && st.now == now
            && st.env.queries == multiset{} && st.env.forward == 0
  {
  }

  /** The clock, the cleaning of the cache, and a forward query that is accepted: each touches only what
      it is about, and the cleaning goes by the time it is done at. */
  lemma ElsewhereOutcomes(cmp: Comparison, st: State, now: int)
    requires Shaped(st)
    ensures Apply(cmp, st, Tick(now)) == st.(now := now)
    ensures var st' := Apply(cmp, st, CleanCache);
            && st' == st.(cache := st'.cache) && |st'.cache| == |st.cache|
            && forall i :: 0 <= i < |st.cache| ==>
                 st'.cache[i] == if st.cache[i].Some? && st.cache[i].value.expiry <= st.now then None else st.cache[i]
    ensures Apply(cmp, st, ForwardLookup(true)) ==
            st.(active := st.active + 1, env := st.env.(forward := st.env.forward + 1))
    ensures Apply(cmp, st, ForwardLookup(false)) == st
  {
    forall i | 0 <= i < |st.cache|
      ensures Sweep(st.cache, st.now)[i] ==
              if st.cache[i].Some? && st.cache[i].value.expiry <= st.now then None else st.cache[i]
    {
      SweepOutcome(st.cache, st.now, i);
    }
    hide Sweep;
  }

  // ----- Opening ---------------------------------------------------------------------------

  /** A new socket is listed at its descriptor, has just sent and received, waits for no lookup and is
      in no mux table; if it is connecting, its time starts now. */
  lemma OpeningLists(cmp: Comparison, st: State, step: Step)
    requires step.Open? && Enabled(st, step) && Defined(st, step)
    ensures var st', m, s := Apply(cmp, st, step), step.m, Apply(cmp, st, step).socks[step.m];
            && st' == st.(socks := st.socks[m := s], lookups := st.lookups[m := Lookup(false, None, None, 0)],
                          list := st.list[step.fd := m], env := st.env.(issued := st.env.issued[m := 0]))
            && s.fd == step.fd && s.kind == step.kind && s.allowIdle == step.allowIdle && s.remoteHost == step.host
            && s.flags.connected == step.connected && s.flags.ready == step.ready && s.flags.waitConn == step.waitConn
            && !s.flags.waitIdent && !s.flags.muxActive && !s.flags.waitDestroy
            && s.lastSend == s.lastRecv == st.now && s.connTo == step.connTo
            && (step.waitConn ==> s.connStart == st.now)
  {
  }

  // ----- The mux ---------------------------------------------------------------------------

  /** Joining: both event slots of the descriptor hold the socket and it is marked active, and nothing
      else differs. */
  lemma JoiningSetsBoth(cmp: Comparison, st: State, m: MSocket)
    requires Enabled(st, AddToMux(m)) && Defined(st, AddToMux(m))
    ensures var st', s := Apply(cmp, st, AddToMux(m)), st.socks[m];
            && st'.revents[s.fd] == m && st'.wevents[s.fd] == m && st'.socks[m].flags.muxActive
            && st' == st.(socks := st.socks[m := s.(flags := s.flags.(muxActive := true))],
                          revents := st.revents[s.fd := m], wevents := st.wevents[s.fd := m])
  {
  }

  /** Leaving: both event slots of the descriptor are empty and the socket that was in them is not
      active any more, and nothing else differs. */
  lemma LeavingClearsBoth(cmp: Comparison, st: State, fd: int)
    requires TablesOk(st) && Defined(st, RemoveFromMux(fd))
    ensures fd < HIGHSOCK
    ensures var st' := Apply(cmp, st, RemoveFromMux(fd));
            && (fd < 0 || st.revents[fd] == null ==> st' == st)
            && (fd >= 0 && st.revents[fd] != null ==>
                  var m := st.revents[fd];
                  && m in st.socks && st'.revents[fd] == null && st'.wevents[fd] == null
                  && st' == st.(socks := st.socks[m := st.socks[m].(flags :=
                                                    st.socks[m].flags.(muxActive := false))],
                                revents := st.revents[fd := null], wevents := st.wevents[fd := null]))
  {
    if fd >= 0 { SlotsAreOk(st, fd); }
    hide TablesOk;
  }

  // ----- Destroying ------------------------------------------------------------------------

  /** What becomes of the socket itself: freed if it waits for nothing, and else kept as a corpse. */
  predicate FreedOrKept(st: State, st': State, m: MSocket)
    requires Has(st, m)
  {
    var s := st.socks[m];
    if st.lookups[m].waiting then
      && st'.lookups == st.lookups
      && st'.socks == st.socks[m := s.(flags := Flags(false, false, false, false, true, s.flags.waitConn))]
    else
      && st'.lookups == st.lookups - {m}
      && st'.socks == st.socks - {m}
  }

  lemma QuietSlots(st: State, m: MSocket)
    requires TablesOk(st) && m in st.socks
    ensures Listed(st) && AtFd(st, m) && !st.socks[m].flags.waitIdent
    ensures st.socks[m].flags.waitDestroy ==> !st.socks[m].flags.muxActive
    ensures !st.socks[m].flags.muxActive && !st.socks[m].flags.waitDestroy ==>
              st.revents[st.socks[m].fd] == null && st.wevents[st.socks[m].fd] == null
    ensures st.socks[m].flags.muxActive ==>
              && st.list[st.socks[m].fd] == m
              && st.revents[st.socks[m].fd] == m && st.wevents[st.socks[m].fd] == m
  {
    TablesMeanFds(st);
    assert SockOk(st, m) && SlotOk(st, st.socks[m].fd);
  }

  /** Destroying a listed socket takes it out of the list and both event slots.  It is freed if it
      waits for nothing, and else becomes the corpse of its descriptor, neither connected nor ready. */
  lemma DestroyUnlists(cmp: Comparison, st: State, m: MSocket)
    requires TablesOk(st) && Defined(st, DestroySocket(m)) && m in st.socks && !st.socks[m].flags.waitDestroy
    ensures AtFd(st, m)
    ensures var st', fd := Apply(cmp, st, DestroySocket(m)), st.socks[m].fd;
            && FreedOrKept(st, st', m)
            && st' == st.(socks := st'.socks, lookups := st'.lookups, list := st.list[fd := null],
                          corpses := if st.lookups[m].waiting then st.corpses[fd := m] else st.corpses,
                          revents := st.revents[fd := null], wevents := st.wevents[fd := null])
  {
    DestroyIsApplied(cmp, st, m);
    hide Apply, Defined;
    ListedDestroy(st, m);
  }

  lemma ActiveLeaves(st: State, m: MSocket)
    requires TablesOk(st) && Listed(st) && AtFd(st, m) && st.socks[m].flags.muxActive
    ensures var s := st.socks[m];
            RemFd(st, s.fd) == st.(socks := st.socks[m := WithFlags(s, s.flags.(muxActive := false))],
                                   revents := st.revents[s.fd := null], wevents := st.wevents[s.fd := null])
  {
    QuietSlots(st, m);
    hide TablesOk, Listed;
  }

  lemma ListedDismantle(st: State, m: MSocket)
    requires Shaped(st) && AtFd(st, m) && !st.socks[m].flags.waitDestroy && !st.socks[m].flags.waitIdent
    ensures var st', s := Dismantle(st, m), st.socks[m];
            && (!st.lookups[m].waiting ==> st'.lookups == st.lookups - {m} && st'.socks == st.socks - {m})
            && (st.lookups[m].waiting ==>
                  && st'.lookups == st.lookups
                  && st'.socks == st.socks[m := s.(flags := Flags(false, false, false, s.flags.muxActive, true,
                                                                  s.flags.waitConn))])
            && st' == st.(socks := st'.socks, lookups := st'.lookups, list := st.list[s.fd := null],
                          corpses := if st.lookups[m].waiting then st.corpses[s.fd := m] else st.corpses)
  {
  }

  lemma ListedDestroy(st: State, m: MSocket)
    requires TablesOk(st) && Listed(st) && AtFd(st, m) && !st.socks[m].flags.waitDestroy
    ensures var st', fd := Destroy(st, m), st.socks[m].fd;
            && FreedOrKept(st, st', m)
            && st' == st.(socks := st'.socks, lookups := st'.lookups, list := st.list[fd := null],
                          corpses := if st.lookups[m].waiting then st.corpses[fd := m] else st.corpses,
                          revents := st.revents[fd := null], wevents := st.wevents[fd := null])
  {
    QuietSlots(st, m);
    var s, fd := st.socks[m], st.socks[m].fd;
    if s.flags.muxActive {
      ActiveLeaves(st, m);
    }
    hide TablesOk, Listed, RemFd, Dismantle;
    var st1 := if s.flags.muxActive then RemFd(st, fd) else st;
    ListedDismantle(st1, m);
    assert st1.socks - {m} == st.socks - {m};
    assert st1.revents == st.revents[fd := null] && st1.wevents == st.wevents[fd := null];
  }

  /** Destroying a corpse again frees it and empties its slot if it waits for nothing any more, and
      else puts it back into its slot. */
  lemma DestroyRevisits(cmp: Comparison, st: State, m: MSocket)
    requires TablesOk(st) && Defined(st, DestroySocket(m)) && m in st.socks && st.socks[m].flags.waitDestroy
    ensures AtFd(st, m)
    ensures var st', fd := Apply(cmp, st, DestroySocket(m)), st.socks[m].fd;
            st' == if st.lookups[m].waiting then st.(corpses := st.corpses[fd := m])
                   else st.(socks := st.socks - {m}, lookups := st.lookups - {m}, corpses := st.corpses[fd := null])
  {
    DestroyIsApplied(cmp, st, m);
    hide Apply, Defined;
    CorpseDestroy(st, m);
  }

  lemma CorpseDestroy(st: State, m: MSocket)
    requires TablesOk(st) && Listed(st) && AtFd(st, m) && st.socks[m].flags.waitDestroy
    ensures var fd := st.socks[m].fd;
            Destroy(st, m) ==
            if st.lookups[m].waiting then st.(corpses := st.corpses[fd := m])
            else st.(socks := st.socks - {m}, lookups := st.lookups - {m}, corpses := st.corpses[fd := null])
  {
    QuietSlots(st, m);
    hide TablesOk, Listed;
  }

  /** The time of a flush that got something out. */
  function Noted(st: State, m: MSocket, sent: bool): State
    requires m in st.socks
  {
    var s := st.socks[m];
    st.(socks := st.socks[m := s.(lastSend := if sent then st.now else s.lastSend)])
  }

  /** Closing refuses a corpse.  Any other socket is destroyed, after its queue was flushed: if that
      got something out, the time of it is noted first. */
  lemma CloseFlushesAndDestroys(cmp: Comparison, st: State, m: MSocket, sent: bool)
    requires TablesOk(st) && Defined(st, CloseSocket(m, sent)) && m in st.socks
    ensures var st' := Apply(cmp, st, CloseSocket(m, sent));
            && (st.socks[m].flags.waitDestroy ==> st' == st)
            && (!st.socks[m].flags.waitDestroy ==>
                  && Defined(Noted(st, m, sent), DestroySocket(m))
                  && st' == Apply(cmp, Noted(st, m, sent), DestroySocket(m)))
  {
    CloseIsApplied(cmp, st, m, sent);
    hide Apply, Defined;
    if !st.socks[m].flags.waitDestroy {
      var st1 := Noted(st, m, sent);
      NotedIsListed(st, m, sent);
      assert Defined(st1, DestroySocket(m)) by { DestroyIsDefined(st1, m); }
      DestroyIsApplied(cmp, st1, m);
      if st.socks[m].flags.muxActive {
        ActiveClose(st, m, sent);
      } else {
        QuietClose(st, m, sent);
      }
    }
  }

  lemma DestroyIsDefined(st: State, m: MSocket)
    requires Shaped(st) && Listed(st) && AtFd(st, m)
    ensures Defined(st, DestroySocket(m))
  {
    hide Listed;
  }

  lemma NotedIsListed(st: State, m: MSocket, sent: bool)
    requires TablesOk(st) && m in st.socks
    ensures var st1 := Noted(st, m, sent); TablesOk(st1) && Shaped(st1) && Listed(st1) && AtFd(st1, m)
  {
    var s := st.socks[m];
    hide TablesOk, Listed, AtFd;
    TouchKeepsTables(st, m, s.(lastSend := if sent then st.now else s.lastSend));
    TablesMeanFds(Noted(st, m, sent));
    SocketsHaveBoth(Noted(st, m, sent));
  }

  lemma FlushIsNoted(st: State, m: MSocket, sent: bool)
    requires m in st.socks
    ensures AfterWrite(st, m, sent) == Noted(st, m, sent)
  {
    if !sent { assert st.socks[m := st.socks[m]] == st.socks; }
  }

  lemma QuietClose(st: State, m: MSocket, sent: bool)
    requires Shaped(st) && Listed(st) && AtFd(st, m) && !st.socks[m].flags.waitDestroy && !st.socks[m].flags.muxActive
    requires Listed(Noted(st, m, sent))
    ensures Close(st, m, sent) == Destroy(Noted(st, m, sent), m)
  {
    FlushIsNoted(st, m, sent);
    hide Listed, Destroy, Noted, AfterWrite;
  }

  lemma ActiveClose(st: State, m: MSocket, sent: bool)
    requires TablesOk(st) && Listed(st) && AtFd(st, m) && !st.socks[m].flags.waitDestroy && st.socks[m].flags.muxActive
    requires TablesOk(Noted(st, m, sent)) && Listed(Noted(st, m, sent)) && AtFd(Noted(st, m, sent), m)
    ensures Close(st, m, sent) == Destroy(Noted(st, m, sent), m)
  {
    QuietSlots(st, m);
    ActiveLeaves(st, m);
    ActiveLeaves(Noted(st, m, sent), m);
    var st1 := RemFd(st, st.socks[m].fd);
    FlushIsNoted(st1, m, sent);
    RemFdKeepsTables(st, st.socks[m].fd);
    NotedIsListed(st1, m, sent);
    hide TablesOk, Listed, RemFd, Dismantle, AfterWrite;
    var st2 := Noted(st1, m, sent);
    assert st2.socks == RemFd(Noted(st, m, sent), st.socks[m].fd).socks;
    assert Destroy(st2, m) == Dismantle(st2, m);
  }

  // ----- Events ----------------------------------------------------------------------------

  /** A connected stream whose peer went away is destroyed, for one that received something the time is
      noted, and for other sockets nothing happens. */
  lemma ReadableOutcome(cmp: Comparison, st: State, fd: int, gone: bool)
    requires TablesOk(st) && Defined(st, Readable(fd, gone)) && 0 <= fd < HIGHSOCK
    ensures var m := st.revents[fd];
            && m != null && Has(st, m) && st.list[fd] == m && Defined(st, DestroySocket(m))
            && var s, st' := st.socks[m], Apply(cmp, st, Readable(fd, gone));
               st' == if (s.kind != Stream4 && s.kind != Stream6) || !s.flags.connected then st
                      else if gone then Apply(cmp, st, DestroySocket(m))
                      else st.(socks := st.socks[m := s.(lastRecv := st.now)])
  {
    EventsAreOwned(st, fd);
    SlotsAreOk(st, fd);
    TablesMeanFds(st);
    hide TablesOk, Destroy, Listed;
  }

  /** A writable socket is connected, waits for no connection any more, and notes the time if its queue
      got something out. */
  lemma WritableOutcome(cmp: Comparison, st: State, fd: int, sent: bool)
    requires Defined(st, Writable(fd, sent)) && 0 <= fd < HIGHSOCK
    ensures var m := st.wevents[fd];
            && m != null && m in st.socks
            && var s, st' := st.socks[m], Apply(cmp, st, Writable(fd, sent));
               && m in st'.socks && st'.socks[m].flags.connected && !st'.socks[m].flags.waitConn
               && st'.socks[m].lastSend == (if sent then st.now else s.lastSend)
               && st' == st.(socks := st.socks[m := s.(flags := st'.socks[m].flags, lastSend := st'.socks[m].lastSend)])
               && st'.socks[m].flags == s.flags.(connected := true, waitConn := false)
  {
  }
}
