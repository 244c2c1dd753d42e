/** Memory safety of the socket life cycle: in every run, on any answers and any descriptors,
    no table and no outstanding query holds a freed socket. */
module SocketSafety {
  import opened Common
  import opened DnsCache
  import opened SocketModel

  /** What the four tables hold at descriptor i: a listed socket is alive and its event, if any,
      is its own; a corpse is a destroyed socket that is still allocated. */
  predicate SlotOk(st: State, i: int)
    requires Shaped(st) && 0 <= i < HIGHSOCK
  {
    var l, c, e := st.list[i], st.corpses[i], st.revents[i];
    && (l != null ==> l in st.socks && st.socks[l].fd == i && !st.socks[l].flags.waitDestroy)
    && (c != null ==> c in st.socks && st.socks[c].fd == i && st.socks[c].flags.waitDestroy)
    && (e != null ==> e == l && st.socks[l].flags.muxActive)
    && st.wevents[i] == e
  }

  /** An allocated socket is listed unless destroyed, and has its event when MUXACTIVE. */
  predicate SockOk(st: State, m: MSocket)
    requires Shaped(st) && m in st.socks
  {
    var s := st.socks[m];
    && 0 <= s.fd < HIGHSOCK
    && (!s.flags.waitDestroy ==> st.list[s.fd] == m)
    && (s.flags.muxActive ==> st.revents[s.fd] == m)
    && !s.flags.waitIdent
  }

  /** The joint invariant of the four tables. */
  ghost predicate TablesOk(st: State) {
    && Shaped(st)
    && st.lookups.Keys == st.socks.Keys
    && (forall i :: 0 <= i < HIGHSOCK ==> SlotOk(st, i))
    && (forall m :: m in st.socks ==> SockOk(st, m))
  }

  lemma TablesMeanFds(st: State)
    requires TablesOk(st)
    ensures Listed(st) && Fds(st)
  {
    forall i | 0 <= i < HIGHSOCK
      ensures st.list[i] != null ==> st.list[i] in st.socks && st.socks[st.list[i]].fd == i
      ensures st.corpses[i] != null ==> st.corpses[i] in st.socks && st.socks[st.corpses[i]].fd == i
    {
      assert SlotOk(st, i);
    }
    forall m | m in st.socks
      ensures AtFd(st, m)
    {
      assert SockOk(st, m);
    }
  }

  // ----- DNS steps leave the life cycle alone ----------------------------------------------

  /** st' differs from st in the lookups' contents, the cache, the counters and the history. */
  ghost predicate OnlyDns(st: State, st': State) {
    && st'.lookups.Keys == st.lookups.Keys
    && st' == st.(lookups := st'.lookups, cache := st'.cache, active := st'.active, env := st'.env)
  }

  lemma FindRevOnlyDns(st: State, m: MSocket, accepted: bool)
    requires Has(st, m)
    ensures OnlyDns(st, FindRev(st, m, accepted))
  {
    hide Find;
  }

  lemma RetryOnlyDns(st: State, m: MSocket, d: Lookup, accepted: bool)
    requires Has(st, m)
    ensures OnlyDns(st, Retry(st, m, d, accepted))
  {
    hide FindRev;
    if d.retries == 0 {
      FindRevOnlyDns(PutDns(st, m, d.(retries := 1)), m, accepted);
    }
  }

  lemma PtrFoundOnlyDns(st: State, m: MSocket, a: Answer, accepted: bool)
    requires Has(st, m)
    ensures OnlyDns(st, PtrFound(st, m, a, accepted))
  {
    hide Find, Add;
  }

  lemma PtrAnswerOnlyDns(st: State, m: MSocket, a: Answer, accepted: bool)
    requires Has(st, m)
    ensures OnlyDns(st, PtrAnswer(st, m, a, accepted))
  {
    hide Retry, PtrFound, Add;
    RetryOnlyDns(st, m, st.lookups[m], accepted);
    PtrFoundOnlyDns(st, m, a, accepted);
  }

  lemma AAnswerOnlyDns(cmp: Comparison, st: State, m: MSocket, a: Answer, accepted: bool)
    requires Has(st, m)
    ensures OnlyDns(st, AAnswer(cmp, st, m, a, accepted))
  {
    hide Retry, Add;
    RetryOnlyDns(st, m, st.lookups[m].(candidate := None), accepted);
  }

  lemma OnlyDnsKeepsTables(st: State, st': State)
    requires TablesOk(st) && OnlyDns(st, st')
    ensures TablesOk(st')
  {
    forall i | 0 <= i < HIGHSOCK ensures SlotOk(st', i) { assert SlotOk(st, i); }
    forall m | m in st'.socks ensures SockOk(st', m) { assert SockOk(st, m); }
  }

  // ----- Life cycle steps keep the tables ---------------------------------------------------

  lemma OpenKeepsTables(st: State, m: MSocket, fd: int, s: Sock, st': State)
    requires TablesOk(st) && m !in st.socks && 0 <= fd < HIGHSOCK && st.list[fd] == null
    requires s.fd == fd && !s.flags.waitDestroy && !s.flags.waitIdent && !s.flags.muxActive
    requires st' == Put(st, m, s).(lookups := st.lookups[m := NO_LOOKUP], list := st.list[fd := m], env := st'.env)
    ensures TablesOk(st')
  {
    forall i | 0 <= i < HIGHSOCK ensures SlotOk(st', i) { assert SlotOk(st, i); }
    forall x | x in st'.socks ensures SockOk(st', x) { if x != m { assert SockOk(st, x); } }
  }

  lemma AddFdKeepsTables(st: State, m: MSocket)
    requires TablesOk(st) && m in st.socks && !st.socks[m].flags.waitDestroy
    requires 0 <= st.socks[m].fd < HIGHSOCK
    ensures TablesOk(AddFd(st, m))
  {
    var st' := AddFd(st, m);
    assert SockOk(st, m) && SlotOk(st, st.socks[m].fd);
    forall i | 0 <= i < HIGHSOCK ensures SlotOk(st', i) { assert SlotOk(st, i); }
    forall x | x in st'.socks ensures SockOk(st', x) { assert SockOk(st, x); }
  }

  lemma RemFdKeepsTables(st: State, fd: int)
    requires TablesOk(st) && fd < HIGHSOCK
    requires 0 <= fd && st.list[fd] != null ==> st.list[fd] in st.socks
    ensures TablesOk(RemFd(st, fd))
  {
    var st' := RemFd(st, fd);
    if fd >= 0 { assert SlotOk(st, fd); }
    forall i | 0 <= i < HIGHSOCK ensures SlotOk(st', i) { assert SlotOk(st, i); }
    forall x | x in st'.socks ensures SockOk(st', x) { assert SockOk(st, x); }
  }

  /** Removing an active socket's descriptor clears its flag, so destroying it afterwards finds
      nothing left to remove. */
  lemma DestroyRemovesFirst(st: State, m: MSocket)
    requires TablesOk(st) && Listed(st) && AtFd(st, m) && st.socks[m].flags.muxActive
    ensures var st1 := RemFd(st, st.socks[m].fd);
            && TablesOk(st1) && Listed(st1) && AtFd(st1, m) && !st1.socks[m].flags.muxActive
            && st1.lookups == st.lookups && st1.socks.Keys == st.socks.Keys
            && Destroy(st, m) == Destroy(st1, m)
  {
    assert SockOk(st, m) && SlotOk(st, st.socks[m].fd);
    RemFdKeepsTables(st, st.socks[m].fd);
    TablesMeanFds(RemFd(st, st.socks[m].fd));
  }

  /** What dismantling a listed socket that is in no mux table does to the tables. */
  lemma DismantleListed(st: State, m: MSocket)
    requires TablesOk(st) && Listed(st) && AtFd(st, m)
    requires !st.socks[m].flags.muxActive && !st.socks[m].flags.waitDestroy
    ensures var st', fd := Destroy(st, m), st.socks[m].fd;
            && st.list[fd] == m && st.revents[fd] == null
            && st'.list == st.list[fd := null] && st'.revents == st.revents && st'.wevents == st.wevents
            && st'.corpses == (if Waiting(st, m) then st.corpses[fd := m] else st.corpses)
            && st'.socks == (if Waiting(st, m) then st.socks[m := Corpse(ShutDown(st.socks[m]))] else st.socks - {m})
            && st'.lookups.Keys == st'.socks.Keys
  {
    assert SockOk(st, m) && SlotOk(st, st.socks[m].fd);
  }

  lemma DestroyListedKeepsTables(st: State, m: MSocket)
    requires TablesOk(st) && Listed(st) && AtFd(st, m)
    requires !st.socks[m].flags.muxActive && !st.socks[m].flags.waitDestroy
    ensures TablesOk(Destroy(st, m))
  {
    DismantleListed(st, m);
    hide Destroy;
    var st' := Destroy(st, m);
    assert SockOk(st, m);
    forall i | 0 <= i < HIGHSOCK ensures SlotOk(st', i) { assert SlotOk(st, i); }
    forall x | x in st'.socks ensures SockOk(st', x) { assert SockOk(st, x); }
  }

  lemma DestroyCorpseKeepsTables(st: State, m: MSocket)
    requires TablesOk(st) && Listed(st) && AtFd(st, m)
    requires !st.socks[m].flags.muxActive && st.socks[m].flags.waitDestroy
    ensures TablesOk(Destroy(st, m))
  {
    var st' := Destroy(st, m);
    assert SockOk(st, m) && SlotOk(st, st.socks[m].fd);
    forall i | 0 <= i < HIGHSOCK ensures SlotOk(st', i) { assert SlotOk(st, i); }
    forall x | x in st'.socks ensures SockOk(st', x) { assert SockOk(st, x); }
  }

  lemma DestroyQuietKeepsTables(st: State, m: MSocket)
    requires TablesOk(st) && Listed(st) && AtFd(st, m) && !st.socks[m].flags.muxActive
    ensures TablesOk(Destroy(st, m))
  {
    hide Destroy, TablesOk;
    if st.socks[m].flags.waitDestroy {
      DestroyCorpseKeepsTables(st, m);
    } else {
      DestroyListedKeepsTables(st, m);
    }
  }

  lemma DestroyKeepsTables(st: State, m: MSocket)
    requires TablesOk(st) && Listed(st) && AtFd(st, m)
    ensures TablesOk(Destroy(st, m))
  {
    if st.socks[m].flags.muxActive {
      DestroyRemovesFirst(st, m);
      DestroyQuietKeepsTables(RemFd(st, st.socks[m].fd), m);
    } else {
      DestroyQuietKeepsTables(st, m);
    }
  }

  /** What a destroy leaves as it was: the resolver's side, and the addresses of survivors. */
  ghost predicate OnlyTables(st: State, st': State) {
    && st' == st.(socks := st'.socks, lookups := st'.lookups, list := st'.list,
                  corpses := st'.corpses, revents := st'.revents, wevents := st'.wevents)
    && (forall x :: x in st'.socks ==> x in st.socks && st'.socks[x].remoteHost == st.socks[x].remoteHost)
  }

  lemma RemFdOnlyTables(st: State, fd: int)
    requires Shaped(st) && fd < HIGHSOCK
    requires 0 <= fd && st.list[fd] != null ==> st.list[fd] in st.socks
    ensures OnlyTables(st, RemFd(st, fd)) && RemFd(st, fd).lookups == st.lookups
  {
  }

  lemma DestroyQuietFrees(st: State, m: MSocket)
    requires Shaped(st) && Listed(st) && AtFd(st, m) && !st.socks[m].flags.muxActive
    ensures OnlyTables(st, Destroy(st, m))
    ensures Destroy(st, m).lookups == (if Waiting(st, m) then st.lookups else st.lookups - {m})
  {
  }

  /** Destroying a socket frees it exactly when it waits for nothing, and touches no lookup. */
  lemma DestroyFrees(st: State, m: MSocket)
    requires TablesOk(st) && Listed(st) && AtFd(st, m)
    ensures OnlyTables(st, Destroy(st, m))
    ensures Destroy(st, m).lookups == (if Waiting(st, m) then st.lookups else st.lookups - {m})
  {
    if st.socks[m].flags.muxActive {
      var st1 := RemFd(st, st.socks[m].fd);
      DestroyRemovesFirst(st, m);
      RemFdOnlyTables(st, st.socks[m].fd);
      hide Destroy, RemFd;
      DestroyQuietFrees(st1, m);
      assert st1.socks[m].flags.waitIdent == st.socks[m].flags.waitIdent by {
        assert SockOk(st, m) && SockOk(st1, m);
      }
    } else {
      hide Destroy;
      DestroyQuietFrees(st, m);
    }
  }
}
