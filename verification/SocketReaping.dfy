/** Which listed sockets housekeeping reaps, how many it says there were, and what it leaves of each,
    told by the state before it and by the times and limits written out. */
module SocketReaping {
  import opened Common
  import opened DnsCache
  import opened SocketModel
  import opened SocketSafety
  import opened SocketRuns
  import opened SocketTheorems
  import opened SocketCorpses
  import opened SocketOutcomes

  // ----- When a socket is due --------------------------------------------------------------

  /** Its connection attempt took too long. */
  predicate ConnectOverdue(s: Sock, now: int) {
    s.flags.waitConn && s.connStart + s.connTo < now
  }

  predicate Listens(s: Sock) {
    s.kind == Listen4 || s.kind == Listen6 || s.kind == LocalListen
  }

  /** Neither sent nor received anything for an hour, if it is a local client, or else for ten minutes. */
  predicate Silent(s: Sock, now: int) {
    if s.kind == LocalClient then now - s.lastRecv >= 3600 && now - s.lastSend >= 3600
    else now - s.lastRecv >= 600 && now - s.lastSend >= 600
  }

  predicate Due(s: Sock, now: int) {
    ConnectOverdue(s, now) || (!Listens(s) && !s.allowIdle && Silent(s, now))
  }

  /** The round at i looks at the listed socket there: there is no corpse, or the listed socket waits. */
  predicate LooksAt(st: State, i: nat)
    requires Shaped(st) && i < HIGHSOCK
  {
    && st.list[i] != null && Has(st, st.list[i])
    && (st.corpses[i] == null || st.lookups[st.list[i]].waiting)
  }

  /** What a round leaves of the socket l listed at i. */
  predicate Treated(st: State, st': State, i: nat, l: MSocket, sent: set<int>)
    requires Shaped(st) && Shaped(st') && i < HIGHSOCK && st.list[i] == l && Has(st, l)
  {
    var s, d := st.socks[l], st.lookups[l];
    if LooksAt(st, i) && Due(s, st.now) then
      && st'.list[i] == null
      && (l in st'.socks <==> d.waiting)
      && (d.waiting ==> st'.corpses[i] == l && Has(st', l) && st'.socks[l].flags.waitDestroy)
    else
      && st'.list[i] == l && Has(st', l) && st'.lookups[l] == d
      && var flushed := LooksAt(st, i) && i in sent && !Listens(s) && !s.allowIdle;
         st'.socks[l] == s.(lastSend := if flushed then st.now else s.lastSend)
  }

  // ----- One round -------------------------------------------------------------------------

  lemma ModelAgrees(s: Sock, now: int)
    ensures (TimedOut(s, now) || Idle(s, now)) == Due(s, now) && IsListener(s.kind) == Listens(s)
  {
  }

  /** Destroying the corpse of a descriptor leaves the socket listed there alone. */
  lemma CorpseGoes(st: State, i: nat, c: MSocket, l: MSocket)
    requires TablesOk(st) && Listed(st) && AtFd(st, c) && i < HIGHSOCK
    requires st.corpses[i] == c && st.list[i] == l
    ensures Has(st, l)
    ensures var st' := Destroy(st, c); Shaped(st') && st'.list[i] == l && Spared(st, st', l)
  {
    SlotsAreOk(st, i);
    SocketsHaveBoth(st);
    hide TablesOk;
    CorpseDestroy(st, c);
  }

  lemma ListedGoes(st: State, i: nat, l: MSocket)
    requires TablesOk(st) && Listed(st) && AtFd(st, l) && i < HIGHSOCK && st.list[i] == l
    ensures var st' := Destroy(st, l);
            && Shaped(st') && st'.list[i] == null && (l in st'.socks <==> st.lookups[l].waiting)
            && (st.lookups[l].waiting ==> st'.corpses[i] == l && Has(st', l) && st'.socks[l].flags.waitDestroy)
  {
    SlotsAreOk(st, i);
    hide TablesOk, Listed;
    ListedDestroy(st, l);
    hide Destroy;
  }

  lemma RoundTreats(st: State, i: nat, l: MSocket, sent: set<int>)
    requires TablesOk(st) && Fds(st) && i < HIGHSOCK && ReadsAreDefined(st, i) && st.list[i] == l
    ensures Has(st, l) && Shaped(HouseAt(st, i, sent)) && Treated(st, HouseAt(st, i, sent), i, l, sent)
  {
    SlotsAreOk(st, i);
    SocketsHaveBoth(st);
    QuietSlots(st, l);
    ModelAgrees(st.socks[l], st.now);
    hide TablesOk, Listed, Destroy, TimedOut, Idle, Due, IsListener, Listens;
    if st.corpses[i] != null && !st.lookups[l].waiting {
      CorpseGoes(st, i, st.corpses[i], l);
    } else if Due(st.socks[l], st.now) {
      ListedGoes(st, i, l);
    }
  }

  // ----- All rounds ------------------------------------------------------------------------

  /** The two states agree about the slots of descriptor i and the socket l listed there. */
  predicate SameAt(st: State, st': State, i: nat, l: MSocket)
    requires Shaped(st) && Shaped(st') && i < HIGHSOCK
  {
    st'.list[i] == st.list[i] && st'.corpses[i] == st.corpses[i] && Spared(st, st', l) && st'.now == st.now
  }

  lemma TreatedFrom(st: State, st': State, st'': State, i: nat, l: MSocket, sent: set<int>)
    requires Shaped(st) && Shaped(st') && Shaped(st'') && i < HIGHSOCK && st.list[i] == l
    requires Has(st, l) && SameAt(st, st', i, l) && Treated(st', st'', i, l, sent)
    ensures Treated(st, st'', i, l, sent)
  {
  }

  lemma TreatedUntil(st: State, st': State, st'': State, i: nat, l: MSocket, sent: set<int>)
    requires Shaped(st) && Shaped(st') && Shaped(st'') && i < HIGHSOCK && st.list[i] == l && Has(st, l)
    requires st''.list[i] == st'.list[i] && st''.corpses[i] == st'.corpses[i]
    requires if l in st'.socks then Spared(st', st'', l) else l !in st''.socks
    requires Treated(st, st', i, l, sent)
    ensures Treated(st, st'', i, l, sent)
  {
    hide Due, Listens;
  }

  /** Rounds after i leave the slots of i alone. */
  lemma {:induction false} LaterSlots(st: State, k: nat, i: nat, sent: set<int>)
    requires TablesOk(st) && i < k <= HIGHSOCK && ReadsAreDefinedFrom(st, k)
    ensures var st' := HouseFrom(st, k, sent);
            Shaped(st') && st'.list[i] == st.list[i] && st'.corpses[i] == st.corpses[i]
    decreases HIGHSOCK - k
  {
    TablesMeanFds(st);
    hide HouseAt, TablesOk, Fds, ReadsAreDefined;
    if k < HIGHSOCK {
      assert ReadsAreDefined(st, k);
      HouseAtKeepsTables(st, k, sent);
      HouseAtKeepsReads(st, k, sent);
      HouseAtIsLocal(st, k, sent, i);
      LaterSlots(HouseAt(st, k, sent), k + 1, i, sent);
    }
  }

  /** And a socket of that descriptor. */
  lemma {:induction false} LaterRounds(st: State, k: nat, sent: set<int>, i: nat, l: MSocket)
    requires TablesOk(st) && i < k <= HIGHSOCK && ReadsAreDefinedFrom(st, k)
    requires l in st.socks ==> Has(st, l) && st.socks[l].fd == i
    ensures var st' := HouseFrom(st, k, sent);
            if l in st.socks then Spared(st, st', l) else l !in st'.socks
    decreases HIGHSOCK - k
  {
    TablesMeanFds(st);
    SocketsHaveBoth(st);
    hide HouseAt, TablesOk, Fds, ReadsAreDefined;
    if k < HIGHSOCK {
      assert ReadsAreDefined(st, k);
      var st1 := HouseAt(st, k, sent);
      HouseAtKeepsTables(st, k, sent);
      HouseAtKeepsReads(st, k, sent);
      if l in st.socks {
        RoundSpares(st, k, sent, l);
      } else {
        HouseAtAddsNone(st, k, sent);
      }
      LaterRounds(st1, k + 1, sent, i, l);
    }
  }

  lemma {:induction false} RoundsTreat(st: State, k: nat, sent: set<int>, i: nat, l: MSocket)
    requires TablesOk(st) && k <= i < HIGHSOCK && ReadsAreDefinedFrom(st, k) && st.list[i] == l
    ensures Has(st, l) && Shaped(HouseFrom(st, k, sent)) && Treated(st, HouseFrom(st, k, sent), i, l, sent)
    decreases i - k
  {
    TablesMeanFds(st);
    SocketsHaveBoth(st);
    SlotsHaveFds(st, i);
    assert ReadsAreDefined(st, i) && ReadsAreDefined(st, k);
    hide HouseAt, TablesOk, Fds, ReadsAreDefined, Treated;
    var st1 := HouseAt(st, k, sent);
    HouseAtKeepsTables(st, k, sent);
    HouseAtKeepsReads(st, k, sent);
    if k == i {
      RoundTreats(st, i, l, sent);
      RoundKeepsFd(st, i, sent, l);
      LaterRounds(st1, i + 1, sent, i, l);
      LaterSlots(st1, i + 1, i, sent);
      TreatedUntil(st, st1, HouseFrom(st1, i + 1, sent), i, l, sent);
    } else {
      HouseAtIsLocal(st, k, sent, i);
      RoundSpares(st, k, sent, l);
      HouseAtKeepsNow(st, k, sent);
      RoundsTreat(st1, k + 1, sent, i, l);
      TreatedFrom(st, st1, HouseFrom(st1, k + 1, sent), i, l, sent);
    }
  }

  lemma RoundKeepsFd(st: State, i: nat, sent: set<int>, l: MSocket)
    requires TablesOk(st) && Fds(st) && i < HIGHSOCK && ReadsAreDefined(st, i) && st.list[i] == l
    ensures var st' := HouseAt(st, i, sent); l in st'.socks ==> Has(st', l) && st'.socks[l].fd == i
  {
    SlotsHaveFds(st, i);
    HouseAtKeepsTables(st, i, sent);
    SocketsHaveBoth(HouseAt(st, i, sent));
    hide TablesOk;
  }

  /** Housekeeping reaps a listed socket exactly when its round looks at it and it is due: it is then
      off the list, and freed or, if it waits for an answer, the corpse of its descriptor.  Any other
      listed socket stays as it was, but for the time of a flush. */
  lemma HousekeepingReaps(cmp: Comparison, st: State, sent: set<int>, i: nat, l: MSocket)
    requires Inv(cmp, st) && Defined(st, Housekeeping(sent)) && Shaped(st) && i < HIGHSOCK && st.list[i] == l
    ensures Has(st, l)
    ensures var st' := Apply(cmp, st, Housekeeping(sent));
            && Shaped(st') && Treated(st, st', i, l, sent)
            && (st'.list[i] == null <==> LooksAt(st, i) && Due(st.socks[l], st.now))
  {
    assert TablesOk(st);
    hide Inv, Defined, Apply, TablesOk, HouseFrom, ReadsAreDefinedFrom, LooksAt, Due;
    HousekeepingIsLoop(cmp, st, sent);
    RoundsTreat(st, 0, sent, i, l);
  }

  // ----- How many --------------------------------------------------------------------------

  /** The descriptors from k on whose socket is no longer listed. */
  function Unlisted(st: State, st': State, k: nat): set<int>
    requires Shaped(st) && Shaped(st')
  {
    set j | k <= j < HIGHSOCK && st.list[j] != null && st'.list[j] == null
  }

  lemma ReapsUnlists(st: State, i: nat, sent: set<int>)
    requires TablesOk(st) && Fds(st) && i < HIGHSOCK && ReadsAreDefined(st, i)
    ensures Shaped(HouseAt(st, i, sent))
    ensures Reaps(st, i) <==> st.list[i] != null && HouseAt(st, i, sent).list[i] == null
  {
    HouseAtKeepsTables(st, i, sent);
    if st.list[i] != null {
      SlotsAreOk(st, i);
      SocketsHaveBoth(st);
      QuietSlots(st, st.list[i]);
      RoundTreats(st, i, st.list[i], sent);
      ModelAgrees(st.socks[st.list[i]], st.now);
      hide HouseAt, TablesOk, TimedOut, Idle, Due, Listed;
    }
  }

  lemma UnlistedSplits(st: State, st1: State, st': State, k: nat)
    requires Shaped(st) && Shaped(st1) && Shaped(st') && k < HIGHSOCK && st'.list[k] == st1.list[k]
    requires forall j :: k < j < HIGHSOCK ==> st1.list[j] == st.list[j]
    ensures Unlisted(st, st', k) ==
            (if st.list[k] != null && st1.list[k] == null then {k} else {}) + Unlisted(st1, st', k + 1)
  {
  }

  lemma {:induction false} ReapedAreUnlisted(st: State, k: nat, sent: set<int>)
    requires TablesOk(st) && k <= HIGHSOCK && ReadsAreDefinedFrom(st, k)
    ensures var st' := HouseFrom(st, k, sent); Shaped(st') && ReapedFrom(st, k, sent) == |Unlisted(st, st', k)|
    decreases HIGHSOCK - k
  {
    TablesMeanFds(st);
    SocketsHaveBoth(st);
    if k == HIGHSOCK {
      assert Unlisted(st, st, k) == {};
    } else {
      assert ReadsAreDefined(st, k);
      hide HouseAt, TablesOk, Fds, ReadsAreDefined, Unlisted, Reaps;
      var st1 := HouseAt(st, k, sent);
      HouseAtKeepsTables(st, k, sent);
      HouseAtKeepsReads(st, k, sent);
      ReapsUnlists(st, k, sent);
      ReapedAreUnlisted(st1, k + 1, sent);
      LaterSlots(st1, k + 1, k, sent);
      forall j: nat | k < j < HIGHSOCK ensures st1.list[j] == st.list[j] { HouseAtIsLocal(st, k, sent, j); }
      UnlistedSplits(st, st1, HouseFrom(st1, k + 1, sent), k);
      NotAmong(st1, HouseFrom(st1, k + 1, sent), k);
    }
  }

  lemma NotAmong(st: State, st': State, k: nat)
    requires Shaped(st) && Shaped(st')
    ensures k !in Unlisted(st, st', k + 1)
  {
  }

  /** What housekeeping returns is the number of sockets that left the list, and none joined it. */
  lemma HousekeepingCounts(cmp: Comparison, st: State, sent: set<int>)
    requires Inv(cmp, st) && Defined(st, Housekeeping(sent))
    ensures var st' := Apply(cmp, st, Housekeeping(sent));
            && Shaped(st) && Shaped(st')
            && ReapedFrom(st, 0, sent) == |set j | 0 <= j < HIGHSOCK && st.list[j] != null && st'.list[j] == null|
  {
    assert TablesOk(st);
    hide Inv, Defined, Apply, TablesOk, HouseFrom, ReadsAreDefinedFrom;
    HousekeepingIsLoop(cmp, st, sent);
    ReapedAreUnlisted(st, 0, sent);
  }
}
