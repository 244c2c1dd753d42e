/** What housekeeping achieves for destroyed sockets that waited for an answer, and how the corpse
    table loses them. */
module SocketCorpses {
  import opened Common
  import opened DnsCache
  import opened SocketModel
  import opened SocketSafety
  import opened SocketRuns
  import opened SocketTheorems
  import opened SocketDepartures

  // ----- What one destroy does to other sockets --------------------------------------------

  /** Nothing about x differs. */
  predicate Spared(st: State, st': State, x: MSocket) {
    Has(st, x) && Has(st', x) && st'.socks[x] == st.socks[x] && st'.lookups[x] == st.lookups[x]
  }

  lemma DismantleSpares(st: State, m: MSocket, x: MSocket)
    requires Shaped(st) && AtFd(st, m) && Has(st, x) && x != m
    ensures Spared(st, Dismantle(st, m), x)
  {
  }

  lemma DestroySpares(st: State, m: MSocket, x: MSocket)
    requires Shaped(st) && Listed(st) && AtFd(st, m) && Has(st, x) && st.socks[x].fd != st.socks[m].fd
    ensures Spared(st, Destroy(st, m), x)
  {
    DismantleSpares(if st.socks[m].flags.muxActive then RemFd(st, st.socks[m].fd) else st, m, x);
    hide Dismantle;
  }

  /** A round at i leaves the sockets of other descriptors alone. */
  lemma RoundSpares(st: State, i: nat, sent: set<int>, x: MSocket)
    requires Shaped(st) && Fds(st) && i < HIGHSOCK && ReadsAreDefined(st, i) && Has(st, x) && st.socks[x].fd != i
    ensures Spared(st, HouseAt(st, i, sent), x)
  {
    hide Destroy;
    if st.list[i] != null { DestroySpares(st, st.list[i], x); }
    if st.corpses[i] != null { DestroySpares(st, st.corpses[i], x); }
  }

  lemma HouseAtKeepsNow(st: State, i: nat, sent: set<int>)
    requires Shaped(st) && Fds(st) && i < HIGHSOCK && ReadsAreDefined(st, i)
    ensures HouseAt(st, i, sent).now == st.now
  {
  }

  // ----- After housekeeping ----------------------------------------------------------------

  /** A corpse at i still waits, or a socket that does is listed there. */
  predicate SlotTidy(st: State, i: nat)
    requires Shaped(st) && i < HIGHSOCK
  {
    st.corpses[i] != null ==>
      && Has(st, st.corpses[i])
      && (Waiting(st, st.corpses[i]) || (st.list[i] != null && Has(st, st.list[i]) && Waiting(st, st.list[i])))
  }

  /** What destroying the corpse or the listed socket of a descriptor leaves in its two slots. */
  lemma DestroySlots(st: State, m: MSocket)
    requires TablesOk(st) && Listed(st) && AtFd(st, m)
    ensures var st', fd := Destroy(st, m), st.socks[m].fd;
            && Shaped(st') && (m in st'.socks <==> Waiting(st, m))
            && (Waiting(st, m) ==> st'.corpses[fd] == m && Has(st', m) && Waiting(st', m))
            && (!Waiting(st, m) && st.socks[m].flags.waitDestroy ==> st'.corpses[fd] == null)
            && (!Waiting(st, m) && !st.socks[m].flags.waitDestroy ==> st'.corpses[fd] == st.corpses[fd])
  {
    if st.socks[m].flags.muxActive {
      DestroyRemovesFirst(st, m);
      assert SockOk(st, m) && SockOk(RemFd(st, st.socks[m].fd), m);
    }
  }

  lemma RoundTidies(st: State, i: nat, sent: set<int>)
    requires TablesOk(st) && Fds(st) && i < HIGHSOCK && ReadsAreDefined(st, i)
    ensures Shaped(HouseAt(st, i, sent)) && SlotTidy(HouseAt(st, i, sent), i)
  {
    SlotsAreOk(st, i);
    var c, l := st.corpses[i], st.list[i];
    if c != null { DestroySlots(st, c); }
    if l != null { DestroySlots(st, l); }
    HouseAtKeepsTables(st, i, sent);
    hide Destroy, TablesOk;
    SocketsHaveBoth(st);
  }

  lemma RoundKeepsTidy(st: State, i: nat, sent: set<int>, j: nat)
    requires TablesOk(st) && Fds(st) && i < HIGHSOCK && ReadsAreDefined(st, i) && j < HIGHSOCK && j != i
    requires SlotTidy(st, j)
    ensures Shaped(HouseAt(st, i, sent)) && SlotTidy(HouseAt(st, i, sent), j)
  {
    SlotsAreOk(st, j);
    SocketsHaveBoth(st);
    HouseAtIsLocal(st, i, sent, j);
    hide HouseAt, TablesOk;
    if st.corpses[j] != null { RoundSpares(st, i, sent, st.corpses[j]); }
    if st.list[j] != null { RoundSpares(st, i, sent, st.list[j]); }
  }

  /** After housekeeping, a corpse left in the table still waits for its query, or sits under a
      listed socket that waits for one. */
  lemma {:induction false} HousekeepingTidies(st: State, i: nat, sent: set<int>)
    requires TablesOk(st) && i <= HIGHSOCK && ReadsAreDefinedFrom(st, i)
    requires forall j: nat :: j < i ==> SlotTidy(st, j)
    ensures var st' := HouseFrom(st, i, sent); Shaped(st') && forall j: nat :: j < HIGHSOCK ==> SlotTidy(st', j)
    decreases HIGHSOCK - i
  {
    TablesMeanFds(st);
    hide HouseAt, TablesOk, Fds, ReadsAreDefined, SlotTidy;
    if i < HIGHSOCK {
      assert ReadsAreDefined(st, i);
      HouseAtKeepsTables(st, i, sent);
      HouseAtKeepsReads(st, i, sent);
      RoundTidies(st, i, sent);
      forall j: nat | j < i ensures SlotTidy(HouseAt(st, i, sent), j) { RoundKeepsTidy(st, i, sent, j); }
      HousekeepingTidies(HouseAt(st, i, sent), i + 1, sent);
    }
  }

  lemma {:induction false} LaterRoundsSpare(st: State, i: nat, sent: set<int>, x: MSocket)
    requires TablesOk(st) && i <= HIGHSOCK && ReadsAreDefinedFrom(st, i) && Has(st, x) && st.socks[x].fd < i
    ensures x in HouseFrom(st, i, sent).socks
    decreases HIGHSOCK - i
  {
    TablesMeanFds(st);
    hide HouseAt, TablesOk, Fds, ReadsAreDefined;
    if i < HIGHSOCK {
      assert ReadsAreDefined(st, i);
      HouseAtKeepsTables(st, i, sent);
      HouseAtKeepsReads(st, i, sent);
      RoundSpares(st, i, sent, x);
      LaterRoundsSpare(HouseAt(st, i, sent), i + 1, sent, x);
    }
  }

  /** Its own round frees a corpse that waits for nothing exactly when the socket listed above it
      does not wait. */
  lemma OwnRound(st: State, i: nat, sent: set<int>)
    requires TablesOk(st) && Fds(st) && i < HIGHSOCK && ReadsAreDefined(st, i)
    requires st.corpses[i] != null && st.list[i] != null
    requires Has(st, st.corpses[i]) && Has(st, st.list[i]) && !Waiting(st, st.corpses[i])
    ensures var c, st' := st.corpses[i], HouseAt(st, i, sent);
            && (c in st'.socks <==> Waiting(st, st.list[i]))
            && (c in st'.socks ==> Has(st', c) && st'.socks[c].fd == i)
  {
    var c, l := st.corpses[i], st.list[i];
    SlotsAreOk(st, i);
    DestroySlots(st, c);
    DestroyKeepsTables(st, l);
    DestroyLeavesOthers(st, l, c);
    hide Destroy, TablesOk;
  }

  lemma DestroyLeavesOthers(st: State, m: MSocket, x: MSocket)
    requires TablesOk(st) && Listed(st) && AtFd(st, m) && Has(st, x) && x != m
    ensures var st' := Destroy(st, m); Has(st', x) && st'.socks[x].fd == st.socks[x].fd
    ensures Destroy(st, m).socks[x].flags.waitDestroy == st.socks[x].flags.waitDestroy
  {
    DismantleSpares(if st.socks[m].flags.muxActive then RemFd(st, st.socks[m].fd) else st, m, x);
    hide Dismantle;
  }

  lemma {:induction false} FinishedCorpseFrom(st: State, k: nat, sent: set<int>, i: nat)
    requires TablesOk(st) && k <= i < HIGHSOCK && ReadsAreDefinedFrom(st, k) && st.corpses[i] != null
    requires Has(st, st.corpses[i]) && !Waiting(st, st.corpses[i])
    ensures st.list[i] != null && Has(st, st.list[i])
    ensures st.corpses[i] in HouseFrom(st, k, sent).socks <==> Waiting(st, st.list[i])
    decreases i - k
  {
    TablesMeanFds(st);
    SocketsHaveBoth(st);
    SlotsAreOk(st, i);
    assert ReadsAreDefined(st, i) && ReadsAreDefined(st, k);
    hide HouseAt, TablesOk, Fds, ReadsAreDefined, SlotOk;
    HouseAtKeepsTables(st, k, sent);
    HouseAtKeepsReads(st, k, sent);
    var st', c := HouseAt(st, k, sent), st.corpses[i];
    if k == i {
      OwnRound(st, i, sent);
      if c in st'.socks {
        LaterRoundsSpare(st', i + 1, sent, c);
      } else {
        GoneStaysGone(st', i + 1, sent, c);
      }
    } else {
      HouseAtIsLocal(st, k, sent, i);
      SlotsHaveFds(st, i);
      RoundSpares(st, k, sent, c);
      RoundSpares(st, k, sent, st.list[i]);
      FinishedCorpseFrom(st', k + 1, sent, i);
    }
  }

  lemma SlotsHaveFds(st: State, i: nat)
    requires TablesOk(st) && i < HIGHSOCK
    ensures st.corpses[i] != null ==> Has(st, st.corpses[i]) && st.socks[st.corpses[i]].fd == i
    ensures st.list[i] != null ==> Has(st, st.list[i]) && st.socks[st.list[i]].fd == i
  {
    assert SlotOk(st, i);
  }

  lemma DestroyAddsNone(st: State, m: MSocket)
    requires Shaped(st) && Listed(st) && AtFd(st, m)
    ensures Destroy(st, m).socks.Keys <= st.socks.Keys
  {
  }

  lemma HouseAtAddsNone(st: State, i: nat, sent: set<int>)
    requires Shaped(st) && Fds(st) && i < HIGHSOCK && ReadsAreDefined(st, i)
    ensures HouseAt(st, i, sent).socks.Keys <= st.socks.Keys
  {
    hide Destroy;
    if st.list[i] != null { DestroyAddsNone(st, st.list[i]); }
    if st.corpses[i] != null { DestroyAddsNone(st, st.corpses[i]); }
  }

  lemma {:induction false} GoneStaysGone(st: State, i: nat, sent: set<int>, x: MSocket)
    requires x !in st.socks
    ensures x !in HouseFrom(st, i, sent).socks
    decreases HIGHSOCK - i
  {
    hide HouseAt, Fds, ReadsAreDefined, Shaped;
    if i < HIGHSOCK && Shaped(st) && Fds(st) && ReadsAreDefined(st, i) {
      HouseAtAddsNone(st, i, sent);
      GoneStaysGone(HouseAt(st, i, sent), i + 1, sent, x);
    }
  }

  /** Housekeeping frees a corpse in the table that waits for nothing exactly when the socket listed
      at its descriptor does not wait either: line 508 looks at that one. */
  lemma FinishedCorpseIsFreed(cmp: Comparison, st: State, sent: set<int>, i: nat)
    requires Inv(cmp, st) && Defined(st, Housekeeping(sent)) && Shaped(st) && i < HIGHSOCK && st.corpses[i] != null
    requires Has(st, st.corpses[i]) && !Waiting(st, st.corpses[i])
    ensures st.list[i] != null && Has(st, st.list[i])
    ensures st.corpses[i] !in Apply(cmp, st, Housekeeping(sent)).socks <==> !Waiting(st, st.list[i])
  {
    assert TablesOk(st);
    hide Inv, Defined, Apply, TablesOk, HouseFrom, ReadsAreDefinedFrom;
    HousekeepingIsLoop(cmp, st, sent);
    FinishedCorpseFrom(st, 0, sent, i);
  }

  /** What housekeeping achieves: every corpse that is left in the table still waits, or sits under
      a listed socket that does. */
  lemma HousekeepingLeavesTidy(cmp: Comparison, st: State, sent: set<int>)
    requires Inv(cmp, st) && Defined(st, Housekeeping(sent))
    ensures var st' := Apply(cmp, st, Housekeeping(sent));
            Shaped(st') && forall i: nat :: i < HIGHSOCK ==> SlotTidy(st', i)
  {
    assert TablesOk(st);
    hide Inv, Defined, Apply, TablesOk, HouseFrom, ReadsAreDefinedFrom;
    HousekeepingIsLoop(cmp, st, sent);
    HousekeepingTidies(st, 0, sent);
  }

  // ----- Lost corpses ----------------------------------------------------------------------

  /** A destroyed socket that is still allocated, and that the corpse table does not know. */
  predicate Lost(st: State, c: MSocket) {
    && c in st.socks && st.socks[c].flags.waitDestroy
    && (0 <= st.socks[c].fd < |st.corpses| ==> st.corpses[st.socks[c].fd] != c)
  }

  lemma DestroyTable(st: State, m: MSocket)
    requires TablesOk(st) && Listed(st) && AtFd(st, m)
    ensures var fd := st.socks[m].fd;
            Destroy(st, m).corpses ==
            if Waiting(st, m) then st.corpses[fd := m]
            else if st.socks[m].flags.waitDestroy then st.corpses[fd := null]
            else st.corpses
  {
    if st.socks[m].flags.muxActive {
      DestroyRemovesFirst(st, m);
      assert SockOk(st, m) && SockOk(RemFd(st, st.socks[m].fd), m);
    }
  }

  /** A destroy makes the table lose another corpse exactly when that is at the same descriptor and
      the destroyed socket is parked there, or was itself a corpse and clears the slot. */
  lemma DestroyLoses(st: State, m: MSocket, c: MSocket)
    requires TablesOk(st) && Listed(st) && AtFd(st, m)
    requires c in st.socks && c != m && st.socks[c].flags.waitDestroy
    ensures Lost(Destroy(st, m), c) <==>
            || Lost(st, c)
            || (st.socks[c].fd == st.socks[m].fd && (Waiting(st, m) || st.socks[m].flags.waitDestroy))
  {
    SocketsHaveBoth(st);
    assert AtFd(st, c) by { assert SockOk(st, c); }
    DestroyTable(st, m);
    DestroyLeavesOthers(st, m, c);
    hide Destroy, TablesOk;
  }

  /** No housekeeping ever frees a lost corpse. */
  lemma LostInRound(st: State, i: nat, sent: set<int>, c: MSocket)
    requires TablesOk(st) && Fds(st) && i < HIGHSOCK && ReadsAreDefined(st, i) && Lost(st, c)
    ensures Lost(HouseAt(st, i, sent), c)
  {
    SlotsAreOk(st, i);
    SocketsHaveBoth(st);
    if st.list[i] != null { DestroyLoses(st, st.list[i], c); }
    if st.corpses[i] != null && st.corpses[i] != c { DestroyLoses(st, st.corpses[i], c); }
    hide Destroy, TablesOk;
  }

  lemma {:induction false} LostForHousekeeping(st: State, i: nat, sent: set<int>, c: MSocket)
    requires TablesOk(st) && Lost(st, c)
    ensures Lost(HouseFrom(st, i, sent), c)
    decreases HIGHSOCK - i
  {
    hide HouseAt, TablesOk, Fds, ReadsAreDefined, Shaped, Lost;
    if i < HIGHSOCK && Shaped(st) && Fds(st) && ReadsAreDefined(st, i) {
      HouseAtKeepsTables(st, i, sent);
      LostInRound(st, i, sent, c);
      LostForHousekeeping(HouseAt(st, i, sent), i + 1, sent, c);
    }
  }

  /** A run in which the socket at descriptor 0 is destroyed while its lookup is outstanding. */
  lemma FirstIsParked(cmp: Comparison, m: MSocket) returns (states: seq<State>, steps: seq<Step>)
    ensures IsRun(cmp, states, steps)
    ensures var st := states[|steps|];
            && st.socks.Keys == {m} && Has(st, m) && st.socks[m].fd == 0 && st.socks[m].flags.waitDestroy
            && Shaped(st) && st.list[0] == null && st.cache == Empty(MAXDNSCACHE)
  {
    states, steps := LookupStarts(cmp, m, true);
    Extend(cmp, states, steps, DestroySocket(m));
    states, steps := states + [Apply(cmp, states[2], DestroySocket(m))], steps + [DestroySocket(m)];
    hide IsRun;
  }

  /** The next socket at the same descriptor begins a lookup. */
  lemma SecondWaits(cmp: Comparison, m: MSocket, n: MSocket) returns (states: seq<State>, steps: seq<Step>)
    requires m != n
    ensures IsRun(cmp, states, steps)
    ensures var st := states[|steps|];
            && m in st.socks && st.socks[m].fd == 0 && st.socks[m].flags.waitDestroy
            && Has(st, n) && st.socks[n].fd == 0 && st.lookups[n].waiting
  {
    states, steps := FirstIsParked(cmp, m);
    var i := |steps|;
    Extend(cmp, states, steps, OpenStep(n));
    states, steps := states + [Apply(cmp, states[i], OpenStep(n))], steps + [OpenStep(n)];
    NothingFound(HOST, Ptr);
    Extend(cmp, states, steps, StartLookup(n, true));
    states, steps := states + [Apply(cmp, states[i + 1], StartLookup(n, true))], steps + [StartLookup(n, true)];
    hide IsRun, Find;
  }

  /** Two sockets in turn at one descriptor, each destroyed while its lookup is outstanding: the
      first corpse is lost. */
  lemma CorpseIsLost(cmp: Comparison, m: MSocket, n: MSocket) returns (states: seq<State>, steps: seq<Step>)
    requires m != n
    ensures IsRun(cmp, states, steps) && Lost(states[|steps|], m)
  {
    states, steps := SecondWaits(cmp, m, n);
    var i := |steps|;
    RunsKeepInv(cmp, states, steps, i);
    assert TablesOk(states[i]);
    Extend(cmp, states, steps, DestroySocket(n));
    hide Inv, TablesOk, IsRun, Lost, Apply, Defined, Destroy;
    DestroyIsApplied(cmp, states[i], n);
    DestroyLoses(states[i], n, m);
    states, steps := states + [Apply(cmp, states[i], DestroySocket(n))], steps + [DestroySocket(n)];
  }
}
