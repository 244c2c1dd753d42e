/** Which steps of a run make the corpse table lose a destroyed socket. */
module SocketLosses {
  import opened Common
  import opened DnsCache
  import opened SocketModel
  import opened SocketSafety
  import opened SocketRuns
  import opened SocketTheorems
  import opened SocketCorpses

  predicate Marked(st: State, c: MSocket) {
    c in st.socks && st.socks[c].flags.waitDestroy
  }

  /** A destroy of m takes the corpse c out of the table: m is parked there, or clears the slot. */
  predicate DestroyTakes(st: State, m: MSocket, c: MSocket)
    requires Has(st, m) && c in st.socks
  {
    m != c && st.socks[c].fd == st.socks[m].fd && (Waiting(st, m) || st.socks[m].flags.waitDestroy)
  }

  /** The step makes the table lose the corpse c. */
  ghost predicate Loses(st: State, step: Step, c: MSocket)
    requires c in st.socks
  {
    match step
    case DestroySocket(m) => Has(st, m) && DestroyTakes(st, m, c)
    case CloseSocket(m, _) => Has(st, m) && !st.socks[m].flags.waitDestroy && DestroyTakes(st, m, c)
    case Readable(fd, gone) =>
      && 0 <= fd < |st.revents| && st.revents[fd] != null && Has(st, st.revents[fd]) && gone
      && var s := st.socks[st.revents[fd]];
         (s.kind.Stream4? || s.kind.Stream6?) && s.flags.connected && DestroyTakes(st, st.revents[fd], c)
    case Housekeeping(_) =>
      var i := st.socks[c].fd;
      && 0 <= i < |st.list| && st.list[i] != null && Has(st, st.list[i]) && Waiting(st, st.list[i])
      && (TimedOut(st.socks[st.list[i]], st.now) || Idle(st.socks[st.list[i]], st.now))
    case _ => false
  }

  // ----- Steps that leave the corpses alone ------------------------------------------------

  /** The table is the same, and who is marked; new sockets are not. */
  ghost predicate CorpsesStay(st: State, st': State) {
    && st'.corpses == st.corpses && st.socks.Keys <= st'.socks.Keys
    && (forall x :: x in st'.socks ==>
          if x in st.socks then
            st'.socks[x].fd == st.socks[x].fd && st'.socks[x].flags.waitDestroy == st.socks[x].flags.waitDestroy
          else !st'.socks[x].flags.waitDestroy)
  }

  predicate Destroys(step: Step) {
    step.DestroySocket? || step.CloseSocket? || step.Readable? || step.Housekeeping?
  }

  lemma DnsKeepsCorpses(cmp: Comparison, st: State, step: Step)
    requires Defined(st, step) && (step.StartLookup? || step.PtrReply? || step.AReply?)
    ensures CorpsesStay(st, Apply(cmp, st, step))
  {
    hide FindRev, PtrAnswer, AAnswer;
    match step
    case StartLookup(m, accepted) => FindRevOnlyDns(Restarted(st, m), m, accepted);
    case PtrReply(q, a, accepted) => PtrAnswerOnlyDns(LogPtr(Answered(st, q), q, a), q.m, a, accepted);
    case AReply(q, a, accepted) => AAnswerOnlyDns(cmp, LogA(Answered(st, q), q.target, a), q.m, a, accepted);
  }

  lemma MuxKeepsCorpses(cmp: Comparison, st: State, step: Step)
    requires Enabled(st, step) && Defined(st, step) && (step.AddToMux? || step.RemoveFromMux? || step.Writable?)
    ensures CorpsesStay(st, Apply(cmp, st, step))
  {
    match step
    case AddToMux(m) =>
    case RemoveFromMux(fd) =>
    case Writable(fd, sent) =>
  }

  lemma OthersKeepCorpses(cmp: Comparison, st: State, step: Step)
    requires Enabled(st, step) && Defined(st, step) && !Destroys(step)
    ensures CorpsesStay(st, Apply(cmp, st, step))
  {
    if step.StartLookup? || step.PtrReply? || step.AReply? {
      hide Apply, Defined, Enabled, CorpsesStay;
      DnsKeepsCorpses(cmp, st, step);
    } else if step.AddToMux? || step.RemoveFromMux? || step.Writable? {
      hide Apply, Defined, Enabled, CorpsesStay;
      MuxKeepsCorpses(cmp, st, step);
    } else {
      hide Listed, Fds, Faults, Add, Sweep;
    }
  }

  lemma StayingIsNotLosing(st: State, st': State, c: MSocket)
    requires CorpsesStay(st, st')
    ensures Lost(st', c) <==> Lost(st, c)
  {
  }

  // ----- Destroys --------------------------------------------------------------------------

  /** One destroy: who is lost after it, the destroyed socket included. */
  lemma DestroyLosesExactly(st: State, m: MSocket, c: MSocket)
    requires TablesOk(st) && Listed(st) && AtFd(st, m)
    ensures Lost(Destroy(st, m), c) <==> c != m && Marked(st, c) && (Lost(st, c) || DestroyTakes(st, m, c))
  {
    SocketsHaveBoth(st);
    DestroySlots(st, m);
    DestroyKeepsFd(st, m);
    if c != m && c in st.socks {
      DestroyLeavesOthers(st, m, c);
      if Marked(st, c) { DestroyLoses(st, m, c); }
    }
    DestroyAddsNone(st, m);
    hide Destroy, TablesOk;
  }

  lemma DismantleKeepsFd(st: State, m: MSocket)
    requires Shaped(st) && AtFd(st, m)
    ensures m in Dismantle(st, m).socks ==> Dismantle(st, m).socks[m].fd == st.socks[m].fd
  {
  }

  lemma DestroyKeepsFd(st: State, m: MSocket)
    requires Shaped(st) && Listed(st) && AtFd(st, m)
    ensures m in Destroy(st, m).socks ==> Destroy(st, m).socks[m].fd == st.socks[m].fd
  {
    hide Dismantle;
    DismantleKeepsFd(if st.socks[m].flags.muxActive then RemFd(st, st.socks[m].fd) else st, m);
  }

  /** What a close does before it destroys. */
  function Closing(st: State, m: MSocket, sent: bool): State
    requires Shaped(st) && Listed(st) && AtFd(st, m)
  {
    AfterWrite(if st.socks[m].flags.muxActive then RemFd(st, st.socks[m].fd) else st, m, sent)
  }

  /** The corpses stay, and whoever waits. */
  ghost predicate AllStay(st: State, st': State) {
    && CorpsesStay(st, st') && st'.lookups == st.lookups && st'.socks.Keys == st.socks.Keys
    && (forall x :: x in st.socks ==> st'.socks[x].flags.waitIdent == st.socks[x].flags.waitIdent)
    && Shaped(st) && Shaped(st') && st'.list == st.list
  }

  lemma RemFdStays(st: State, fd: int)
    requires Shaped(st) && Listed(st) && 0 <= fd < HIGHSOCK
    ensures AllStay(st, RemFd(st, fd))
  {
  }

  lemma AfterWriteStays(st: State, m: MSocket, sent: bool)
    requires Shaped(st) && m in st.socks
    ensures AllStay(st, AfterWrite(st, m, sent))
  {
  }

  lemma StayIsTransitive(a: State, b: State, c: State)
    requires AllStay(a, b) && AllStay(b, c)
    ensures AllStay(a, c)
  {
  }

  lemma ClosingStays(st: State, m: MSocket, sent: bool)
    requires Shaped(st) && Listed(st) && AtFd(st, m)
    ensures AllStay(st, Closing(st, m, sent))
  {
    hide RemFd, AfterWrite, AllStay;
    if st.socks[m].flags.muxActive {
      RemFdStays(st, st.socks[m].fd);
      RemFdKeeps(st, m);
      AfterWriteStays(RemFd(st, st.socks[m].fd), m, sent);
      StayIsTransitive(st, RemFd(st, st.socks[m].fd), Closing(st, m, sent));
    } else {
      AfterWriteStays(st, m, sent);
    }
  }

  lemma RemFdKeeps(st: State, m: MSocket)
    requires Shaped(st) && Listed(st) && AtFd(st, m)
    ensures Shaped(RemFd(st, st.socks[m].fd)) && m in RemFd(st, st.socks[m].fd).socks
  {
  }

  lemma ClosingKeeps(st: State, m: MSocket, sent: bool)
    requires Shaped(st) && Listed(st) && AtFd(st, m) && !st.socks[m].flags.waitDestroy
    ensures var st2 := Closing(st, m, sent);
            && CorpsesStay(st, st2) && st2.lookups == st.lookups && st2.socks.Keys == st.socks.Keys
            && st2.socks[m].flags.waitIdent == st.socks[m].flags.waitIdent
            && Shaped(st2) && Listed(st2) && AtFd(st2, m)
  {
    ClosingStays(st, m, sent);
    hide Closing;
  }

  lemma CloseIsDestroy(st: State, m: MSocket, sent: bool)
    requires Shaped(st) && Listed(st) && AtFd(st, m) && !st.socks[m].flags.waitDestroy
    requires var st2 := Closing(st, m, sent); Shaped(st2) && Listed(st2) && AtFd(st2, m)
    ensures Close(st, m, sent) == Destroy(Closing(st, m, sent), m)
  {
    hide Destroy, RemFd, AfterWrite;
  }

  lemma ClosingKeepsTables(cmp: Comparison, st: State, m: MSocket, sent: bool)
    requires Inv(cmp, st) && m in st.socks
    ensures Shaped(st) && Listed(st) && AtFd(st, m) && TablesOk(Closing(st, m, sent))
  {
    QuietKeepsInv(cmp, st, m);
    var st1 := if st.socks[m].flags.muxActive then RemFd(st, st.socks[m].fd) else st;
    AfterWriteKeepsInv(cmp, st1, m, sent);
    hide RemFd, AfterWrite, TablesOk;
  }

  lemma CloseLosesExactly(cmp: Comparison, st: State, m: MSocket, sent: bool, c: MSocket)
    requires Inv(cmp, st) && m in st.socks && !st.socks[m].flags.waitDestroy
    ensures Shaped(st) && Listed(st) && AtFd(st, m)
    ensures Lost(Close(st, m, sent), c) <==> c != m && Marked(st, c) && (Lost(st, c) || DestroyTakes(st, m, c))
  {
    ClosingKeepsTables(cmp, st, m, sent);
    ClosingKeeps(st, m, sent);
    CloseIsDestroy(st, m, sent);
    var st2 := Closing(st, m, sent);
    hide Inv, TablesOk, Close, Closing, Destroy, Listed, Lost;
    DestroyLosesExactly(st2, m, c);
    StayingIsNotLosing(st, st2, c);
  }

  lemma ReadIsDestroy(cmp: Comparison, st: State, fd: int, gone: bool)
    requires TablesOk(st) && Enabled(st, Readable(fd, gone)) && Defined(st, Readable(fd, gone))
    ensures var l, s := st.revents[fd], st.socks[st.revents[fd]];
            && Has(st, l) && !s.flags.waitDestroy && Listed(st) && AtFd(st, l)
            && Apply(cmp, st, Readable(fd, gone)) ==
               if !(s.kind.Stream4? || s.kind.Stream6?) || !s.flags.connected then st
               else if gone then Destroy(st, l)
               else Put(st, l, s.(lastRecv := st.now))
  {
    SlotsAreOk(st, fd);
    EventsAreOwned(st, fd);
    hide TablesOk, Destroy, Listed;
  }

  lemma ReadLosesExactly(cmp: Comparison, st: State, fd: int, gone: bool, c: MSocket)
    requires Inv(cmp, st) && Enabled(st, Readable(fd, gone)) && Defined(st, Readable(fd, gone))
    ensures Lost(Apply(cmp, st, Readable(fd, gone)), c) <==>
            Marked(st, c) && (Lost(st, c) || Loses(st, Readable(fd, gone), c))
  {
    assert TablesOk(st);
    ReadIsDestroy(cmp, st, fd, gone);
    hide Inv, TablesOk, Destroy, Listed, Apply, Defined;
    DestroyLosesExactly(st, st.revents[fd], c);
  }

  // ----- Housekeeping ----------------------------------------------------------------------

  lemma RoundLosesExactly(st: State, i: nat, sent: set<int>, c: MSocket)
    requires TablesOk(st) && Fds(st) && i < HIGHSOCK && ReadsAreDefined(st, i)
    requires Marked(st, c) && !Lost(st, c) && st.socks[c].fd == i
    ensures Lost(HouseAt(st, i, sent), c) <==> Loses(st, Housekeeping(sent), c)
  {
    SlotsAreOk(st, i);
    SocketsHaveBoth(st);
    var l := st.list[i];
    assert st.corpses[i] == c && l != null && l != c;
    DestroyLosesExactly(st, c, c);
    DestroyLosesExactly(st, l, c);
    hide Destroy, TablesOk, Lost;
    assert Has(st, l) && AtFd(st, l);
    if !Waiting(st, l) {
      assert HouseAt(st, i, sent) == Destroy(st, c);
    } else if TimedOut(st.socks[l], st.now) || Idle(st.socks[l], st.now) {
      assert HouseAt(st, i, sent) == Destroy(st, l);
    } else {
      WriteLosesNone(st, l, i in sent && !IsListener(st.socks[l].kind) && !st.socks[l].allowIdle, c);
    }
  }

  lemma WriteLosesNone(st: State, l: MSocket, sent: bool, c: MSocket)
    requires l in st.socks
    ensures Lost(AfterWrite(st, l, sent), c) <==> Lost(st, c)
  {
  }

  /** A round at another descriptor. */
  lemma OtherRoundLosesNone(st: State, i: nat, sent: set<int>, c: MSocket)
    requires TablesOk(st) && Fds(st) && i < HIGHSOCK && ReadsAreDefined(st, i) && c in st.socks && st.socks[c].fd != i
    ensures Has(st, c) && Spared(st, HouseAt(st, i, sent), c) && (Lost(HouseAt(st, i, sent), c) <==> Lost(st, c))
  {
    SocketsHaveBoth(st);
    assert AtFd(st, c);
    hide HouseAt, TablesOk, Fds;
    RoundSpares(st, i, sent, c);
    HouseAtIsLocal(st, i, sent, st.socks[c].fd);
  }

  lemma {:induction false} LaterRoundsLoseNone(st: State, k: nat, sent: set<int>, c: MSocket)
    requires TablesOk(st) && k <= HIGHSOCK && ReadsAreDefinedFrom(st, k)
    requires c in st.socks ==> st.socks[c].fd < k
    ensures Lost(HouseFrom(st, k, sent), c) <==> Lost(st, c)
    decreases HIGHSOCK - k
  {
    TablesMeanFds(st);
    hide HouseAt, TablesOk, Fds, ReadsAreDefined, Lost;
    if k == HIGHSOCK {
    } else {
      assert ReadsAreDefined(st, k);
      HouseAtKeepsTables(st, k, sent);
      HouseAtKeepsReads(st, k, sent);
      if c in st.socks {
        OtherRoundLosesNone(st, k, sent, c);
        LaterRoundsLoseNone(HouseAt(st, k, sent), k + 1, sent, c);
      } else {
        GoneStaysGone(st, k, sent, c);
        GoneIsNotLost(st, c);
        GoneIsNotLost(HouseFrom(st, k, sent), c);
      }
    }
  }

  lemma GoneIsNotLost(st: State, c: MSocket)
    requires c !in st.socks
    ensures !Lost(st, c)
  {
  }

  lemma SameFdInRound(st: State, i: nat, sent: set<int>, c: MSocket)
    requires TablesOk(st) && Fds(st) && i < HIGHSOCK && ReadsAreDefined(st, i) && c in st.socks
    ensures c in HouseAt(st, i, sent).socks ==> HouseAt(st, i, sent).socks[c].fd == st.socks[c].fd
  {
    SocketsHaveBoth(st);
    SlotsAreOk(st, i);
    var k, l := st.corpses[i], st.list[i];
    if k != null {
      if c == k { DestroyKeepsFd(st, k); } else { DestroyLeavesOthers(st, k, c); }
    }
    if l != null {
      if c == l { DestroyKeepsFd(st, l); } else { DestroyLeavesOthers(st, l, c); }
    }
    hide Destroy, TablesOk;
  }

  /** What c's own round will look at, before and after another descriptor's. */
  lemma OtherRoundSameCondition(st: State, k: nat, sent: set<int>, c: MSocket)
    requires TablesOk(st) && Fds(st) && k < HIGHSOCK && ReadsAreDefined(st, k) && c in st.socks && st.socks[c].fd != k
    ensures c in HouseAt(st, k, sent).socks
    ensures Loses(HouseAt(st, k, sent), Housekeeping(sent), c) <==> Loses(st, Housekeeping(sent), c)
  {
    var i := st.socks[c].fd;
    OtherRoundLosesNone(st, k, sent, c);
    assert AtFd(st, c);
    HouseAtIsLocal(st, k, sent, i);
    SlotsHaveFds(st, i);
    HouseAtKeepsNow(st, k, sent);
    hide HouseAt, TablesOk, Fds;
    if st.list[i] != null { RoundSpares(st, k, sent, st.list[i]); }
  }

  lemma {:induction false} RoundsLoseExactly(st: State, k: nat, sent: set<int>, c: MSocket)
    requires TablesOk(st) && ReadsAreDefinedFrom(st, k) && Marked(st, c) && !Lost(st, c)
    requires k <= st.socks[c].fd < HIGHSOCK
    ensures Lost(HouseFrom(st, k, sent), c) <==> Loses(st, Housekeeping(sent), c)
    decreases HIGHSOCK - k
  {
    TablesMeanFds(st);
    assert ReadsAreDefined(st, k);
    var i := st.socks[c].fd;
    if i == k { RoundLosesExactly(st, k, sent, c); } else { OtherRoundSameCondition(st, k, sent, c); }
    hide HouseAt, TablesOk, Fds, ReadsAreDefined, Lost, Loses;
    HouseAtKeepsTables(st, k, sent);
    HouseAtKeepsReads(st, k, sent);
    if i == k {
      SameFdInRound(st, k, sent, c);
      LaterRoundsLoseNone(HouseAt(st, k, sent), k + 1, sent, c);
    } else {
      OtherRoundLosesNone(st, k, sent, c);
      RoundsLoseExactly(HouseAt(st, k, sent), k + 1, sent, c);
    }
  }

  // ----- Steps and runs --------------------------------------------------------------------

  lemma HousekeepingLosesExactly(cmp: Comparison, st: State, sent: set<int>, c: MSocket)
    requires Inv(cmp, st) && Defined(st, Housekeeping(sent)) && Marked(st, c)
    ensures Lost(Apply(cmp, st, Housekeeping(sent)), c) <==> Lost(st, c) || Loses(st, Housekeeping(sent), c)
  {
    assert TablesOk(st) && SockOk(st, c);
    hide Inv, Defined, Apply, TablesOk, HouseFrom, ReadsAreDefinedFrom, Loses;
    HousekeepingIsLoop(cmp, st, sent);
    if Lost(st, c) {
      LostForHousekeeping(st, 0, sent, c);
    } else {
      RoundsLoseExactly(st, 0, sent, c);
    }
  }

  /** Housekeeping parks whom it makes a corpse where the table knows it. */
  lemma {:induction false} RoundsMarkNoneLost(st: State, k: nat, sent: set<int>, c: MSocket)
    requires TablesOk(st) && ReadsAreDefinedFrom(st, k) && k <= HIGHSOCK && !Marked(st, c)
    ensures !Lost(HouseFrom(st, k, sent), c)
    decreases HIGHSOCK - k
  {
    TablesMeanFds(st);
    if k == HIGHSOCK {
    } else {
      assert ReadsAreDefined(st, k);
      RoundMarksNoneLost(st, k, sent, c);
      hide HouseAt, TablesOk, Fds, ReadsAreDefined, Lost, Marked;
      HouseAtKeepsTables(st, k, sent);
      HouseAtKeepsReads(st, k, sent);
      var st' := HouseAt(st, k, sent);
      if Marked(st', c) {
        LaterRoundsLoseNone(st', k + 1, sent, c);
      } else {
        RoundsMarkNoneLost(st', k + 1, sent, c);
      }
    }
  }

  /** Whom a round marks, it parks at its own descriptor. */
  lemma RoundMarksNoneLost(st: State, k: nat, sent: set<int>, c: MSocket)
    requires TablesOk(st) && Fds(st) && k < HIGHSOCK && ReadsAreDefined(st, k) && !Marked(st, c)
    ensures var st' := HouseAt(st, k, sent);
            !Lost(st', c) && (Marked(st', c) ==> st'.socks[c].fd == k)
  {
    SlotsAreOk(st, k);
    SocketsHaveBoth(st);
    var x, l := st.corpses[k], st.list[k];
    if x != null { MarkedByDestroy(st, x, c); }
    if l != null { MarkedByDestroy(st, l, c); }
    hide Destroy, TablesOk;
  }

  lemma MarkedByDestroy(st: State, m: MSocket, c: MSocket)
    requires TablesOk(st) && Listed(st) && AtFd(st, m) && !Marked(st, c)
    ensures !Lost(Destroy(st, m), c)
    ensures Marked(Destroy(st, m), c) ==> c == m && Destroy(st, m).socks[c].fd == st.socks[m].fd
  {
    SocketsHaveBoth(st);
    DestroyLosesExactly(st, m, c);
    DestroyKeepsFd(st, m);
    DestroyAddsNone(st, m);
    if c != m && c in st.socks { DestroyLeavesOthers(st, m, c); }
    hide Destroy, TablesOk;
  }

  lemma HousekeepingLosesAll(cmp: Comparison, st: State, sent: set<int>, c: MSocket)
    requires Inv(cmp, st) && Defined(st, Housekeeping(sent))
    ensures Lost(Apply(cmp, st, Housekeeping(sent)), c) <==>
            Marked(st, c) && (Lost(st, c) || Loses(st, Housekeeping(sent), c))
  {
    assert TablesOk(st);
    hide Inv, Defined, Apply, TablesOk, HouseFrom, ReadsAreDefinedFrom, Loses, Lost, Marked;
    if Marked(st, c) {
      HousekeepingLosesExactly(cmp, st, sent, c);
    } else {
      HousekeepingIsLoop(cmp, st, sent);
      RoundsMarkNoneLost(st, 0, sent, c);
    }
  }

  /** Destroying a lost corpse parks it again or frees it; nothing else brings one back. */
  predicate Restores(step: Step, c: MSocket) {
    step.DestroySocket? && step.m == c
  }

  lemma DestroyStepLoses(cmp: Comparison, st: State, m: MSocket, c: MSocket)
    requires Inv(cmp, st) && Defined(st, DestroySocket(m))
    ensures Lost(Apply(cmp, st, DestroySocket(m)), c) <==>
            m != c && Marked(st, c) && (Lost(st, c) || Loses(st, DestroySocket(m), c))
  {
    assert TablesOk(st);
    hide Inv, TablesOk, Apply, Defined, Destroy, Lost;
    DestroyIsApplied(cmp, st, m);
    DestroyLosesExactly(st, m, c);
  }

  lemma CloseStepLoses(cmp: Comparison, st: State, m: MSocket, sent: bool, c: MSocket)
    requires Inv(cmp, st) && Defined(st, CloseSocket(m, sent)) && Enabled(st, CloseSocket(m, sent))
    ensures Lost(Apply(cmp, st, CloseSocket(m, sent)), c) <==>
            Marked(st, c) && (Lost(st, c) || Loses(st, CloseSocket(m, sent), c))
  {
    LostAreMarked(st, c);
    hide Inv, Apply, Defined, Close, Lost;
    CloseIsApplied(cmp, st, m, sent);
    CloseOfCorpse(st, m, sent);
    if !st.socks[m].flags.waitDestroy { CloseLosesExactly(cmp, st, m, sent, c); }
  }

  lemma OtherStepLoses(cmp: Comparison, st: State, step: Step, c: MSocket)
    requires Enabled(st, step) && Defined(st, step) && !Destroys(step)
    ensures Lost(Apply(cmp, st, step), c) <==> Marked(st, c) && (Lost(st, c) || Loses(st, step, c))
  {
    LostAreMarked(st, c);
    hide Apply, Defined, Enabled, Lost, Marked;
    OthersKeepCorpses(cmp, st, step);
    StayingIsNotLosing(st, Apply(cmp, st, step), c);
  }

  /** After any step of a run, a socket is a lost corpse exactly when it was one before, or was a
      corpse and the step loses it; unless the step destroys that very corpse. */
  lemma StepLosesExactly(cmp: Comparison, st: State, step: Step, c: MSocket)
    requires Inv(cmp, st) && Enabled(st, step) && Defined(st, step)
    ensures Lost(Apply(cmp, st, step), c) <==>
            !Restores(step, c) && Marked(st, c) && (Lost(st, c) || Loses(st, step, c))
  {
    hide Inv, Apply, Defined, Enabled, Loses, Lost, Marked;
    match step
    case DestroySocket(m) => DestroyStepLoses(cmp, st, m, c);
    case CloseSocket(m, sent) => CloseStepLoses(cmp, st, m, sent, c);
    case Readable(fd, gone) => ReadLosesExactly(cmp, st, fd, gone, c);
    case Housekeeping(sent) => HousekeepingLosesAll(cmp, st, sent, c);
    case _ => OtherStepLoses(cmp, st, step, c);
  }

  lemma CloseOfCorpse(st: State, m: MSocket, sent: bool)
    requires Shaped(st) && Listed(st) && AtFd(st, m)
    ensures st.socks[m].flags.waitDestroy ==> Close(st, m, sent) == st
  {
  }

  lemma LostAreMarked(st: State, c: MSocket)
    ensures Lost(st, c) ==> Marked(st, c)
  {
  }

  /** In every run, a lost corpse was lost by some step. */
  lemma {:induction false} LostByAStep(cmp: Comparison, states: seq<State>, steps: seq<Step>, j: nat, c: MSocket)
    requires IsRun(cmp, states, steps) && j < |states| && Lost(states[j], c)
    ensures exists i: nat :: i < j && Marked(states[i], c) && Loses(states[i], steps[i], c)
  {
    hide Apply, Enabled, Defined, Inv, Loses, Marked, Lost;
    if j == 0 {
      var now :| states[0] == Init(now);
      GoneIsNotLost(states[0], c);
    } else {
      RunsKeepInv(cmp, states, steps, j - 1);
      StepLosesExactly(cmp, states[j - 1], steps[j - 1], c);
      if Lost(states[j - 1], c) {
        LostByAStep(cmp, states, steps, j - 1, c);
      }
    }
  }
}
