/** The library in use: any sequence of calls and events on the heap is a run of the model, so what
    holds of every run holds of the heap. */
module SocketSession {
  import opened Common
  import opened DnsCache
  import opened SocketModel
  import opened SocketSafety
  import opened SocketRuns
  import opened SocketTheorems
  import opened SocketLibrary

  // ----- What a defined step is ------------------------------------------------------------

  lemma OpenIsApplied(cmp: Comparison, st: State, step: Step)
    requires step.Open? && Defined(st, step)
    ensures 0 <= step.fd < HIGHSOCK && Shaped(st)
    ensures var s := Opened(st.now, step.fd, step.kind, step.allowIdle, step.host,
                            step.connected, step.ready, step.waitConn, step.connTo);
            Apply(cmp, st, step) == WithSocket(st, step.m, s).(list := st.list[step.fd := step.m])
  {
  }

  lemma AddIsApplied(cmp: Comparison, st: State, m: MSocket)
    requires Defined(st, AddToMux(m))
    ensures Shaped(st) && AtFd(st, m) && Apply(cmp, st, AddToMux(m)) == SocketModel.AddFd(st, m)
  {
  }

  lemma RemoveIsApplied(cmp: Comparison, st: State, fd: int)
    requires Defined(st, RemoveFromMux(fd))
    ensures Shaped(st) && fd < HIGHSOCK && (0 <= fd && st.list[fd] != null ==> st.list[fd] in st.socks)
    ensures Apply(cmp, st, RemoveFromMux(fd)) == SocketModel.RemFd(st, fd)
  {
  }

  lemma StartIsApplied(cmp: Comparison, st: State, m: MSocket, accepted: bool)
    requires Defined(st, StartLookup(m, accepted))
    ensures Has(st, m)
    ensures Apply(cmp, st, StartLookup(m, accepted)) == SocketModel.FindRev(Restarted(st, m), m, accepted)
  {
    hide SocketModel.FindRev;
  }

  lemma ReadIsApplied(cmp: Comparison, st: State, fd: int, gone: bool)
    requires Defined(st, Readable(fd, gone))
    ensures Shaped(st) && 0 <= fd < HIGHSOCK && st.revents[fd] != null && Listed(st) && AtFd(st, st.revents[fd])
    ensures Apply(cmp, st, Readable(fd, gone)) == ReadEvent(st, st.revents[fd], gone)
  {
    hide ReadEvent, Listed, AtFd;
  }

  lemma WriteIsApplied(cmp: Comparison, st: State, fd: int, sent: bool)
    requires Defined(st, Writable(fd, sent))
    ensures Shaped(st) && 0 <= fd < HIGHSOCK && st.wevents[fd] != null && st.wevents[fd] in st.socks
    ensures Apply(cmp, st, Writable(fd, sent)) == WriteEvent(st, st.wevents[fd], sent)
  {
    hide WriteEvent;
  }

  lemma EventIsEnabled(st: State, fd: int)
    requires Shaped(st) && 0 <= fd < HIGHSOCK
    ensures st.revents[fd] != null ==> forall gone :: Enabled(st, Readable(fd, gone))
    ensures st.wevents[fd] != null ==> forall sent :: Enabled(st, Writable(fd, sent))
  {
  }

  lemma RemoveIsEnabled(st: State, fd: int)
    requires fd < HIGHSOCK
    ensures Enabled(st, RemoveFromMux(fd))
  {
  }

  // ----- Sessions --------------------------------------------------------------------------

  class Session {
    const lib: Library
    ghost var states: seq<State>
    ghost var steps: seq<Step>

    /** What has happened to the heap so far is a run, and the heap is where it ends. */
    ghost predicate Valid()
      reads this, lib, lib.list, lib.corpses, lib.revents, lib.wevents, lib.cache.slots, lib.live
    {
      && lib.Valid() && |states| == |steps| + 1 && states[|steps|] == lib.Model()
      && IsRun(lib.cmp, states, steps)
    }

    constructor (start: int, compare: Comparison)
      ensures Valid() && steps == [] && lib.cmp == compare
      ensures fresh(lib) && fresh(lib.list) && fresh(lib.corpses) && fresh(lib.revents) && fresh(lib.wevents)
      ensures fresh(lib.cache.slots) && lib.live == {}
    {
      lib := new Library(start, compare);
      new;
      states, steps := [lib.Model()], [];
      assert states[0] == Init(start);
    }

    /** The invariant holds, and the step is one the library can take. */
    lemma Ready(step: Step)
      requires Valid() && Enabled(lib.Model(), step)
      ensures Inv(lib.cmp, lib.Model())
      ensures !step.Housekeeping? ==> Defined(lib.Model(), step)
    {
      hide IsRun, Inv, Enabled, Defined;
      RunsKeepInv(lib.cmp, states, steps, |steps|);
      StepIsDefined(lib.cmp, lib.Model(), step);
    }

    ghost method Record(step: Step)
      requires lib.Valid() && |states| == |steps| + 1 && IsRun(lib.cmp, states, steps)
      requires Enabled(states[|steps|], step) && Defined(states[|steps|], step)
      requires lib.Model() == Apply(lib.cmp, states[|steps|], step)
      modifies this`states, this`steps
      ensures Valid() && steps == old(steps) + [step]
    {
      hide Apply, Enabled, Defined;
      states, steps := states + [lib.Model()], steps + [step];
    }

    method Open(fd: int, kind: SockType, allowIdle: bool, host: IpText,
                connected: bool, ready: bool, waitConn: bool, connTo: nat) returns (m: MSocket)
      requires Valid() && 0 <= fd < HIGHSOCK && lib.list[fd] == null
      modifies this, lib`live, lib`env, lib.list
      ensures fresh(m) && lib.live == old(lib.live) + {m}
      ensures Valid()
      ensures steps == old(steps) + [Step.Open(m, fd, kind, allowIdle, host, connected, ready, waitConn, connTo)]
    {
      hide Apply, Defined, Inv, IsRun;
      ghost var st := lib.Model();
      m := lib.Open(fd, kind, allowIdle, host, connected, ready, waitConn, connTo);
      ghost var step := Step.Open(m, fd, kind, allowIdle, host, connected, ready, waitConn, connTo);
      NewIsOpened(st, step);
      OpenIsApplied(lib.cmp, st, step);
      Record(step);
    }

    static lemma NewIsOpened(st: State, step: Step)
      requires step.Open? && Shaped(st) && 0 <= step.fd < HIGHSOCK && st.list[step.fd] == null && step.m !in st.socks
      ensures Enabled(st, step) && Defined(st, step)
    {
    }

    method AddFd(m: MSocket)
      requires Valid() && m in lib.live && Enabled(lib.Model(), AddToMux(m))
      modifies this, lib.revents, lib.wevents, lib.live
      ensures Valid() && steps == old(steps) + [AddToMux(m)] && lib.live == old(lib.live)
    {
      hide Apply, Defined, Inv, IsRun, Enabled;
      Ready(AddToMux(m));
      AddIsApplied(lib.cmp, lib.Model(), m);
      lib.AddFd(m);
      Record(AddToMux(m));
    }

    method RemFd(fd: int)
      requires Valid() && fd < HIGHSOCK
      modifies this, lib.revents, lib.wevents, lib.live
      ensures Valid() && steps == old(steps) + [RemoveFromMux(fd)] && lib.live == old(lib.live)
    {
      hide Apply, Defined, Inv, IsRun, Enabled, SocketModel.RemFd;
      RemoveIsEnabled(lib.Model(), fd);
      Ready(RemoveFromMux(fd));
      RemoveIsApplied(lib.cmp, lib.Model(), fd);
      if 0 <= fd && lib.list[fd] != null { lib.Living(lib.list[fd]); }
      lib.RemFd(fd);
      Record(RemoveFromMux(fd));
    }

    method FindRev(m: MSocket, ghost accepted: bool) returns (r: int)
      requires Valid() && m in lib.live && Enabled(lib.Model(), StartLookup(m, accepted))
      modifies this, lib`active, lib`env, lib.live
      ensures Valid() && steps == old(steps) + [StartLookup(m, accepted)] && lib.live == old(lib.live)
    {
      hide Apply, Defined, Inv, IsRun, Enabled, SocketModel.FindRev;
      Ready(StartLookup(m, accepted));
      StartIsApplied(lib.cmp, lib.Model(), m, accepted);
      lib.Restart(m);
      r := lib.FindRev(m, accepted);
      Record(StartLookup(m, accepted));
    }

    method PtrAnswered(ghost q: Query, m: MSocket, a: Answer, ghost accepted: bool)
      requires Valid() && m in lib.live && q.m == m && Enabled(lib.Model(), PtrReply(q, a, accepted))
      modifies this, lib`active, lib`env, lib.cache.slots, lib.live
      ensures Valid() && steps == old(steps) + [PtrReply(q, a, accepted)] && lib.live == old(lib.live)
    {
      hide Apply, Defined, Inv, IsRun, Enabled, PtrAnswer, LogPtr, Answered;
      Ready(PtrReply(q, a, accepted));
      PtrIsApplied(lib.cmp, lib.Model(), q, a, accepted);
      lib.RecvRevA(m, a, q, accepted);
      Record(PtrReply(q, a, accepted));
    }

    method AAnswered(ghost q: Query, m: MSocket, a: Answer, ghost accepted: bool)
      requires Valid() && m in lib.live && q.m == m && Enabled(lib.Model(), AReply(q, a, accepted))
      modifies this, lib`active, lib`env, lib.cache.slots, lib.live
      ensures Valid() && steps == old(steps) + [AReply(q, a, accepted)] && lib.live == old(lib.live)
    {
      hide Apply, Defined, Inv, IsRun, Enabled, AAnswer, LogA, Answered;
      Ready(AReply(q, a, accepted));
      AIsApplied(lib.cmp, lib.Model(), q, a, accepted);
      lib.RecvRevB(m, a, q, accepted);
      Record(AReply(q, a, accepted));
    }

    method Destroy(m: MSocket)
      requires Valid() && m in lib.live
      modifies this, lib`live, lib.list, lib.corpses, lib.revents, lib.wevents, lib.live
      ensures Valid() && steps == old(steps) + [DestroySocket(m)] && lib.live <= old(lib.live)
    {
      lib.Living(m);
      assert Enabled(lib.Model(), DestroySocket(m));
      hide Apply, Defined, Inv, IsRun, Enabled, SocketModel.Destroy;
      Ready(DestroySocket(m));
      DestroyIsApplied(lib.cmp, lib.Model(), m);
      lib.Destroy(m);
      Record(DestroySocket(m));
    }

    method Close(m: MSocket, sent: bool) returns (r: int)
      requires Valid() && m in lib.live
      modifies this, lib`live, lib.list, lib.corpses, lib.revents, lib.wevents, lib.live
      ensures Valid() && steps == old(steps) + [CloseSocket(m, sent)] && lib.live <= old(lib.live)
    {
      lib.Living(m);
      assert Enabled(lib.Model(), CloseSocket(m, sent));
      hide Apply, Defined, Inv, IsRun, Enabled, SocketModel.Close;
      Ready(CloseSocket(m, sent));
      CloseIsApplied(lib.cmp, lib.Model(), m, sent);
      r := lib.Close(m, sent);
      Record(CloseSocket(m, sent));
    }

    method OnReadable(fd: int, gone: bool)
      requires Valid() && 0 <= fd < HIGHSOCK && lib.revents[fd] != null
      modifies this, lib`live, lib.list, lib.corpses, lib.revents, lib.wevents, lib.live
      ensures Valid() && steps == old(steps) + [Readable(fd, gone)] && lib.live <= old(lib.live)
    {
      hide Apply, Defined, Inv, IsRun, Enabled, ReadEvent;
      EventIsEnabled(lib.Model(), fd);
      Ready(Readable(fd, gone));
      ReadIsApplied(lib.cmp, lib.Model(), fd, gone);
      lib.Living(lib.revents[fd]);
      lib.OnReadable(lib.revents[fd], gone);
      Record(Readable(fd, gone));
    }

    method OnWritable(fd: int, sent: bool)
      requires Valid() && 0 <= fd < HIGHSOCK && lib.wevents[fd] != null
      modifies this, lib.live
      ensures Valid() && steps == old(steps) + [Writable(fd, sent)] && lib.live == old(lib.live)
    {
      hide Apply, Defined, Inv, IsRun, Enabled, WriteEvent;
      EventIsEnabled(lib.Model(), fd);
      Ready(Writable(fd, sent));
      WriteIsApplied(lib.cmp, lib.Model(), fd, sent);
      lib.Living(lib.wevents[fd]);
      lib.OnWritable(lib.wevents[fd], sent);
      Record(Writable(fd, sent));
    }

    /** Housekeeping, where it does not read through a null pointer. */
    method Housekeeping(flushed: set<int>) returns (num: nat)
      requires Valid() && HousekeepingDefined(lib.Model())
      modifies this, lib`live, lib.list, lib.corpses, lib.revents, lib.wevents, lib.live
      ensures Valid() && steps == old(steps) + [Step.Housekeeping(flushed)]
    {
      ghost var step := Step.Housekeeping(flushed);
      assert Enabled(lib.Model(), step);
      hide Apply, Defined, IsRun, Enabled, ReadsAreDefinedFrom, HouseFrom;
      Ready(step);
      StepIsDefined(lib.cmp, lib.Model(), step);
      assert TablesOk(lib.Model());
      hide Inv, TablesOk;
      HousekeepingIsLoop(lib.cmp, lib.Model(), flushed);
      num := lib.Housekeeping(flushed);
      Record(step);
    }

    method CleanCache()
      requires Valid()
      modifies this, lib.cache.slots
      ensures Valid() && steps == old(steps) + [Step.CleanCache]
    {
      assert Enabled(lib.Model(), Step.CleanCache);
      hide Apply, Defined, Inv, IsRun, Enabled;
      Ready(Step.CleanCache);
      lib.CleanCache();
      Record(Step.CleanCache);
    }

    method LookUp(accepted: bool)
      requires Valid()
      modifies this, lib`active, lib`env
      ensures Valid() && steps == old(steps) + [ForwardLookup(accepted)]
    {
      assert Enabled(lib.Model(), ForwardLookup(accepted));
      hide Apply, Defined, Inv, IsRun, Enabled;
      Ready(ForwardLookup(accepted));
      lib.LookUp(accepted);
      Record(ForwardLookup(accepted));
    }

    method LookedUp(host: string, a: Answer)
      requires Valid() && lib.env.forward > 0
      modifies this, lib`active, lib`env, lib.cache.slots
      ensures Valid() && steps == old(steps) + [ForwardReply(host, a)]
    {
      assert Enabled(lib.Model(), ForwardReply(host, a));
      hide Apply, Defined, Inv, IsRun, Enabled, ForwardAnswer;
      Ready(ForwardReply(host, a));
      lib.RecvForward(host, a);
      Record(ForwardReply(host, a));
    }

    method Tick(t: int)
      requires Valid() && lib.now <= t
      modifies this, lib`now
      ensures Valid() && steps == old(steps) + [Step.Tick(t)]
    {
      assert Enabled(lib.Model(), Step.Tick(t));
      hide Apply, Defined, Inv, IsRun, Enabled;
      Ready(Step.Tick(t));
      lib.SetTime(t);
      Record(Step.Tick(t));
    }

    /** On the heap, no table and no outstanding query ever points at a freed socket. */
    lemma NothingFreedIsHeld(m: MSocket)
      requires Valid()
      ensures m in lib.list[..] || m in lib.corpses[..] || m in lib.revents[..] || m in lib.wevents[..] ==>
                m in lib.live
      ensures forall q :: q in lib.env.queries && q.m == m ==> m in lib.live
    {
      hide IsRun;
      NoFreedSocketIsHeld(lib.cmp, states, steps, |steps|, m);
      lib.Living(m);
      if q :| q in lib.env.queries && q.m == m { assert Held(lib.Model(), m); }
    }
  }
}
