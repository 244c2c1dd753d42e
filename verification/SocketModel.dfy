/** The socket life cycle and the reverse-DNS machine as a transition system.

    A State is everything msocket/socket.c, msocket/mux.c and msocket/dns.c keep between two
    calls, with the C heap of MSocket structures as a map from references to their contents:
    an address that is not in the map is not allocated.  The functions below are the C
    functions read as state changes, branch by branch; what the resolver, the kernel and the
    application decide arrives as arguments. */
module SocketModel {
  import opened Common
  import opened DnsCache

  const HIGHSOCK := 32768
  const MAXKEEPALIVE := 600
  const LOCALKEEPALIVE := 3600

  /** inet_ntoa never produces more than fifteen characters. */
  type IpText = s: string | |s| <= 15

  datatype SockType =
    ErrorType | LocalListen | LocalClient | Stream4 | Dgram4 | Listen4 | Stream6 | Dgram6 | Listen6

  /** The flag bits the life cycle uses, WAITDNS aside, which is kept with the lookup. */
  datatype Flags = Flags(
    connected: bool,
    ready: bool,
    waitIdent: bool,
    muxActive: bool,
    waitDestroy: bool,
    waitConn: bool)

  /** One MSocket structure, as far as the life cycle looks at it. */
  datatype Sock = Sock(
    kind: SockType,
    allowIdle: bool,
    remoteHost: IpText,
    fd: int,
    flags: Flags,
    lastSend: int,
    lastRecv: int,
    connStart: int,
    connTo: nat)

  /** The reverse-DNS part of the same structure: the WAITDNS bit, the confirmed name
      (remotedns), the name still to be confirmed (possible_revdns) and the retry count. */
  datatype Lookup = Lookup(waiting: bool, name: Option<string>, candidate: Option<string>, retries: nat)

  const NO_LOOKUP := Lookup(false, None, None, 0)

  class MSocket {
    var kind: SockType
    var allowIdle: bool
    var remoteHost: IpText
    var remoteDns: Option<string>
    var fd: int
    var flags: Flags
    var waitDns: bool
    var lastSend: int
    var lastRecv: int
    var connStart: int
    var connTo: nat
    var candidate: Option<string>  // possible_revdns
    var retries: nat

    ghost function Value(): Sock
      reads this
    {
      Sock(kind, allowIdle, remoteHost, fd, flags, lastSend, lastRecv, connStart, connTo)
    }

    ghost function Dns(): Lookup
      reads this
    {
      Lookup(waitDns, remoteDns, candidate, retries)
    }

    constructor (s: Sock)
      ensures Value() == s && Dns() == NO_LOOKUP
    {
      kind, allowIdle, remoteHost, fd, flags := s.kind, s.allowIdle, s.remoteHost, s.fd, s.flags;
      lastSend, lastRecv, connStart, connTo := s.lastSend, s.lastRecv, s.connStart, s.connTo;
      waitDns, remoteDns, candidate, retries := false, None, None, 0;
    }
  }

  // ----- The resolver's side ---------------------------------------------------------------

  datatype Phase = PtrPhase | APhase

  /** An accepted reverse query that has not been answered: whom it is for and what it asks. */
  datatype Query = Query(m: MSocket, phase: Phase, target: string)

  datatype DnsResult = NoError | ServerFailed | NotExist | UnknownError | OtherError(code: int)

  datatype AnswerType = IPv4A | PtrName | IPv6Aaaa

  /** Everything evdns passes to a callback.  `name` is the answer read as a host name,
      `addr` its first address as text. */
  datatype Answer = Answer(
    result: DnsResult,
    rtype: AnswerType,
    count: int,
    ttl: int,
    name: string,
    addr: IpText)

  /** Line 717 of msocket/dns.c compares the answered address with the candidate name, the
      comment at line 693 says it is compared with the remote address.  Both are modelled. */
  datatype Comparison = AsCoded | AsDocumented

  /** The resolver's bookkeeping, and history that no code reads:
      sockets whose query evdns refused, queries issued per socket since its lookup began,
      and every PTR and A answer ever received without an error, as (question, answer) pairs. */
  datatype Env = Env(
    queries: multiset<Query>,
    forward: nat,
    refused: set<MSocket>,
    issued: map<MSocket, nat>,
    ptrLog: set<(string, string)>,
    aLog: set<(string, string)>)

  datatype State = State(
    socks: map<MSocket, Sock>,
    lookups: map<MSocket, Lookup>,
    list: seq<MSocket?>,
    corpses: seq<MSocket?>,
    revents: seq<MSocket?>,
    wevents: seq<MSocket?>,
    cache: Slots,
    active: int,
    now: int,
    env: Env)

  function Nulls(n: nat): (r: seq<MSocket?>)
    ensures |r| == n
  {
    seq(n, _ => null)
  }

  function Init(now: int): State {
    State(map[], map[], Nulls(HIGHSOCK), Nulls(HIGHSOCK), Nulls(HIGHSOCK), Nulls(HIGHSOCK),
          Empty(MAXDNSCACHE), 0, now, Env(multiset{}, 0, {}, map[], {}, {}))
  }

  function Put(st: State, m: MSocket, s: Sock): State {
    st.(socks := st.socks[m := s])
  }

  function Cached(st: State, t: RecordType, ip: Option<string>, host: Option<string>, ttl: int): State {
    st.(cache := Add(st.cache, t, ip, host, ttl, st.now).0)
  }

  // ----- Reverse lookups (msocket/dns.c) ---------------------------------------------------

  function IssuedBy(env: Env, m: MSocket): nat {
    if m in env.issued then env.issued[m] else 0
  }

  /** lms_dns_activequeries++ and a call to evdns, whose refusal the C code does not look at. */
  function Issue(st: State, m: MSocket, phase: Phase, target: string, accepted: bool): State {
    var env := st.env.(issued := st.env.issued[m := IssuedBy(st.env, m) + 1]);
    st.(active := st.active + 1,
        env := if accepted then env.(queries := env.queries + multiset{Query(m, phase, target)})
               else env.(refused := env.refused + {m}))
  }

  function PutDns(st: State, m: MSocket, d: Lookup): State {
    st.(lookups := st.lookups[m := d])
  }

  /** Every socket has both of its parts. */
  predicate Has(st: State, m: MSocket) {
    m in st.socks && m in st.lookups
  }

  /** The end of a lookup without a name: no longer waiting, no name, no candidate. */
  function Unnamed(d: Lookup): Lookup {
    Lookup(false, None, None, d.retries)
  }

  /** The same, with the retry count put back to zero. */
  const GIVEN_UP := Lookup(false, None, None, 0)

  function Named(d: Lookup, name: Option<string>): Lookup {
    Lookup(false, name, None, d.retries)
  }

  /** What a lookup does with the PTR record p and the A record a the cache has for it. */
  function Resolved(st: State, m: MSocket, d: Lookup, p: Option<Entry>, a: Option<Entry>, accepted: bool): State
    requires m in st.socks
  {
    var host := st.socks[m].remoteHost;
    if p.None? then Issue(PutDns(st, m, d), m, PtrPhase, host, accepted)
    else if p.value.negative then PutDns(st, m, Unnamed(d))
    else if a.None? then
      Issue(PutDns(st, m, d.(candidate := Some(p.value.host))), m, APhase, p.value.host, accepted)
    else if a.value.negative then PutDns(st, m, Unnamed(d))
    else if a.value.ip == host then PutDns(st, m, Named(d, Some(p.value.host)))
    else PutDns(st, m, Unnamed(d))
  }

  /** lms_dns_findrev */
  function FindRev(st: State, m: MSocket, accepted: bool): State
    requires Has(st, m)
  {
    var p := Find(st.cache, st.socks[m].remoteHost, Ptr);
    var a := if p.Some? then Find(st.cache, p.value.host, A) else None;
    Resolved(st, m, st.lookups[m].(waiting := true), p, a, accepted)
  }

  /** What lms_dns_findrev returns: 0 waiting, 1 cached positive, 2 cached negative, 3 mismatch. */
  function FindRevCode(st: State, m: MSocket): int
    requires Has(st, m)
  {
    var host := st.socks[m].remoteHost;
    var p := Find(st.cache, host, Ptr);
    if p.None? then 0
    else if p.value.negative then 2
    else
      var a := Find(st.cache, p.value.host, A);
      if a.None? then 0
      else if a.value.negative || a.value.ip != host then 3
      else 1
  }

  /** One more attempt if none was made yet, otherwise give up. */
  function Retry(st: State, m: MSocket, d: Lookup, accepted: bool): State
    requires m in st.socks
  {
    if d.retries == 0 then FindRev(PutDns(st, m, d.(retries := 1)), m, accepted)
    else PutDns(st, m, GIVEN_UP)
  }

  predicate Terminal(r: DnsResult) {
    r.ServerFailed? || r.NotExist? || r.UnknownError?
  }

  function Answered(st: State, q: Query): State {
    st.(active := st.active - 1, env := st.env.(queries := st.env.queries - multiset{q}))
  }

  function LogPtr(st: State, q: Query, a: Answer): State {
    if a.result.NoError? && a.rtype.PtrName?
    then st.(env := st.env.(ptrLog := st.env.ptrLog + {(q.target, a.name)}))
    else st
  }

  function LogA(st: State, host: string, a: Answer): State {
    if a.result.NoError? && a.rtype.IPv4A? && a.count >= 1
    then st.(env := st.env.(aLog := st.env.aLog + {(host, a.addr)}))
    else st
  }

  /** The candidate name against what the cache knows about it. */
  function Checked(st: State, m: MSocket, d: Lookup, c: Option<Entry>, name: string, accepted: bool): State
    requires m in st.socks
  {
    if c.None? then Issue(PutDns(st, m, d), m, APhase, name, accepted)
    else if c.value.negative then PutDns(st, m, GIVEN_UP)
    else if c.value.ip == st.socks[m].remoteHost then PutDns(st, m, Named(d, d.candidate))
    else PutDns(st, m, GIVEN_UP)
  }

  /** The name the PTR answer gave is remembered, then checked unless the socket is a corpse. */
  function PtrFound(st: State, m: MSocket, a: Answer, accepted: bool): State
    requires Has(st, m)
  {
    var d := st.lookups[m].(candidate := Some(a.name));
    var st1 := Cached(st, Ptr, Some(st.socks[m].remoteHost), Some(a.name), a.ttl);
    if st.socks[m].flags.waitDestroy then PutDns(st1, m, d.(waiting := false))
    else Checked(st1, m, d, Find(st1.cache, a.name, A), a.name, accepted)
  }

  /** The resolver said no for good; only a missing name is remembered. */
  function PtrFailed(st: State, m: MSocket, a: Answer): State
    requires Has(st, m)
  {
    var st1 := if a.result.NotExist? then Cached(st, Ptr, Some(st.socks[m].remoteHost), None, 3600) else st;
    PutDns(st1, m, GIVEN_UP)
  }

  /** lms_dns_recvrevA after its counter decrement. */
  function PtrAnswer(st: State, m: MSocket, a: Answer, accepted: bool): State
    requires Has(st, m)
  {
    if Terminal(a.result) then PtrFailed(st, m, a)
    else if a.result != NoError || !a.rtype.PtrName? then Retry(st, m, st.lookups[m], accepted)
    else PtrFound(st, m, a, accepted)
  }

  /** The comparison of line 717. */
  predicate SameAddress(cmp: Comparison, host: string, name: string, addr: IpText) {
    match cmp
    case AsCoded => addr == name
    case AsDocumented => addr == host
  }

  function AFailed(st: State, m: MSocket, a: Answer): State
    requires Has(st, m)
  {
    var st1 := if a.result.NotExist? then Cached(st, A, None, st.lookups[m].candidate, 600) else st;
    PutDns(st1, m, GIVEN_UP)
  }

  function AFound(cmp: Comparison, st: State, m: MSocket, a: Answer): State
    requires Has(st, m) && st.lookups[m].candidate.Some?
  {
    var d := st.lookups[m];
    var st1 := Cached(st, A, Some(a.addr), d.candidate, a.ttl);
    if st.socks[m].flags.waitDestroy then PutDns(st1, m, d.(waiting := false))
    else if SameAddress(cmp, st.socks[m].remoteHost, d.candidate.value, a.addr) then
      PutDns(st1, m, Lookup(false, d.candidate, None, 0))
    else PutDns(st1, m, GIVEN_UP)
  }

  /** lms_dns_recvrevB after its counter decrement.  An unexpected error on the second attempt
      falls through to the type and count checks. */
  function AAnswer(cmp: Comparison, st: State, m: MSocket, a: Answer, accepted: bool): State
    requires Has(st, m)
  {
    var d := st.lookups[m];
    if d.candidate.None? then st
    else if Terminal(a.result) then AFailed(st, m, a)
    else if (a.result != NoError && d.retries == 0) || !a.rtype.IPv4A? || a.count != 1 then
      Retry(st, m, d.(candidate := None), accepted)
    else AFound(cmp, st, m, a)
  }

  // ----- The multiplexer (msocket/mux.c) ---------------------------------------------------

  /** The four tables have a slot for every descriptor below the limit. */
  predicate Shaped(st: State) {
    |st.list| == |st.corpses| == |st.revents| == |st.wevents| == HIGHSOCK
  }

  /** Every descriptor's listed socket is allocated and knows its descriptor. */
  ghost predicate Listed(st: State)
    requires Shaped(st)
  {
    forall i :: 0 <= i < HIGHSOCK && st.list[i] != null ==>
      st.list[i] in st.socks && st.socks[st.list[i]].fd == i
  }

  function WithFlags(s: Sock, f: Flags): Sock {
    s.(flags := f)
  }

  /** lms_mux_addfd */
  function AddFd(st: State, m: MSocket): State
    requires Shaped(st) && m in st.socks && 0 <= st.socks[m].fd < HIGHSOCK
  {
    var s := st.socks[m];
    Put(st, m, WithFlags(s, s.flags.(muxActive := true)))
      .(revents := st.revents[s.fd := m], wevents := st.wevents[s.fd := m])
  }

  /** lms_mux_remfd */
  function RemFd(st: State, fd: int): State
    requires Shaped(st) && fd < HIGHSOCK
    requires 0 <= fd && st.list[fd] != null ==> st.list[fd] in st.socks
  {
    if fd < 0 || st.revents[fd] == null || st.wevents[fd] == null then st
    else
      var mso := st.list[fd];
      var st1 := if mso == null then st
                 else Put(st, mso, WithFlags(st.socks[mso], st.socks[mso].flags.(muxActive := false)));
      st1.(revents := st.revents[fd := null], wevents := st.wevents[fd := null])
  }

  // ----- Sockets (msocket/socket.c) --------------------------------------------------------

  predicate AtFd(st: State, m: MSocket) {
    Has(st, m) && 0 <= st.socks[m].fd < HIGHSOCK
  }

  predicate Waiting(st: State, m: MSocket)
    requires Has(st, m)
  {
    st.lookups[m].waiting || st.socks[m].flags.waitIdent
  }

  /** The shutdown of lines 350 to 369: a stream loses CONNECTED, otherwise a datagram READY. */
  function ShutDown(s: Sock): Sock {
    if s.kind.LocalListen? then s
    else if s.flags.connected then WithFlags(s, s.flags.(connected := false))
    else if s.flags.ready then WithFlags(s, s.flags.(ready := false))
    else s
  }

  function Free(st: State, m: MSocket): State {
    st.(socks := st.socks - {m}, lookups := st.lookups - {m})
  }

  /** The flags a destroyed socket keeps while a query of its is outstanding. */
  function Corpse(s: Sock): Sock {
    WithFlags(s, s.flags.(waitDestroy := true, connected := false, ready := false))
  }

  /** lms_socket_destroy from line 346 on: unlist and shut down a socket, or look at a corpse
      again; then free it unless something is still awaited. */
  function Dismantle(st: State, m: MSocket): State
    requires Shaped(st) && AtFd(st, m)
  {
    var s := st.socks[m];
    if !s.flags.waitDestroy then
      var st1 := st.(list := st.list[s.fd := null]);
      if Waiting(st, m) then Put(st1, m, Corpse(ShutDown(s))).(corpses := st.corpses[s.fd := m])
      else Free(st1, m)
    else if Waiting(st, m) then st.(corpses := st.corpses[s.fd := m])
    else Free(st.(corpses := st.corpses[s.fd := null]), m)
  }

  /** lms_socket_destroy */
  function Destroy(st: State, m: MSocket): State
    requires Shaped(st) && Listed(st) && AtFd(st, m)
  {
    Dismantle(if st.socks[m].flags.muxActive then RemFd(st, st.socks[m].fd) else st, m)
  }

  /** The write callback, which is the flush of the queue, got something out or did not. */
  function AfterWrite(st: State, m: MSocket, sent: bool): State
    requires m in st.socks
  {
    if sent then Put(st, m, st.socks[m].(lastSend := st.now)) else st
  }

  /** lms_socket_close; a corpse is refused. */
  function Close(st: State, m: MSocket, sent: bool): State
    requires Shaped(st) && Listed(st) && AtFd(st, m)
  {
    if st.socks[m].flags.waitDestroy then st
    else Destroy(AfterWrite(if st.socks[m].flags.muxActive then RemFd(st, st.socks[m].fd) else st, m, sent), m)
  }

  /** Line 508 reads the flags of the listed socket at i, whether there is one or not. */
  predicate ReadsAreDefined(st: State, i: nat)
    requires Shaped(st) && i < HIGHSOCK
  {
    st.corpses[i] != null ==> st.list[i] != null
  }

  function KeepAlive(kind: SockType): int {
    if kind.LocalClient? then LOCALKEEPALIVE else MAXKEEPALIVE
  }

  predicate IsListener(kind: SockType) {
    kind.Listen4? || kind.Listen6? || kind.LocalListen?
  }

  predicate TimedOut(s: Sock, now: int) {
    s.flags.waitConn && s.connStart < now - s.connTo
  }

  predicate Idle(s: Sock, now: int) {
    && !IsListener(s.kind)
    && !s.allowIdle
    && s.lastRecv <= now - KeepAlive(s.kind)
    && s.lastSend <= now - KeepAlive(s.kind)
  }

  ghost predicate Fds(st: State)
    requires Shaped(st)
  {
    && (forall m :: m in st.socks ==> AtFd(st, m))
    && Listed(st)
    && (forall i :: 0 <= i < HIGHSOCK && st.corpses[i] != null ==>
          st.corpses[i] in st.socks && st.socks[st.corpses[i]].fd == i)
  }

  /** One round of the loop of lms_socket_housekeeping.  `sent` are the descriptors whose queue
      flush gets something out; the error callback is the default one, which destroys. */
  function HouseAt(st: State, i: nat, sent: set<int>): State
    requires Shaped(st) && Fds(st) && i < HIGHSOCK && ReadsAreDefined(st, i)
  {
    var c, l := st.corpses[i], st.list[i];
    if c != null && st.socks[c].flags.waitDestroy && !Waiting(st, l) then Destroy(st, c)
    else if l == null then st
    else if TimedOut(st.socks[l], st.now) || Idle(st.socks[l], st.now) then Destroy(st, l)
    else AfterWrite(st, l, i in sent && !IsListener(st.socks[l].kind) && !st.socks[l].allowIdle)
  }

  /** The rounds from i on.  A round whose reads are undefined stops the program. */
  ghost function HouseFrom(st: State, i: nat, sent: set<int>): State
    decreases HIGHSOCK - i
  {
    if i < HIGHSOCK && Shaped(st) && Fds(st) && ReadsAreDefined(st, i)
    then HouseFrom(HouseAt(st, i, sent), i + 1, sent)
    else st
  }

  /** The rounds from i on come to a read of the flags of a null pointer. */
  ghost predicate Faults(st: State, i: nat, sent: set<int>)
    decreases HIGHSOCK - i
  {
    && i < HIGHSOCK && Shaped(st) && Fds(st)
    && (ReadsAreDefined(st, i) ==> Faults(HouseAt(st, i, sent), i + 1, sent))
  }

  /** The round destroys a listed socket, which is what housekeeping counts. */
  ghost predicate Reaps(st: State, i: nat)
    requires Shaped(st) && Fds(st) && i < HIGHSOCK && ReadsAreDefined(st, i)
  {
    var c, l := st.corpses[i], st.list[i];
    && !(c != null && st.socks[c].flags.waitDestroy && !Waiting(st, l))
    && l != null
    && (TimedOut(st.socks[l], st.now) || Idle(st.socks[l], st.now))
  }

  ghost function ReapedFrom(st: State, i: nat, sent: set<int>): nat
    decreases HIGHSOCK - i
  {
    if i < HIGHSOCK && Shaped(st) && Fds(st) && ReadsAreDefined(st, i)
    then (if Reaps(st, i) then 1 else 0) + ReapedFrom(HouseAt(st, i, sent), i + 1, sent)
    else 0
  }

  // ----- Steps -----------------------------------------------------------------------------

  datatype Step =
    | Open(m: MSocket, fd: int, kind: SockType, allowIdle: bool, host: IpText,
           connected: bool, ready: bool, waitConn: bool, connTo: nat)
    | AddToMux(m: MSocket)
    | RemoveFromMux(fd: int)
    | StartLookup(m: MSocket, accepted: bool)
    | PtrReply(q: Query, a: Answer, accepted: bool)
    | AReply(q: Query, a: Answer, accepted: bool)
    | DestroySocket(m: MSocket)
    | CloseSocket(m: MSocket, sent: bool)
    | Readable(fd: int, gone: bool)
    | Writable(fd: int, sent: bool)
    | Housekeeping(flushed: set<int>)
    | CleanCache
    | ForwardLookup(accepted: bool)
    | ForwardReply(name: string, a: Answer)
    | Tick(now: int)

  /** What the kernel, the resolver and the application may do in a state.  A descriptor the
      kernel hands out is not in use, evdns answers accepted queries, once each, and passes no
      records with an error; an application starts no second lookup on a socket and none on a
      destroyed one; time does not go back. */
  predicate Enabled(st: State, step: Step) {
    match step
    case Open(m, fd, _, _, _, _, _, _, _) =>
      m !in st.socks && 0 <= fd < HIGHSOCK && (fd < |st.list| ==> st.list[fd] == null)
    case AddToMux(m) =>
      m in st.socks && !st.socks[m].flags.waitDestroy && !st.socks[m].flags.muxActive
    case RemoveFromMux(fd) => fd < HIGHSOCK
    case StartLookup(m, _) =>
      Has(st, m) && !st.socks[m].flags.waitDestroy && !st.lookups[m].waiting
    case PtrReply(q, _, _) => q in st.env.queries && q.phase.PtrPhase?
    case AReply(q, a, _) => q in st.env.queries && q.phase.APhase? && (a.result != NoError ==> a.count == 0)
    case DestroySocket(m) => m in st.socks
    case CloseSocket(m, _) => m in st.socks
    case Readable(fd, _) => 0 <= fd < |st.revents| && st.revents[fd] != null
    case Writable(fd, _) => 0 <= fd < |st.wevents| && st.wevents[fd] != null
    case Housekeeping(_) => true
    case CleanCache => true
    case ForwardLookup(_) => true
    case ForwardReply(_, _) => st.env.forward > 0
    case Tick(now) => st.now <= now
  }

  /** Every memory access of the step goes to an allocated socket or an existing slot. */
  ghost predicate Defined(st: State, step: Step) {
    Shaped(st) &&
    match step
    case Open(_, fd, _, _, _, _, _, _, _) => 0 <= fd < HIGHSOCK
    case AddToMux(m) => AtFd(st, m)
    case RemoveFromMux(fd) => fd < HIGHSOCK && (0 <= fd && st.list[fd] != null ==> st.list[fd] in st.socks)
    case StartLookup(m, _) => Has(st, m)
    case PtrReply(q, _, _) => Has(st, q.m)
    case AReply(q, _, _) => Has(st, q.m)
    case DestroySocket(m) => Listed(st) && AtFd(st, m)
    case CloseSocket(m, _) => Listed(st) && AtFd(st, m)
    case Readable(fd, _) =>
      0 <= fd < HIGHSOCK && st.revents[fd] != null && Listed(st) && AtFd(st, st.revents[fd])
    case Writable(fd, _) =>
      0 <= fd < HIGHSOCK && st.wevents[fd] != null && AtFd(st, st.wevents[fd])
    case Housekeeping(flushed) => Fds(st) && !Faults(st, 0, flushed)
    case CleanCache => true
    case ForwardLookup(_) => true
    case ForwardReply(_, _) => true
    case Tick(_) => true
  }

  /** A socket as lms_socket_create and the open calls leave it. */
  function Opened(now: int, fd: int, kind: SockType, allowIdle: bool, host: IpText,
                  connected: bool, ready: bool, waitConn: bool, connTo: nat): Sock {
    Sock(kind, allowIdle, host, fd, Flags(connected, ready, false, false, false, waitConn),
         now, now, if waitConn then now else 0, connTo)
  }

  /** lms_conn_default_error */
  function ErrorCallback(st: State, m: MSocket): State
    requires Shaped(st) && Listed(st) && AtFd(st, m)
  {
    if st.socks[m].flags.waitDestroy && Waiting(st, m) then st else Destroy(st, m)
  }

  /** _lms_mux_default_read on a stream: the peer went away, or something arrived. */
  function ReadEvent(st: State, m: MSocket, gone: bool): State
    requires Shaped(st) && Listed(st) && AtFd(st, m)
  {
    var s := st.socks[m];
    if !(s.kind.Stream4? || s.kind.Stream6?) || !s.flags.connected then st
    else if gone then ErrorCallback(st, m)
    else Put(st, m, s.(lastRecv := st.now))
  }

  /** _lms_mux_default_write */
  function WriteEvent(st: State, m: MSocket, sent: bool): State
    requires m in st.socks
  {
    var s := WithFlags(st.socks[m], st.socks[m].flags.(waitConn := false, connected := true));
    Put(st, m, if sent then s.(lastSend := st.now) else s)
  }

  /** lms_dns_recv: a forward answer may be cached under the host it was asked for. */
  function ForwardAnswer(st: State, host: string, a: Answer): State {
    var left := if st.env.forward > 0 then st.env.forward - 1 else 0;
    var st1 := LogA(st.(active := st.active - 1, env := st.env.(forward := left)), host, a);
    if a.result.NotExist? then Cached(st1, A, None, Some(host), a.ttl)
    else if a.result == NoError && a.rtype.IPv4A? && a.count >= 1 then
      Cached(st1, A, Some(a.addr), Some(host), a.ttl)
    else st1
  }

  /** An accepted forward query. */
  function Forwarded(st: State): State {
    st.(active := st.active + 1, env := st.env.(forward := st.env.forward + 1))
  }

  ghost function Apply(cmp: Comparison, st: State, step: Step): State
    requires Defined(st, step)
  {
    match step
    case Open(m, fd, kind, allowIdle, host, connected, ready, waitConn, connTo) =>
      Put(st, m, Opened(st.now, fd, kind, allowIdle, host, connected, ready, waitConn, connTo))
        .(lookups := st.lookups[m := NO_LOOKUP], list := st.list[fd := m],
          env := st.env.(issued := st.env.issued[m := 0]))
    case AddToMux(m) => AddFd(st, m)
    case RemoveFromMux(fd) => RemFd(st, fd)
    case StartLookup(m, accepted) =>
      FindRev(st.(env := st.env.(issued := st.env.issued[m := 0])), m, accepted)
    case PtrReply(q, a, accepted) => PtrAnswer(LogPtr(Answered(st, q), q, a), q.m, a, accepted)
    case AReply(q, a, accepted) => AAnswer(cmp, LogA(Answered(st, q), q.target, a), q.m, a, accepted)
    case DestroySocket(m) => Destroy(st, m)
    case CloseSocket(m, sent) => Close(st, m, sent)
    case Readable(fd, gone) => ReadEvent(st, st.revents[fd], gone)
    case Writable(fd, sent) => WriteEvent(st, st.wevents[fd], sent)
    case Housekeeping(flushed) => HouseFrom(st, 0, flushed)
    case CleanCache => st.(cache := Sweep(st.cache, st.now))
    case ForwardLookup(accepted) =>
      if accepted then Forwarded(st) else st
    case ForwardReply(host, a) => ForwardAnswer(st, host, a)
    case Tick(now) => st.(now := now)
  }

  /** A run: every step was possible, and the next state is what the library makes of it.  Where
      a step is undefined the program is free to do anything, so nothing is asked of what follows. */
  ghost predicate IsRun(cmp: Comparison, states: seq<State>, steps: seq<Step>) {
    && |states| == |steps| + 1
    && (exists now :: states[0] == Init(now))
    && forall i :: 0 <= i < |steps| ==>
         Enabled(states[i], steps[i]) && Defined(states[i], steps[i]) &&
         states[i + 1] == Apply(cmp, states[i], steps[i])
  }
}
