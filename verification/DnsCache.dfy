/** The resolver cache of msocket/dns.c: a fixed array of slots, filled first-free,
    read by linear search, emptied by sweeps.  The pure functions below describe the
    slot array as a sequence; class Cache is the array itself. */
module DnsCache {
  import opened Common

  const MAXDNSCACHE := 30000

  datatype RecordType = NoType | A | Cname | Ptr | Txt | Mx

  datatype Entry = Entry(rtype: RecordType, negative: bool, ip: string, host: string, expiry: int)

  type Slots = seq<Option<Entry>>

  /** Outcome of an addition, in the order of the C return values 0, -1, -2, -4. */
  datatype AddResult = Added | NothingToAdd | BadType | CacheFull

  function Lower(c: char): char {
    if 'A' <= c <= 'Z' then c + 32 as char else c
  }

  /** strcasecmp(a, b) == 0 */
  predicate SameHost(a: string, b: string) {
    |a| == |b| && forall i :: 0 <= i < |a| ==> Lower(a[i]) == Lower(b[i])
  }

  /** The entry answers a question of type t about h. */
  predicate Answers(e: Entry, h: string, t: RecordType) {
    e.rtype == t && ((t.Ptr? && e.ip == h) || (t.A? && SameHost(e.host, h)))
  }

  /** How long an answer reported with this time to live is kept. */
  function Lifetime(ttl: int): (r: int)
    ensures 300 <= r <= 86400
  {
    if ttl <= 0 then 600 else if ttl <= 299 then 300 else if ttl <= 86400 then ttl else 86400
  }

  function OrEmpty(s: Option<string>): string {
    match s
    case None => ""
    case Some(t) => t
  }

  /** The record an addition stores.  The C code takes the length of a null host at
      line 853 before testing it at line 860; a null host is stored as empty here. */
  function MakeEntry(t: RecordType, ip: Option<string>, host: Option<string>, ttl: int, now: int): Entry {
    var negative := (ip.Some? && host.None? && t.Ptr?) || (ip.None? && host.Some? && t.A?);
    var text := OrEmpty(ip);
    Entry(t, negative, text[..Min(|text|, 16)], OrEmpty(host), now + Lifetime(ttl))
  }

  function FirstFrom(s: Slots, i: nat, h: string, t: RecordType): Option<Entry>
    requires i <= |s|
    decreases |s| - i
  {
    if i == |s| then None
    else if s[i].Some? && Answers(s[i].value, h, t) then s[i]
    else FirstFrom(s, i + 1, h, t)
  }

  function Find(s: Slots, h: string, t: RecordType): Option<Entry> {
    FirstFrom(s, 0, h, t)
  }

  function FreeFrom(s: Slots, i: nat): (r: nat)
    requires i <= |s|
    ensures i <= r <= |s|
    ensures r < |s| ==> s[r].None?
    ensures forall j :: i <= j < r ==> s[j].Some?
    decreases |s| - i
  {
    if i == |s| || s[i].None? then i else FreeFrom(s, i + 1)
  }

  function Refusal(t: RecordType, ip: Option<string>, host: Option<string>): Option<AddResult> {
    if !t.A? && !t.Ptr? then Some(BadType)
    else if ip.None? && host.None? then Some(NothingToAdd)
    else None
  }

  function Add(s: Slots, t: RecordType, ip: Option<string>, host: Option<string>, ttl: int, now: int)
    : (r: (Slots, AddResult))
    ensures |r.0| == |s|
  {
    if Refusal(t, ip, host).Some? then (s, Refusal(t, ip, host).value)
    else
      var slot := FreeFrom(s, 0);
      if slot == |s| then (s, CacheFull)
      else (s[slot := Some(MakeEntry(t, ip, host, ttl, now))], Added)
  }

  function Swept(slot: Option<Entry>, now: int): Option<Entry> {
    if slot.Some? && slot.value.expiry <= now then None else slot
  }

  function Sweep(s: Slots, now: int): (r: Slots)
    ensures |r| == |s|
  {
    seq(|s|, i requires 0 <= i < |s| => Swept(s[i], now))
  }

  /** A lookup is the first slot in index order that answers, and misses only when none does. */
  lemma {:induction false} FirstFromIsFirst(s: Slots, i: nat, h: string, t: RecordType)
    requires i <= |s|
    ensures FirstFrom(s, i, h, t).Some? <==>
            exists k :: i <= k < |s| && s[k].Some? && Answers(s[k].value, h, t)
    ensures FirstFrom(s, i, h, t).Some? ==>
              exists k :: i <= k < |s| && s[k] == FirstFrom(s, i, h, t) && Answers(s[k].value, h, t)
                          && forall j :: i <= j < k ==> s[j].Some? ==> !Answers(s[j].value, h, t)
    decreases |s| - i
  {
    if i < |s| {
      if s[i].Some? && Answers(s[i].value, h, t) {
        assert s[i] == FirstFrom(s, i, h, t);
      } else {
        FirstFromIsFirst(s, i + 1, h, t);
        if FirstFrom(s, i + 1, h, t).Some? {
          var k :| i + 1 <= k < |s| && s[k] == FirstFrom(s, i + 1, h, t) && Answers(s[k].value, h, t)
                   && forall j :: i + 1 <= j < k ==> s[j].Some? ==> !Answers(s[j].value, h, t);
          assert forall j :: i <= j < k ==> s[j].Some? ==> !Answers(s[j].value, h, t);
        }
      }
    }
  }

  /** What an addition may do to the array: nothing when refused or full, otherwise fill
      exactly one slot that was empty.  It is refused for space exactly when no slot is free. */
  lemma AddFillsAnEmptySlot(s: Slots, t: RecordType, ip: Option<string>, host: Option<string>, ttl: int, now: int)
    ensures var (s', r) := Add(s, t, ip, host, ttl, now);
            && (r == CacheFull <==> Refusal(t, ip, host).None? && forall i :: 0 <= i < |s| ==> s[i].Some?)
            && (r != Added ==> s' == s)
            && (forall i :: 0 <= i < |s| && s[i].Some? ==> s'[i] == s[i])
            && (r == Added ==>
                  exists k ::
                    0 <= k < |s| && s[k].None? && s' == s[k := Some(MakeEntry(t, ip, host, ttl, now))])
  {
    var slot := FreeFrom(s, 0);
    if slot < |s| {
      assert s[slot].None?;
    }
  }

  // ----- The log of additions and sweeps ---------------------------------------------------

  datatype Op =
    | AddOp(rtype: RecordType, ip: Option<string>, host: Option<string>, ttl: int, now: int)
    | SweepOp(now: int)

  function ApplyOp(s: Slots, op: Op): (r: Slots)
    ensures |r| == |s|
  {
    match op
    case AddOp(t, ip, host, ttl, now) => Add(s, t, ip, host, ttl, now).0
    case SweepOp(now) => Sweep(s, now)
  }

  function Empty(capacity: nat): (r: Slots)
    ensures |r| == capacity
  {
    seq(capacity, _ => None)
  }

  /** The slots after a whole history, oldest operation first. */
  function After(capacity: nat, ops: seq<Op>): (r: Slots)
    ensures |r| == capacity
  {
    if ops == [] then Empty(capacity) else ApplyOp(After(capacity, ops[..|ops| - 1]), ops[|ops| - 1])
  }

  function EntryOf(op: Op): Entry
    requires op.AddOp?
  {
    MakeEntry(op.rtype, op.ip, op.host, op.ttl, op.now)
  }

  /** The i-th operation was an addition and was accepted. */
  predicate Accepted(capacity: nat, ops: seq<Op>, i: nat)
    requires i < |ops|
  {
    ops[i].AddOp? &&
    Add(After(capacity, ops[..i]), ops[i].rtype, ops[i].ip, ops[i].host, ops[i].ttl, ops[i].now).1 == Added
  }

  /** The i-th operation was an accepted addition that no later sweep has reached. */
  predicate Alive(capacity: nat, ops: seq<Op>, i: int) {
    && 0 <= i < |ops|
    && Accepted(capacity, ops, i)
    && forall j :: i < j < |ops| && ops[j].SweepOp? ==> ops[j].now < EntryOf(ops[i]).expiry
  }

  /** The record is the one stored by some addition that is still alive. */
  ghost predicate FromLog(capacity: nat, ops: seq<Op>, e: Entry) {
    exists i :: Alive(capacity, ops, i) && EntryOf(ops[i]) == e
  }

  lemma AlivePrefix(capacity: nat, ops: seq<Op>, i: int)
    requires ops != []
    ensures var n := |ops| - 1;
            Alive(capacity, ops, i) <==>
            if 0 <= i < n then
              Alive(capacity, ops[..n], i) && (ops[n].SweepOp? ==> ops[n].now < EntryOf(ops[i]).expiry)
            else i == n && Accepted(capacity, ops, n)
  {
    var n := |ops| - 1;
    var front := ops[..n];
    if 0 <= i < n {
      assert front[..i] == ops[..i];
      if Alive(capacity, front, i) && (ops[n].SweepOp? ==> ops[n].now < EntryOf(ops[i]).expiry) {
        forall j | i < j < |ops| && ops[j].SweepOp?
          ensures ops[j].now < EntryOf(ops[i]).expiry
        {
          if j < n { assert front[j] == ops[j]; }
        }
      }
      if Alive(capacity, ops, i) {
        forall j | i < j < n && front[j].SweepOp?
          ensures front[j].now < EntryOf(front[i]).expiry
        {
          assert front[j] == ops[j];
        }
      }
    }
  }

  /** One operation on the log side. */
  lemma LogStep(capacity: nat, ops: seq<Op>, e: Entry)
    requires ops != []
    ensures var n := |ops| - 1;
            FromLog(capacity, ops, e) <==>
            match ops[n]
            case AddOp(_, _, _, _, _) =>
              FromLog(capacity, ops[..n], e) || (Accepted(capacity, ops, n) && EntryOf(ops[n]) == e)
            case SweepOp(now) =>
              FromLog(capacity, ops[..n], e) && now < e.expiry
  {
    var n := |ops| - 1;
    var front := ops[..n];
    if i :| Alive(capacity, ops, i) && EntryOf(ops[i]) == e {
      AlivePrefix(capacity, ops, i);
      assert i < n ==> front[i] == ops[i];
    }
    if i :| Alive(capacity, front, i) && EntryOf(front[i]) == e {
      AlivePrefix(capacity, ops, i);
      assert front[i] == ops[i];
    }
    AlivePrefix(capacity, ops, n);
  }

  /** One operation on the array side. */
  lemma AddStep(s: Slots, op: Op, e: Entry)
    requires op.AddOp?
    ensures Some(e) in ApplyOp(s, op) <==>
            Some(e) in s ||
            (Add(s, op.rtype, op.ip, op.host, op.ttl, op.now).1 == Added && EntryOf(op) == e)
  {
    var slot := FreeFrom(s, 0);
    var s' := ApplyOp(s, op);
    if slot < |s| && s' == s[slot := Some(EntryOf(op))] {
      assert s'[slot] == Some(EntryOf(op));
      if Some(e) in s {
        var k :| 0 <= k < |s| && s[k] == Some(e);
        assert s'[k] == Some(e);
      }
    }
  }

  lemma SweepStep(s: Slots, now: int, e: Entry)
    ensures Some(e) in Sweep(s, now) <==> Some(e) in s && now < e.expiry
  {
    var s' := Sweep(s, now);
    if Some(e) in s && now < e.expiry {
      var k :| 0 <= k < |s| && s[k] == Some(e);
      assert s'[k] == Some(e);
    }
  }

  /** The array holds exactly the records of the additions that are still alive. */
  lemma {:induction false} CacheAgreesWithLog(capacity: nat, ops: seq<Op>, e: Entry)
    ensures Some(e) in After(capacity, ops) <==> FromLog(capacity, ops, e)
  {
    if ops == [] {
      assert After(capacity, ops) == Empty(capacity);
    } else {
      var n := |ops| - 1;
      CacheAgreesWithLog(capacity, ops[..n], e);
      LogStep(capacity, ops, e);
      match ops[n]
      case AddOp(_, _, _, _, _) => AddStep(After(capacity, ops[..n]), ops[n], e);
      case SweepOp(now) => SweepStep(After(capacity, ops[..n]), now, e);
    }
  }

  lemma FindFinds(s: Slots, h: string, t: RecordType)
    ensures Find(s, h, t).Some? ==> Find(s, h, t) in s && Answers(Find(s, h, t).value, h, t)
    ensures forall e :: Some(e) in s && Answers(e, h, t) ==> Find(s, h, t).Some?
  {
    FirstFromIsFirst(s, 0, h, t);
    forall e | Some(e) in s && Answers(e, h, t)
      ensures Find(s, h, t).Some?
    {
      var k :| 0 <= k < |s| && s[k] == Some(e);
    }
  }

  /** A lookup succeeds exactly when some accepted addition under that key was not swept since,
      and what it returns is such an addition's record. */
  lemma LookupAgreesWithLog(capacity: nat, ops: seq<Op>, h: string, t: RecordType)
    ensures var r := Find(After(capacity, ops), h, t);
            && (r.Some? <==> exists i :: Alive(capacity, ops, i) && Answers(EntryOf(ops[i]), h, t))
            && (r.Some? ==> FromLog(capacity, ops, r.value) && Answers(r.value, h, t))
  {
    var s := After(capacity, ops);
    FindFinds(s, h, t);
    if Find(s, h, t).Some? {
      CacheAgreesWithLog(capacity, ops, Find(s, h, t).value);
    }
    if i :| Alive(capacity, ops, i) && Answers(EntryOf(ops[i]), h, t) {
      CacheAgreesWithLog(capacity, ops, EntryOf(ops[i]));
    }
  }

  /** Whatever time to live was reported, an accepted record is findable under its own key
      as long as every later sweep comes less than 300 seconds after the addition. */
  lemma KeptFiveMinutes(capacity: nat, ops: seq<Op>, i: nat)
    requires i < |ops| && Accepted(capacity, ops, i)
    requires forall j :: i < j < |ops| && ops[j].SweepOp? ==> ops[j].now < ops[i].now + 300
    ensures var e := EntryOf(ops[i]);
            Find(After(capacity, ops), if e.rtype.Ptr? then e.ip else e.host, e.rtype).Some?
  {
    var e := EntryOf(ops[i]);
    assert Alive(capacity, ops, i);
    assert Answers(e, if e.rtype.Ptr? then e.ip else e.host, e.rtype);
    LookupAgreesWithLog(capacity, ops, if e.rtype.Ptr? then e.ip else e.host, e.rtype);
  }

  /** After a sweep no record in the array stems only from additions a day or more older than it. */
  lemma GoneAfterADay(capacity: nat, ops: seq<Op>, s: nat, e: Entry)
    requires s < |ops| && ops[s].SweepOp?
    requires Some(e) in After(capacity, ops)
    ensures exists i :: Alive(capacity, ops, i) && EntryOf(ops[i]) == e
                        && (s < i || ops[s].now < ops[i].now + 86400)
  {
    CacheAgreesWithLog(capacity, ops, e);
    var i :| Alive(capacity, ops, i) && EntryOf(ops[i]) == e;
    assert i < s ==> ops[s].now < EntryOf(ops[i]).expiry;
  }

  // ----- The array -------------------------------------------------------------------------

  class Cache {
    const slots: array<Option<Entry>>

    constructor ()
      ensures fresh(slots) && slots[..] == Empty(MAXDNSCACHE)
    {
      slots := new Option<Entry>[MAXDNSCACHE](_ => None);
    }

    /** _lms_dns_findincache */
    method FindInCache(h: string, t: RecordType) returns (r: Option<Entry>)
      ensures r == Find(slots[..], h, t)
    {
      var i := 0;
      while i < slots.Length
        invariant 0 <= i <= slots.Length
        invariant Find(slots[..], h, t) == FirstFrom(slots[..], i, h, t)
      {
        var c := slots[i];
        if c.Some? && c.value.rtype == t {
          if t.Ptr? && c.value.ip == h { return c; }
          if t.A? && SameHost(c.value.host, h) { return c; }
        }
        i := i + 1;
      }
      return None;
    }

    /** _lms_dns_getcacheslot */
    method GetCacheSlot() returns (r: nat)
      ensures r == FreeFrom(slots[..], 0)
      ensures r <= slots.Length
    {
      r := 0;
      while r < slots.Length
        invariant 0 <= r <= slots.Length
        invariant FreeFrom(slots[..], 0) == FreeFrom(slots[..], r)
      {
        if slots[r].None? { return; }
        r := r + 1;
      }
    }

    /** _lms_dns_addcache */
    method AddCache(t: RecordType, ip: Option<string>, host: Option<string>, ttl: int, now: int)
      returns (r: AddResult)
      modifies slots
      ensures (slots[..], r) == Add(old(slots[..]), t, ip, host, ttl, now)
    {
      if !t.A? && !t.Ptr? { return BadType; }
      if ip.None? && host.None? { return NothingToAdd; }
      var negative := false;
      if ip.Some? && host.None? && t.Ptr? {
        negative := true;
      } else if ip.None? && host.Some? && t.A? {
        negative := true;
      }
      var slot := GetCacheSlot();
      if slot == slots.Length { return CacheFull; }
      var text := OrEmpty(ip);
      var expiry;
      if ttl <= 0 {
        expiry := now + 600;
      } else if ttl <= 299 {
        expiry := now + 300;
      } else if ttl <= 86400 {
        expiry := now + ttl;
      } else {
        expiry := now + 86400;
      }
      slots[slot] := Some(Entry(t, negative, text[..Min(|text|, 16)], OrEmpty(host), expiry));
      return Added;
    }

    /** lms_dns_cleancache */
    method CleanCache(now: int)
      modifies slots
      ensures slots[..] == Sweep(old(slots[..]), now)
    {
      var i := 0;
      while i < slots.Length
        invariant 0 <= i <= slots.Length
        invariant forall k :: 0 <= k < i ==> slots[k] == Swept(old(slots[k]), now)
        invariant forall k :: i <= k < slots.Length ==> slots[k] == old(slots[k])
      {
        if slots[i].Some? && slots[i].value.expiry <= now {
          slots[i] := None;
        }
        i := i + 1;
      }
    }
  }
}
