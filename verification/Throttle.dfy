/** The throttle list of msocket/conn.c: a chain followed from its tail that behaves like a map from
    addresses to offences, and what the counts mean over a whole run. */
module Throttle {
  import opened Common

  const EXPIRE := 1800
  const AFTER := 5
  const WIDTH := 0x1_0000_0000

  datatype Mark = Mark(offenses: nat, lastBad: int)

  type Marks = map<nat, Mark>

  // ----- What each operation does to the map -----------------------------------------------

  function Marked(m: Marks, addr: nat, now: int): Marks {
    m[addr := if addr in m then Mark((m[addr].offenses + 1) % WIDTH, now) else Mark(1, now)]
  }

  /** clock(a) is the reading of the clock when the entry of a is looked at. */
  function Expired(m: Marks, clock: nat -> int): Marks {
    map a | a in m && m[a].lastBad >= clock(a) - EXPIRE :: m[a]
  }

  /** The offences reported for an address; the zero address has none. */
  function Offenses(m: Marks, addr: nat): nat {
    if addr != 0 && addr in m then m[addr].offenses else 0
  }

  // ----- What the counts mean --------------------------------------------------------------

  datatype Op = Bad(addr: nat, now: int) | Expire(clock: nat -> int)

  ghost function Apply(m: Marks, op: Op): Marks {
    match op
    case Bad(addr, now) => Marked(m, addr, now)
    case Expire(clock) => Expired(m, clock)
  }

  ghost function After(ops: seq<Op>): Marks {
    if ops == [] then map[] else Apply(After(ops[..|ops| - 1]), ops[|ops| - 1])
  }

  ghost function LastBad(ops: seq<Op>, addr: nat): Option<int> {
    if ops == [] then None
    else
      var op := ops[|ops| - 1];
      if op.Bad? && op.addr == addr then Some(op.now) else LastBad(ops[..|ops| - 1], addr)
  }

  /** The last mark of addr was more than half an hour old when the i-th operation, a pass of
      expiry, looked. */
  ghost predicate Lapsed(ops: seq<Op>, addr: nat, i: nat)
    requires i < |ops|
  {
    && ops[i].Expire? && LastBad(ops[..i], addr).Some?
    && LastBad(ops[..i], addr).value < ops[i].clock(addr) - 1800
  }

  /** How often addr was marked from the i-th operation on. */
  ghost function MarksFrom(ops: seq<Op>, addr: nat, i: nat): nat
    decreases |ops|
  {
    if |ops| <= i then 0
    else
      var op := ops[|ops| - 1];
      MarksFrom(ops[..|ops| - 1], addr, i) + if op.Bad? && op.addr == addr then 1 else 0
  }

  /** Every lapse of addr lies before the i-th operation, which comes right after one or first. */
  ghost predicate SinceLapse(ops: seq<Op>, addr: nat, i: nat) {
    && i <= |ops| && (i > 0 ==> Lapsed(ops, addr, i - 1))
    && forall j: nat :: i <= j < |ops| ==> !Lapsed(ops, addr, j)
  }

  lemma LapsedInMore(ops: seq<Op>, addr: nat, i: nat)
    requires i < |ops| - 1
    ensures Lapsed(ops[..|ops| - 1], addr, i) == Lapsed(ops, addr, i)
  {
    assert ops[..|ops| - 1][..i] == ops[..i];
  }

  /** What is known of addr when n of its marks came since its last lapse. */
  ghost predicate CountIs(ops: seq<Op>, addr: nat, n: nat) {
    var m := After(ops);
    && (addr in m <==> n > 0)
    && (n > 0 ==> m[addr].offenses == n % WIDTH && LastBad(ops, addr) == Some(m[addr].lastBad))
  }

  lemma CountAfterLapse(ops: seq<Op>, addr: nat, n: nat)
    requires ops != [] && CountIs(ops[..|ops| - 1], addr, n)
    requires Lapsed(ops, addr, |ops| - 1)
    ensures CountIs(ops, addr, 0)
  {
    var k := |ops| - 1;
    assert ops[k].Expire? && LastBad(ops, addr) == LastBad(ops[..k], addr);
    assert After(ops) == Expired(After(ops[..k]), ops[k].clock);
  }

  lemma CountAfterStep(ops: seq<Op>, addr: nat, n: nat)
    requires ops != [] && !Lapsed(ops, addr, |ops| - 1) && CountIs(ops[..|ops| - 1], addr, n)
    ensures var op := ops[|ops| - 1]; CountIs(ops, addr, n + if op.Bad? && op.addr == addr then 1 else 0)
  {
    var k := |ops| - 1;
    var was, m, op := After(ops[..k]), After(ops), ops[k];
    match op
    case Bad(a, now) =>
      assert m == Marked(was, a, now);
    case Expire(clock) =>
      assert m == Expired(was, clock) && LastBad(ops, addr) == LastBad(ops[..k], addr);
  }

  lemma SinceLapseOfFront(ops: seq<Op>, addr: nat, i: nat)
    requires SinceLapse(ops, addr, i) && i < |ops|
    ensures SinceLapse(ops[..|ops| - 1], addr, i) && !Lapsed(ops, addr, |ops| - 1)
  {
    hide Lapsed;
    var front := ops[..|ops| - 1];
    if i > 0 { LapsedInMore(ops, addr, i - 1); }
    forall j: nat | i <= j < |front| ensures !Lapsed(front, addr, j) { LapsedInMore(ops, addr, j); }
  }

  /** The count of an address is the number of its marks since the last lapse, as a 32-bit number,
      and it has an entry exactly when there is such a mark. */
  lemma {:induction false} CountsMarksSinceLapse(ops: seq<Op>, addr: nat, i: nat)
    requires SinceLapse(ops, addr, i)
    ensures var n, m := MarksFrom(ops, addr, i), After(ops);
            && (addr in m <==> n > 0)
            && (n > 0 ==> m[addr].offenses == n % 0x1_0000_0000 && LastBad(ops, addr) == Some(m[addr].lastBad))
  {
    hide Lapsed, After, LastBad;
    assert CountIs(ops, addr, MarksFrom(ops, addr, i)) by {
      if ops == [] {
        NothingMarked(addr);
      } else if i == |ops| {
        var i' := LastLapse(ops[..|ops| - 1], addr);
        CountsMarksSinceLapse(ops[..|ops| - 1], addr, i');
        CountAfterLapse(ops, addr, MarksFrom(ops[..|ops| - 1], addr, i'));
      } else {
        SinceLapseOfFront(ops, addr, i);
        CountsMarksSinceLapse(ops[..|ops| - 1], addr, i);
        CountAfterStep(ops, addr, MarksFrom(ops[..|ops| - 1], addr, i));
      }
    }
  }

  lemma NothingMarked(addr: nat)
    ensures CountIs([], addr, 0)
  {
  }

  lemma {:induction false} LastLapse(ops: seq<Op>, addr: nat) returns (i: nat)
    ensures SinceLapse(ops, addr, i)
  {
    if ops == [] {
      i := 0;
    } else {
      var k := |ops| - 1;
      forall j: nat | j < k ensures Lapsed(ops[..k], addr, j) == Lapsed(ops, addr, j) { LapsedInMore(ops, addr, j); }
      if Lapsed(ops, addr, k) {
        i := k + 1;
      } else {
        i := LastLapse(ops[..k], addr);
      }
    }
  }

  lemma {:induction false} MarksOfBoth(before: seq<Op>, later: seq<Op>, addr: nat, i: nat)
    requires i <= |before|
    ensures MarksFrom(before + later, addr, i) == MarksFrom(before, addr, i) + MarksFrom(later, addr, 0)
    ensures MarksFrom(later, addr, 0) <= |later|
  {
    if later == [] {
      assert before + later == before;
    } else {
      var k := |later| - 1;
      assert (before + later)[..|before| + k] == before + later[..k];
      MarksOfBoth(before, later[..k], addr, i);
    }
  }

  lemma SinceSameLapse(before: seq<Op>, later: seq<Op>, addr: nat, i: nat)
    requires SinceLapse(before, addr, i)
    requires forall j: nat :: |before| <= j < |before + later| ==> !Lapsed(before + later, addr, j)
    ensures SinceLapse(before + later, addr, i)
  {
    forall j: nat | j < |before| ensures Lapsed(before + later, addr, j) == Lapsed(before, addr, j) {
      assert (before + later)[..j] == before[..j];
    }
  }

  /** While no pass finds the latest mark of addr more than half an hour old, its entry stays and its
      count grows by one for every mark, so it stays throttled as long as 32 bits hold the count. */
  lemma StaysThrottled(before: seq<Op>, later: seq<Op>, addr: nat)
    requires addr in After(before)
    requires forall i: nat :: |before| <= i < |before + later| ==> !Lapsed(before + later, addr, i)
    ensures var was, now := After(before)[addr].offenses, After(before + later);
            && addr in now && now[addr].offenses == (was + MarksFrom(later, addr, 0)) % WIDTH
            && (was + |later| < WIDTH ==> now[addr].offenses >= was)
  {
    hide After, MarksFrom, LastBad, Lapsed, SinceLapse;
    var i := LastLapse(before, addr);
    SinceSameLapse(before, later, addr, i);
    CountsMarksSinceLapse(before, addr, i);
    CountsMarksSinceLapse(before + later, addr, i);
    MarksOfBoth(before, later, addr, i);
  }

  /** A client is throttled exactly when its marks since the last lapse, as a 32-bit number, are at
      least five. */
  lemma ThrottledExactly(ops: seq<Op>, addr: nat, i: nat)
    requires SinceLapse(ops, addr, i)
    ensures Offenses(After(ops), addr) >= 5 <==> addr != 0 && MarksFrom(ops, addr, i) % 0x1_0000_0000 >= 5
  {
    hide After, MarksFrom, SinceLapse;
    CountsMarksSinceLapse(ops, addr, i);
  }

  /** Once throttled it stays so, as long as no pass finds its latest mark more than half an hour old
      and 32 bits hold its count. */
  lemma StaysThrottledOnceThrottled(before: seq<Op>, later: seq<Op>, addr: nat)
    requires Offenses(After(before), addr) >= AFTER
    requires forall i: nat :: |before| <= i < |before + later| ==> !Lapsed(before + later, addr, i)
    requires Offenses(After(before), addr) + |later| < WIDTH
    ensures Offenses(After(before + later), addr) >= AFTER
  {
    hide After, Lapsed;
    StaysThrottled(before, later, addr);
  }

  // ----- The chain -------------------------------------------------------------------------

  class Entry {
    const addr: nat
    var lastBad: int
    var offenses: nat
    var prev: Entry?
    var next: Entry?

    constructor (addr: nat)
      ensures this.addr == addr && prev == null && next == null
    {
      this.addr := addr;
      prev, next := null, null;
    }
  }

  /** The index by address of the entries in nodes: no address occurs twice. */
  ghost predicate Indexed(nodes: seq<Entry>, entries: map<nat, Entry>) {
    && (forall i: nat :: i < |nodes| ==> nodes[i].addr in entries && entries[nodes[i].addr] == nodes[i])
    && (forall a :: a in entries ==> entries[a] in nodes && entries[a].addr == a)
  }

  lemma IndexedWith(nodes: seq<Entry>, entries: map<nat, Entry>, e: Entry)
    requires Indexed(nodes, entries) && e.addr !in entries
    ensures Indexed(nodes + [e], entries[e.addr := e])
  {
  }

  lemma IndexedWithout(front: seq<Entry>, e: Entry, rest: seq<Entry>, entries: map<nat, Entry>)
    requires Indexed(front + [e] + rest, entries) && Distinct(front + [e] + rest)
    ensures Indexed(front + rest, entries - {e.addr})
    ensures e.addr in entries && |entries - {e.addr}| == |entries| - 1
  {
    var all := front + [e] + rest;
    assert all[|front|] == e;
    forall i: nat | i < |front + rest| ensures (front + rest)[i] == all[if i < |front| then i else i + 1] {}
    assert entries.Keys == (entries - {e.addr}).Keys + {e.addr};
  }

  ghost function Without(nodes: seq<Entry>, gone: set<Entry>): seq<Entry> {
    if nodes == [] then [] else (if nodes[0] in gone then [] else [nodes[0]]) + Without(nodes[1..], gone)
  }

  lemma {:induction false} InWithout(nodes: seq<Entry>, gone: set<Entry>)
    ensures forall e :: e in Without(nodes, gone) <==> e in nodes && e !in gone
  {
    if nodes == [] {
    } else {
      InWithout(nodes[1..], gone);
      assert forall e :: e in nodes <==> e == nodes[0] || e in nodes[1..];
    }
  }

  class Throttle {
    var last: Entry?
    ghost var nodes: seq<Entry>
    ghost var repr: set<Entry>
    ghost var entries: map<nat, Entry>
    ghost var log: seq<Op>

    ghost predicate Inside()
      reads this`nodes, this`repr
    {
      forall i: nat :: i < |nodes| ==> nodes[i] in repr
    }

    ghost predicate Linked(i: nat)
      requires i < |nodes| && Inside()
      reads this`nodes, this`repr, repr`prev, repr`next
    {
      && nodes[i].prev == (if i == 0 then null else nodes[i - 1])
      && nodes[i].next == (if i == |nodes| - 1 then null else nodes[i + 1])
    }

    ghost predicate Chain()
      reads this`last, this`nodes, this`repr, repr`prev, repr`next
    {
      && Inside() && Distinct(nodes)
      && last == (if nodes == [] then null else nodes[|nodes| - 1])
      && (forall i: nat :: i < |nodes| ==> Linked(i))
    }

    ghost function Contents(): (m: Marks)
      requires Inside() && Indexed(nodes, entries)
      reads this`entries, this`nodes, this`repr, repr`offenses, repr`lastBad
    {
      map a | a in entries :: Mark(entries[a].offenses, entries[a].lastBad)
    }

    ghost predicate Valid()
      reads this, repr
    {
      Chain() && Indexed(nodes, entries) && Contents() == After(log)
    }

    constructor ()
      ensures Valid() && log == [] && repr == {}
    {
      last := null;
      nodes, repr, entries, log := [], {}, map[], [];
    }

    lemma Facts()
      requires Chain() && Indexed(nodes, entries)
      ensures Inside() && forall a :: a in entries ==> entries[a] in repr && entries[a].addr == a
    {
    }

    /** The search from the tail that lms_throttle_check and lms_throttle_setbad begin with. */
    method Find(addr: nat) returns (e: Entry?)
      requires Chain() && Indexed(nodes, entries)
      ensures e == if addr in entries then entries[addr] else null
    {
      e := last;
      ghost var k: nat := |nodes|;
      while e != null && e.addr != addr
        invariant k <= |nodes| && e == if k == 0 then null else nodes[k - 1]
        invariant forall j: nat :: k <= j < |nodes| ==> nodes[j].addr != addr
        decreases k
      {
        assert Linked(k - 1);
        e := e.prev;
        k := k - 1;
      }
    }

    /** lms_throttle_check */
    method Check(addr: nat) returns (n: nat)
      requires Valid()
      ensures n == Offenses(After(log), addr)
    {
      hide After, Chain, Indexed;
      if addr == 0 { return 0; }
      Facts();
      var e := Find(addr);
      if e == null { n := 0; } else { n := e.offenses; }
      assert addr in Contents() <==> addr in entries;
    }

    /** Puts e at the tail. */
    method Append(e: Entry)
      requires Chain() && e !in repr && e.prev == null && e.next == null
      modifies this`last, this`nodes, this`repr, repr`prev, repr`next, e`prev, e`next
      ensures Chain() && nodes == old(nodes) + [e] && repr == old(repr) + {e}
    {
      ghost var n := |nodes|;
      if last == null {
        last := e;
        e.prev := null;
        e.next := null;
      } else {
        assert Linked(n - 1);
        e.prev := last;
        last.next := e;
        e.next := null;
        last := e;
      }
      nodes, repr := nodes + [e], repr + {e};
      forall i: nat | i < |nodes| ensures Linked(i) {
        assert i < n ==> old(Linked(i));
      }
    }

    /** The new entry of lms_throttle_setbad. */
    method Create(addr: nat, now: int) returns (d: Entry)
      requires Chain() && Indexed(nodes, entries) && addr !in entries
      modifies this`last, this`nodes, this`repr, this`entries, repr`prev, repr`next
      ensures Chain() && Indexed(nodes, entries) && fresh(d) && repr == old(repr) + {d}
      ensures entries == old(entries)[addr := d] && d.addr == addr && d.offenses == 1 && d.lastBad == now
    {
      hide Chain, Indexed;
      d := new Entry(addr);
      Append(d);
      d.lastBad := now;
      d.offenses := 1;
      IndexedWith(old(nodes), entries, d);
      entries := entries[addr := d];
    }

    lemma EntryOf(a: nat)
      requires Chain() && Indexed(nodes, entries) && a in entries
      ensures Inside() && entries[a] in repr && entries[a].addr == a && a in Contents()
      ensures Contents()[a] == Mark(entries[a].offenses, entries[a].lastBad)
    {
    }

    /** One more mark in an entry that is there. */
    method Again(d: Entry, now: int)
      requires Chain() && Indexed(nodes, entries) && d.addr in entries && entries[d.addr] == d
      modifies repr`offenses, repr`lastBad
      ensures Chain() && Indexed(nodes, entries) && Inside() && old(Inside())
      ensures Contents() == Marked(old(Contents()), d.addr, now)
    {
      hide Chain, Indexed;
      EntryOf(d.addr);
      Facts();
      d.lastBad := now;
      d.offenses := (d.offenses + 1) % WIDTH;
    }

    /** The first mark. */
    method First(addr: nat, now: int) returns (d: Entry)
      requires Chain() && Indexed(nodes, entries) && addr !in entries
      modifies this`last, this`nodes, this`repr, this`entries, repr`prev, repr`next
      ensures Chain() && Indexed(nodes, entries) && Inside() && old(Inside())
      ensures fresh(d) && d.addr == addr && repr == old(repr) + {d}
      ensures Contents() == Marked(old(Contents()), addr, now)
    {
      hide Chain, Indexed;
      Facts();
      d := Create(addr, now);
      Facts();
    }

    /** lms_throttle_setbad, for a socket whose address is addr if it has one. */
    method SetBad(addr: Option<nat>, now: int) returns (e: Entry?)
      requires Valid()
      modifies this, repr
      ensures Valid()
      ensures addr == None ==> e == null && log == old(log) && repr == old(repr)
      ensures addr.Some? ==>
                && e != null && e.addr == addr.value && log == old(log) + [Bad(addr.value, now)]
                && (repr == old(repr) || (fresh(e) && repr == old(repr) + {e}))
    {
      hide After, Chain, Indexed, Marked, Contents;
      if addr == None { return null; }
      Facts();
      e := Find(addr.value);
      if e == null {
        e := First(addr.value, now);
      } else {
        Again(e, now);
      }
      AfterOneMore(log, Bad(addr.value, now));
      log := log + [Bad(addr.value, now)];
    }

    /** lms_throttle_remove: e's neighbours, and the tail of the list, are led past it. */
    method Bypass(e: Entry)
      requires e in repr && e.prev != e && e.next != e
      requires (e.prev != null ==> e.prev in repr) && (e.next != null ==> e.next in repr)
      modifies this`last, repr`prev, repr`next
      ensures last == if old(last) == e then old(e.prev) else old(last)
      ensures forall x :: x in repr ==> x.prev == if x == old(e.next) then old(e.prev) else old(x.prev)
      ensures forall x :: x in repr ==> x.next == if x == old(e.prev) then old(e.next) else old(x.next)
    {
      if last == e {
        if e.prev != null { last := e.prev; } else { last := null; }
      }
      if e.next != null {
        if e.prev != null { e.next.prev := e.prev; } else { e.next.prev := null; }
      }
      if e.prev != null {
        if e.next != null { e.prev.next := e.next; } else { e.prev.next := null; }
      }
    }

    /** What that makes of the chain; the removed entry keeps its own links. */
    method Unlink(e: Entry, ghost front: seq<Entry>, ghost rest: seq<Entry>)
      requires Chain() && nodes == front + [e] + rest
      modifies this`last, this`nodes, repr`prev, repr`next
      ensures Chain() && nodes == front + rest
      ensures e.prev == if front == [] then null else front[|front| - 1]
    {
      ghost var k, was := |front|, nodes;
      Around(front, e, rest);
      WithoutKth(was, front, e, rest);
      hide Distinct;
      Bypass(e);
      nodes := front + rest;
      assert was[k] == e && (k > 0 ==> was[k - 1] == front[k - 1]) && (rest != [] ==> was[k + 1] == rest[0]);
      forall i: nat | i < |nodes| ensures Linked(i) {
        assert if i < k then old(Linked(i)) else old(Linked(i + 1));
      }
    }

    lemma Around(front: seq<Entry>, e: Entry, rest: seq<Entry>)
      requires Chain() && nodes == front + [e] + rest
      ensures e in repr && e.prev != e && e.next != e
      ensures e.prev == (if front == [] then null else front[|front| - 1]) && (front != [] ==> e.prev in repr)
      ensures e.next == (if rest == [] then null else rest[0]) && (rest != [] ==> e.next in repr)
      ensures forall i: nat :: i < |nodes| ==>
                && (nodes[i] == e.prev <==> i + 1 == |front|) && (nodes[i] == e.next <==> i == |front| + 1)
                && (nodes[i] == e <==> i == |front|)
    {
      var k := |front|;
      assert nodes[k] == e && (k > 0 ==> nodes[k - 1] == front[k - 1]) && (rest != [] ==> nodes[k + 1] == rest[0]);
      assert Linked(k);
    }

    method Remove(e: Entry, ghost front: seq<Entry>, ghost rest: seq<Entry>)
      requires Chain() && Indexed(nodes, entries) && nodes == front + [e] + rest
      modifies this`last, this`nodes, this`entries, repr`prev, repr`next
      ensures Chain() && Indexed(nodes, entries) && nodes == front + rest
      ensures e.addr in old(entries) && entries == old(entries) - {e.addr} && |entries| == |old(entries)| - 1
      ensures e.prev == if front == [] then null else front[|front| - 1]
    {
      IsDistinct();
      hide Chain, Indexed;
      IndexedWithout(front, e, rest, entries);
      Unlink(e, front, rest);
      entries := entries - {e.addr};
    }

    lemma IsDistinct()
      requires Chain()
      ensures Distinct(nodes)
    {
    }

    lemma Here(front: seq<Entry>, rest: seq<Entry>, e: Entry)
      requires Chain() && nodes == front + rest && front != [] && front[|front| - 1] == e
      ensures var before := front[..|front| - 1];
              && nodes == before + [e] + rest && nodes == before + ([e] + rest)
              && e.prev == if before == [] then null else before[|before| - 1]
    {
      assert Linked(|front| - 1);
      assert front == front[..|front| - 1] + [e];
    }

    /** One turn of the loop of lms_throttle_expire. */
    method RemoveOne(d: Entry, clock: nat -> int, ghost ts: seq<Entry>, ghost gone: set<Entry>,
                     ghost front: seq<Entry>, ghost rest: seq<Entry>)
      returns (removed: bool, ghost rest': seq<Entry>)
      requires Chain() && Indexed(nodes, entries) && nodes == front + rest && front != [] && front[|front| - 1] == d
      requires front <= ts && rest == Without(ts[|front|..], gone)
      requires d in gone <==> d.lastBad < clock(d.addr) - EXPIRE
      modifies this`last, this`nodes, this`entries, repr`prev, repr`next
      ensures Chain() && Indexed(nodes, entries) && nodes == front[..|front| - 1] + rest'
      ensures rest' == Without(ts[|front| - 1..], gone)
      ensures |entries| == |old(entries)| - if removed then 1 else 0
      ensures d.prev == if front[..|front| - 1] == [] then null else front[..|front| - 1][|front| - 2]
    {
      hide Chain, Indexed, Without;
      Here(front, rest, d);
      WithoutOneMore(ts, |front| - 1, gone);
      rest' := [d] + rest;
      removed := d.lastBad < clock(d.addr) - EXPIRE;
      if removed {
        Remove(d, front[..|front| - 1], rest);
        rest' := rest;
      }
    }

    /** The loop of lms_throttle_expire; it follows the link of the entry it has just removed. */
    method RemoveOld(clock: nat -> int, ghost gone: set<Entry>) returns (num: nat)
      requires Chain() && Indexed(nodes, entries)
      requires forall e :: e in nodes ==> (e in gone <==> e.lastBad < clock(e.addr) - EXPIRE)
      modifies this`last, this`nodes, this`entries, repr`prev, repr`next
      ensures Chain() && Indexed(nodes, entries) && nodes == Without(old(nodes), gone)
      ensures num == |old(entries)| - |entries|
    {
      hide Chain, Indexed, Without;
      ghost var ts := nodes;
      ghost var front: seq<Entry>, rest: seq<Entry> := ts, [];
      num := 0;
      TailOf();
      WithoutNothing(gone);
      assert ts[|ts|..] == [];
      var d := last;
      while d != null
        invariant front <= ts && rest == Without(ts[|front|..], gone)
        invariant d == if front == [] then null else front[|front| - 1]
        invariant Chain() && Indexed(nodes, entries) && nodes == front + rest
        invariant num == |old(entries)| - |entries|
        decreases |front|
      {
        var saved := d;
        assert d in ts;
        var removed;
        removed, rest := RemoveOne(d, clock, ts, gone, front, rest);
        if removed { num := num + 1; }
        front := front[..|front| - 1];
        d := saved.prev;
      }
      assert ts[0..] == ts;
    }

    /** What the chain holds after the loop, as a map. */
    method Sweep(clock: nat -> int) returns (num: nat)
      requires Chain() && Indexed(nodes, entries)
      modifies this`last, this`nodes, this`entries, repr`prev, repr`next
      ensures Chain() && Indexed(nodes, entries) && Inside()
      ensures old(Inside()) && Contents() == Expired(old(Contents()), clock)
      ensures num == |old(Contents())| - |Contents()|
    {
      hide Chain, Without, Indexed, Expired, Distinct;
      Facts();
      ghost var ts, was, index := nodes, Contents(), entries;
      ghost var gone := set e | e in repr && e.lastBad < clock(e.addr) - EXPIRE;
      assert forall a :: a in index ==> (index[a] in gone <==> was[a].lastBad < clock(a) - EXPIRE);
      num := RemoveOld(clock, gone);
      Facts();
      LeftAfter(ts, index, nodes, entries, gone);
      ExpiredIs(was, Contents(), index, entries, gone, clock);
    }

    /** lms_throttle_expire: clock(a) is the reading taken at the entry of a. */
    method Expire(clock: nat -> int) returns (num: nat)
      requires Valid()
      modifies this, repr
      ensures Valid() && log == old(log) + [Op.Expire(clock)] && repr == old(repr)
      ensures num == |After(old(log))| - |After(log)|
    {
      hide After, Chain, Indexed, Expired, Distinct;
      num := Sweep(clock);
      AfterOneMore(log, Op.Expire(clock));
      log := log + [Op.Expire(clock)];
    }

    lemma TailOf()
      requires Chain()
      ensures last == if nodes == [] then null else nodes[|nodes| - 1]
    {
    }
  }

  lemma WithoutNothing(gone: set<Entry>)
    ensures Without([], gone) == []
  {
  }

  lemma WithoutOneMore(nodes: seq<Entry>, k: nat, gone: set<Entry>)
    requires k < |nodes|
    ensures Without(nodes[k..], gone) == (if nodes[k] in gone then [] else [nodes[k]]) + Without(nodes[k + 1..], gone)
  {
    assert nodes[k..][1..] == nodes[k + 1..];
  }

  lemma LeftAfter(nodes: seq<Entry>, entries: map<nat, Entry>, left: seq<Entry>, index: map<nat, Entry>,
                  gone: set<Entry>)
    requires Indexed(nodes, entries) && Indexed(left, index) && left == Without(nodes, gone)
    ensures forall a :: a in index <==> a in entries && entries[a] !in gone
    ensures forall a :: a in index ==> index[a] == entries[a]
  {
    hide Without;
    InWithout(nodes, gone);
  }

  lemma ExpiredIs(was: Marks, now: Marks, entries: map<nat, Entry>, index: map<nat, Entry>, gone: set<Entry>,
                  clock: nat -> int)
    requires was.Keys == entries.Keys && now.Keys == index.Keys
    requires forall a :: a in index <==> a in entries && entries[a] !in gone
    requires forall a :: a in entries ==> (entries[a] in gone <==> was[a].lastBad < clock(a) - EXPIRE)
    requires forall a :: a in index ==> now[a] == was[a]
    ensures now == Expired(was, clock)
    ensures |was| == |entries| && |now| == |index|
  {
    assert |was| == |was.Keys| && |entries| == |entries.Keys| && |now| == |now.Keys| && |index| == |index.Keys|;
  }

  lemma AfterOneMore(ops: seq<Op>, op: Op)
    ensures After(ops + [op]) == Apply(After(ops), op)
  {
    assert (ops + [op])[..|ops|] == ops;
  }
}
