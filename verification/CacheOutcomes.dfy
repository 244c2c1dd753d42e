/** What additions, lookups and sweeps of the resolver cache come to, told by the arguments of an
    addition and the fields of the records. */
module CacheOutcomes {
  import opened Common
  import opened Ascii
  import opened DnsCache

  // ----- Host names ------------------------------------------------------------------------

  /** A letter in upper and in lower case. */
  predicate CasePair(a: char, b: char) {
    exists i :: 0 <= i < |UPPER| && i < |LOWER| && a == UPPER[i] && b == LOWER[i]
  }

  predicate SameLetter(a: char, b: char) {
    a == b || CasePair(a, b) || CasePair(b, a)
  }

  predicate SameName(a: string, b: string) {
    |a| == |b| && forall i :: 0 <= i < |a| ==> SameLetter(a[i], b[i])
  }

  lemma LetterCodes(i: nat)
    requires i < 26
    ensures |UPPER| == |LOWER| == 26 && UPPER[i] == (65 + i) as char && LOWER[i] == (97 + i) as char
  {
  }

  lemma PairCodes(a: char, b: char)
    ensures CasePair(a, b) <==> 'A' <= a <= 'Z' && b as int == a as int + 32
  {
    if CasePair(a, b) {
      var i :| 0 <= i < |UPPER| && i < |LOWER| && a == UPPER[i] && b == LOWER[i];
      LetterCodes(i);
    }
    if 'A' <= a <= 'Z' && b as int == a as int + 32 {
      LetterCodes(a as int - 65);
    }
  }

  lemma LowerIsSameLetter(a: char, b: char)
    ensures Lower(a) == Lower(b) <==> SameLetter(a, b)
  {
    PairCodes(a, b);
    PairCodes(b, a);
    hide CasePair;
  }

  /** Host names are compared without regard to the case of letters, and in nothing else. */
  lemma HostsCompared(a: string, b: string)
    ensures SameHost(a, b) <==> SameName(a, b)
  {
    hide Lower, SameLetter;
    forall i | 0 <= i < |a| && i < |b| ensures Lower(a[i]) == Lower(b[i]) <==> SameLetter(a[i], b[i]) {
      LowerIsSameLetter(a[i], b[i]);
    }
  }

  // ----- Lookups ---------------------------------------------------------------------------

  /** The record is about h: its address, letter by letter, or its host. */
  predicate About(e: Entry, h: string, t: RecordType) {
    e.rtype == t && ((t == Ptr && e.ip == h) || (t == A && SameName(e.host, h)))
  }

  lemma AnswersAbout(e: Entry, h: string, t: RecordType)
    ensures Answers(e, h, t) <==> About(e, h, t)
  {
    HostsCompared(e.host, h);
    hide SameHost, SameName;
  }

  /** A lookup finds the record of the first slot with one about h, and nothing if there is none. */
  lemma LookupOutcome(s: Slots, h: string, t: RecordType)
    ensures Find(s, h, t) == None <==> forall k :: 0 <= k < |s| && s[k].Some? ==> !About(s[k].value, h, t)
    ensures forall k :: 0 <= k < |s| && s[k].Some? && About(s[k].value, h, t)
                        && (forall j :: 0 <= j < k && s[j].Some? ==> !About(s[j].value, h, t)) ==>
              Find(s, h, t) == s[k]
  {
    FirstFromIsFirst(s, 0, h, t);
    forall k | 0 <= k < |s| && s[k].Some? ensures Answers(s[k].value, h, t) == About(s[k].value, h, t) {
      AnswersAbout(s[k].value, h, t);
    }
    hide Answers, About, FirstFrom;
  }

  /** Two host names that differ in the case of letters only find the same record. */
  lemma CaseDoesNotMatter(s: Slots, h: string, h': string)
    requires |h| == |h'| && forall i :: 0 <= i < |h| ==> SameLetter(h[i], h'[i])
    ensures Find(s, h, A) == Find(s, h', A)
  {
    HostsCompared(h, h');
    hide SameLetter;
    SameFound(s, 0, h, h');
  }

  lemma {:induction false} SameFound(s: Slots, i: nat, h: string, h': string)
    requires i <= |s| && SameHost(h, h')
    ensures FirstFrom(s, i, h, A) == FirstFrom(s, i, h', A)
    decreases |s| - i
  {
    if i < |s| { SameFound(s, i + 1, h, h'); }
  }

  // ----- Additions -------------------------------------------------------------------------

  /** The time at which an answer with the reported time to live expires. */
  predicate ExpiresRightly(expiry: int, ttl: int, now: int) {
    && (ttl <= 0 ==> expiry == now + 600)
    && (1 <= ttl <= 299 ==> expiry == now + 300)
    && (300 <= ttl <= 86400 ==> expiry == now + ttl)
    && (ttl > 86400 ==> expiry == now + 86400)
  }

  /** The record holds what was added: the address as far as it fits, the host, and a negative mark if
      the part that was asked for is missing. */
  predicate Holds(e: Entry, t: RecordType, ip: Option<string>, host: Option<string>, ttl: int, now: int) {
    && e.rtype == t
    && (e.negative <==> (t == Ptr && host == None) || (t == A && ip == None))
    && (ip.Some? && |ip.value| <= 16 ==> e.ip == ip.value)
    && (ip.Some? && |ip.value| > 16 ==> |e.ip| == 16 && e.ip <= ip.value)
    && (host.Some? ==> e.host == host.value)
    && ExpiresRightly(e.expiry, ttl, now)
  }

  /** What an addition returns: only address and PTR records are taken, only with something in them, and
      only into a free slot. */
  lemma AdditionCodes(s: Slots, t: RecordType, ip: Option<string>, host: Option<string>, ttl: int, now: int)
    ensures Add(s, t, ip, host, ttl, now).1 ==
            if t != A && t != Ptr then BadType
            else if ip == None && host == None then NothingToAdd
            else if forall k :: 0 <= k < |s| ==> s[k] != None then CacheFull
            else Added
  {
    AddFillsAnEmptySlot(s, t, ip, host, ttl, now);
  }

  lemma MadeHolds(t: RecordType, ip: Option<string>, host: Option<string>, ttl: int, now: int)
    requires (t == A || t == Ptr) && (ip.Some? || host.Some?)
    ensures Holds(MakeEntry(t, ip, host, ttl, now), t, ip, host, ttl, now)
  {
  }

  /** An accepted addition fills the first free slot with the record, and changes no other. */
  lemma AdditionFills(s: Slots, t: RecordType, ip: Option<string>, host: Option<string>, ttl: int, now: int)
    returns (k: nat, e: Entry)
    requires Add(s, t, ip, host, ttl, now).1 == Added
    ensures Holds(e, t, ip, host, ttl, now)
    ensures k < |s| && s[k] == None && (forall j :: 0 <= j < k ==> s[j].Some?)
    ensures Add(s, t, ip, host, ttl, now).0 == s[k := Some(e)]
  {
    MadeHolds(t, ip, host, ttl, now);
    hide Holds, MakeEntry;
    k, e := FreeFrom(s, 0), MakeEntry(t, ip, host, ttl, now);
  }

  /** Filling an empty slot: a lookup finds what it found, or the new record if that is about its
      question and no earlier slot's is. */
  lemma {:induction false} FindAfterFill(s: Slots, k: nat, e: Entry, i: nat, h: string, t: RecordType)
    requires i <= |s| && k < |s| && s[k] == None
    ensures var was, now := FirstFrom(s, i, h, t), FirstFrom(s[k := Some(e)], i, h, t);
            && (!Answers(e, h, t) ==> now == was)
            && (now != was ==> now == Some(e))
            && (Answers(e, h, t) && was == None && i <= k ==> now == Some(e))
    decreases |s| - i
  {
    hide Answers;
    if i < |s| { FindAfterFill(s, k, e, i + 1, h, t); }
  }

  /** After an accepted PTR answer for an address that had none, that address finds it: with the host it
      gave, negative exactly when it gave none, and with its expiry. */
  lemma AddedPtrIsFound(s: Slots, addr: string, host: Option<string>, ttl: int, now: int)
    requires |addr| <= 16 && Find(s, addr, Ptr) == None && Add(s, Ptr, Some(addr), host, ttl, now).1 == Added
    ensures var r := Find(Add(s, Ptr, Some(addr), host, ttl, now).0, addr, Ptr);
            && r.Some? && r.value.rtype == Ptr && r.value.ip == addr
            && (r.value.negative <==> host == None)
            && (host.Some? ==> r.value.host == host.value)
            && ExpiresRightly(r.value.expiry, ttl, now)
  {
    hide Add, ExpiresRightly, FirstFrom;
    var k, e := AdditionFills(s, Ptr, Some(addr), host, ttl, now);
    FindAfterFill(s, k, e, 0, addr, Ptr);
  }

  lemma SameHostItself(h: string)
    ensures SameHost(h, h)
  {
  }

  /** After an accepted A answer for a host that had none, that host finds it: with the address it gave,
      negative exactly when it gave none, and with its expiry. */
  lemma AddedAIsFound(s: Slots, host: string, ip: Option<string>, ttl: int, now: int)
    requires Find(s, host, A) == None && Add(s, A, ip, Some(host), ttl, now).1 == Added
    ensures var r := Find(Add(s, A, ip, Some(host), ttl, now).0, host, A);
            && r.Some? && r.value.rtype == A && r.value.host == host
            && (r.value.negative <==> ip == None)
            && (ip.Some? && |ip.value| <= 16 ==> r.value.ip == ip.value)
            && ExpiresRightly(r.value.expiry, ttl, now)
  {
    hide Add, ExpiresRightly, FirstFrom, SameHost;
    var k, e := AdditionFills(s, A, ip, Some(host), ttl, now);
    SameHostItself(host);
    FindAfterFill(s, k, e, 0, host, A);
  }

  /** An addition is no answer to a question of the other type, and none to one of its own type about
      something else. */
  lemma OthersFindTheSame(s: Slots, t: RecordType, ip: Option<string>, host: Option<string>, ttl: int, now: int,
                          h: string, asked: RecordType)
    requires t != asked || (t == Ptr && ip.Some? && |ip.value| <= 16 && h != ip.value)
             || (t == A && host.Some? && !SameName(host.value, h))
    ensures Find(Add(s, t, ip, host, ttl, now).0, h, asked) == Find(s, h, asked)
  {
    if Add(s, t, ip, host, ttl, now).1 == Added {
      var k, e := AdditionFills(s, t, ip, host, ttl, now);
      AnswersAbout(e, h, asked);
      hide Add, FirstFrom, SameName, SameHost, ExpiresRightly;
      FindAfterFill(s, k, e, 0, h, asked);
    }
  }

  /** A sweep empties exactly the slots whose time has come. */
  lemma SweepOutcome(s: Slots, now: int, i: nat)
    requires i < |s|
    ensures |Sweep(s, now)| == |s|
    ensures Sweep(s, now)[i] == if s[i].Some? && s[i].value.expiry <= now then None else s[i]
  {
  }
}
