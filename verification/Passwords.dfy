/** Password records of msocket/passwords.c: a version, a salt and a salted hash, separated by
    bars, raw or in Base64.  SHA-256 is any function from octet strings to 32 octets. */
module Passwords {
  import opened Common
  import opened Base64

  const BAR: byte := 124
  const CURVER: byte := 1
  const PRTVER: byte := 49

  type Digest = s: seq<byte> | |s| == 32 witness seq(32, _ => 0)

  type Hash = seq<byte> -> Digest

  /** The octets of a C string: no terminator among them. */
  type CString = s: seq<byte> | 0 !in s

  // ----- Writing records -------------------------------------------------------------------

  /** What is hashed: the salt as far as %s prints it, then the password. */
  function Prehash(salt: seq<byte>, pw: CString): seq<byte> {
    Until(salt, 0) + pw
  }

  function Field(s: seq<byte>): seq<byte> {
    Coded(s, 0)
  }

  /** "%c|%s|%s" of version, Base64 salt and Base64 hash. */
  function B64Record(h: Hash, salt: seq<byte>, pw: CString): seq<byte> {
    [PRTVER, BAR] + Field(salt) + [BAR] + Field(h(Prehash(salt, pw)))
  }

  /** "%c|%s|%s" of version, salt and hash; %s stops at a zero octet. */
  function RawRecord(h: Hash, salt: seq<byte>, pw: CString): seq<byte> {
    [CURVER, BAR] + Until(salt, 0) + [BAR] + Until(h(Prehash(salt, pw)), 0)
  }

  /** snprintf into a buffer of n octets: at most n - 1 of the text, and a terminator. */
  function Printed(text: seq<byte>, n: nat): seq<byte>
    requires n > 0
  {
    text[..Min(|text|, n - 1)]
  }

  /** A buffer after text and its terminator were written over its beginning. */
  function Overwritten(buffer: seq<byte>, text: seq<byte>): seq<byte>
    requires |text| < |buffer|
  {
    text + [0] + buffer[|text| + 1..]
  }

  // ----- Checking records ------------------------------------------------------------------

  /** strtol of the one-character string of the version. */
  function VersionDigit(c: byte): byte {
    if 48 <= c <= 57 then c - 48 else 0
  }

  /** x after the loop that skips separators. */
  function SkipBars(s: seq<byte>): seq<byte> {
    if s != [] && s[0] == BAR then SkipBars(s[1..]) else s
  }

  function SaltField(rec: seq<byte>): seq<byte>
    requires |rec| >= 2
  {
    Until(rec[2..], BAR)
  }

  function HashField(rec: seq<byte>): seq<byte>
    requires |rec| >= 2 && |rec| >= 3 + |SaltField(rec)|
  {
    SkipBars(rec[3 + |SaltField(rec)|..])
  }

  /** The version of a record; an empty one is read as its terminator. */
  function Version(rec: CString): byte {
    if rec == [] then 0 else VersionDigit(rec[0])
  }

  /** What lms_passwords_check demands of a Base64 record, which is its own format: if its version is
      the current one, a salt field that fits its buffers and ends there as a string, and a hash of at
      least 32 octets, as far as the two can be decoded at all. */
  predicate Readable(rec: CString) {
    && (Version(rec) == CURVER ==>
          && |rec| >= 2 && BAR in rec[2..]
          && |SaltField(rec)| <= 16
          && FitsSalt(SaltField(rec))
          && (Decoded(SaltField(rec)).Some? && Decoded(HashField(rec)).Some? ==>
                |Decoded(HashField(rec)).value| >= 32))
  }

  /** Nine octets are room enough for what is decoded, and for its terminator if it has none. */
  predicate FitsSalt(field: seq<byte>) {
    && Extent(field, 0) <= 9
    && (Decoded(field).Some? ==> |Decoded(field).value| <= 8 || 0 in Decoded(field).value)
  }

  /** lms_passwords_check on a Base64 record: 1, 0, or -1 when a field does not decode.  Of the
      decoded hash the first 32 octets count. */
  function CheckB64(h: Hash, chk: CString, rec: CString): int
    requires Readable(rec)
  {
    if Version(rec) != CURVER then 0
    else
      var salt := Decoded(SaltField(rec));
      if salt.None? then -1
      else
        var hash := Decoded(HashField(rec));
        if hash.None? then -1
        else if h(Prehash(salt.value, chk)) == hash.value[..32] then 1
        else 0
  }

  /** As much of a raw record as is read: its version, and if that is right the separators, and if
      those are right all 43 octets. */
  predicate ReadableRaw(rec: seq<byte>) {
    && |rec| >= 1
    && (rec[0] == CURVER ==>
          |rec| >= 2 && (rec[1] == BAR ==> |rec| >= 11 && (rec[10] == BAR ==> |rec| >= 43)))
  }

  /** lms_passwords_check on a raw record, which is read at fixed places. */
  function CheckRaw(h: Hash, chk: CString, rec: seq<byte>): int
    requires ReadableRaw(rec)
  {
    if rec[0] != CURVER then 0
    else if rec[1] != BAR || rec[10] != BAR then -1
    else if h(Prehash(rec[2..10], chk)) == rec[11..43] then 1
    else 0
  }

  // ----- Base64 records --------------------------------------------------------------------

  /** A character of an encoding is a symbol or padding: never a separator, never a terminator. */
  lemma {:induction false} FieldIsPlain(s: seq<byte>, next: byte)
    ensures BAR !in Coded(s, next) && 0 !in Coded(s, next)
  {
    if |s| >= 3 {
      FieldIsPlain(s[3..], next);
    }
  }

  lemma UntilStops(s: seq<byte>, stop: byte, rest: seq<byte>)
    requires stop !in s
    ensures Until(s + [stop] + rest, stop) == s
  {
    var t := s + [stop] + rest;
    assert t[..|s|] == s;
    UntilIs(t, stop, |s|);
  }

  /** The record is printed whole, and parsing it gives back the two encodings. */
  lemma RecordParses(h: Hash, salt: seq<byte>, pw: CString)
    requires |salt| == 8
    ensures var r := B64Record(h, salt, pw);
            && |r| == 59 && Printed(r, 84) == r && 0 !in r
            && BAR in r[2..] && SaltField(r) == Field(salt) && HashField(r) == Field(h(Prehash(salt, pw)))
  {
    var r := B64Record(h, salt, pw);
    var e, f := Field(salt), Field(h(Prehash(salt, pw)));
    FieldIsPlain(salt, 0);
    FieldIsPlain(h(Prehash(salt, pw)), 0);
    hide Coded, Prehash;
    assert r[2..] == e + [BAR] + f;
    assert r[..84 - 1 - 24] == r;
    UntilStops(e, BAR, f);
    assert r[2 + |e|] == BAR;
    assert r[3 + |e|..] == f;
    assert f[0] in f;
  }

  /** A record accepts exactly the passwords whose salted hash is the one it was made with, and is
      never taken for malformed. */
  lemma B64RecordAccepts(h: Hash, salt: seq<byte>, pw: CString, chk: CString)
    requires |salt| == 8
    ensures var r := B64Record(h, salt, pw);
            && 0 !in r && Readable(r)
            && CheckB64(h, chk, r) == if h(Prehash(salt, chk)) == h(Prehash(salt, pw)) then 1 else 0
  {
    RecordParses(h, salt, pw);
    DecodeInvertsEncode(salt, 0);
    DecodeInvertsEncode(h(Prehash(salt, pw)), 0);
    DecodeFits(Field(salt));
    hide Decoded, Coded, Extent, Prehash, SaltField, HashField;
  }

  // ----- Raw records -----------------------------------------------------------------------

  lemma UntilAll(s: seq<byte>)
    requires 0 !in s
    ensures Until(s, 0) == s
  {
    assert s[..|s|] == s;
    UntilIs(s, 0, |s|);
  }

  /** With no zero octet in salt and hash a raw record, in any buffer, accepts exactly the
      passwords with the same salted hash. */
  lemma RawRecordAccepts(h: Hash, salt: seq<byte>, pw: CString, chk: CString, buffer: seq<byte>)
    requires |salt| == 8 && 0 !in salt && 0 !in h(Prehash(salt, pw)) && |buffer| == 44
    ensures var r := RawRecord(h, salt, pw);
            && |r| == 43 && Printed(r, 44) == r
            && CheckRaw(h, chk, Overwritten(buffer, r)) ==
               if h(Prehash(salt, chk)) == h(Prehash(salt, pw)) then 1 else 0
  {
    UntilAll(salt);
    UntilAll(h(Prehash(salt, pw)));
    var r := RawRecord(h, salt, pw);
    var b := Overwritten(buffer, r);
    assert r == [CURVER, BAR] + salt + [BAR] + h(Prehash(salt, pw));
    assert b[2..10] == salt && b[11..43] == h(Prehash(salt, pw));
  }

  /** A salt without zero octets: the record accepts its own password whatever was in the buffer
      before exactly when the first 31 octets of the hash have no zero either.  A zero in the last
      octet is made good by the terminator. */
  lemma RawRecordAcceptsItself(h: Hash, salt: seq<byte>, pw: CString)
    requires |salt| == 8 && 0 !in salt
    ensures var r := RawRecord(h, salt, pw);
            && |r| <= 43
            && ((forall buffer: seq<byte> | |buffer| == 44 :: CheckRaw(h, pw, Overwritten(buffer, r)) == 1)
                <==> 0 !in h(Prehash(salt, pw))[..31])
  {
    UntilAll(salt);
    var d, r := h(Prehash(salt, pw)), RawRecord(h, salt, pw);
    var u := Until(d, 0);
    assert r == [CURVER, BAR] + salt + [BAR] + u && |r| == 11 + |u|;
    if 0 !in d[..31] {
      forall buffer: seq<byte> | |buffer| == 44
        ensures CheckRaw(h, pw, Overwritten(buffer, r)) == 1
      {
        var b := Overwritten(buffer, r);
        assert b[2..10] == salt;
        assert b[11..43] == d;
      }
    } else {
      var k := |u| + 1;
      var buffer := seq(44, i => d[k] ^ 1);
      var b := Overwritten(buffer, r);
      assert b[2..10] == salt;
      assert b[11 + k] == buffer[11 + k] == d[k] ^ 1;
      assert b[11..43][k] == b[11 + k];
      assert d[k] ^ 1 != d[k];
      assert CheckRaw(h, pw, Overwritten(buffer, r)) == 0;
    }
  }

  /** The one way a record whose salt has a zero octet can be taken for its own: all but the last
      salt octet is printed, the printed hash begins with the separator that is missing, and the
      hash of what is then read happens to be the rest of the printed one. */
  predicate Misread(h: Hash, salt: seq<byte>, pw: CString) {
    var t := Until(salt, 0);
    var d := h(t + pw);
    |t| == 7 && 0 !in d && d[0] == BAR && h(t + [BAR] + pw) == d[1..] + [0]
  }

  lemma LastOctetFromBuffer(h: Hash, r: seq<byte>, pw: CString) returns (buffer: seq<byte>)
    requires 1 <= |r| <= 41 && r[0] == CURVER
    ensures |buffer| == 44 && CheckRaw(h, pw, Overwritten(buffer, r)) != 1
  {
    buffer := seq(44, _ => 0);
    var b := Overwritten(buffer, r);
    var d := h(Prehash(b[2..10], pw));
    buffer := buffer[42 := d[31] ^ 1];
    var b' := Overwritten(buffer, r);
    assert b'[2..10] == b[2..10];
    assert b'[11..43][31] == b'[42] == buffer[42] == d[31] ^ 1;
    assert d[31] ^ 1 != d[31];
  }

  lemma SevenSaltOctets(h: Hash, salt: seq<byte>, pw: CString, buffer: seq<byte>)
    requires |Until(salt, 0)| == 7 && 0 !in h(Prehash(salt, pw)) && |buffer| == 44
    ensures var r := RawRecord(h, salt, pw);
            |r| == 42 && (CheckRaw(h, pw, Overwritten(buffer, r)) == 1 <==> Misread(h, salt, pw))
  {
    var t, d := Until(salt, 0), h(Prehash(salt, pw));
    UntilAll(d);
    UntilAll(t + [BAR]);
    var r := RawRecord(h, salt, pw);
    var b := Overwritten(buffer, r);
    assert b[2..10] == t + [BAR] && b[10] == d[0] && b[11..43] == d[1..] + [0];
  }

  /** A salt with a zero octet: the record is not accepted for its own password in every buffer,
      but for that one coincidence. */
  lemma RawRecordWithZeroInSalt(h: Hash, salt: seq<byte>, pw: CString)
    requires |salt| == 8 && 0 in salt
    ensures var r := RawRecord(h, salt, pw);
            && |r| <= 42
            && ((forall buffer: seq<byte> | |buffer| == 44 :: CheckRaw(h, pw, Overwritten(buffer, r)) == 1)
                <==> Misread(h, salt, pw))
  {
    var t, u, r := Until(salt, 0), Until(h(Prehash(salt, pw)), 0), RawRecord(h, salt, pw);
    assert |t| < 8 by { assert salt[..8] == salt; }
    assert |r| == 3 + |t| + |u|;
    if |t| == 7 && |u| == 32 {
      assert u == h(Prehash(salt, pw));
      forall buffer: seq<byte> | |buffer| == 44
        ensures CheckRaw(h, pw, Overwritten(buffer, r)) == 1 <==> Misread(h, salt, pw)
      {
        SevenSaltOctets(h, salt, pw, buffer);
      }
      var some: seq<byte> := seq(44, _ => 0);
      assert CheckRaw(h, pw, Overwritten(some, r)) == 1 <==> Misread(h, salt, pw);
    } else {
      var buffer := LastOctetFromBuffer(h, r, pw);
      if Misread(h, salt, pw) { UntilAll(h(Prehash(salt, pw))); }
    }
  }

  // ----- The C functions -------------------------------------------------------------------

  /** snprintf into dst, whose text is given. */
  method Print(dst: array<byte>, n: nat, text: seq<byte>)
    requires 0 < n <= dst.Length
    modifies dst
    ensures dst[..] == Overwritten(old(dst[..]), Printed(text, n))
  {
    var t := Printed(text, n);
    var i := 0;
    while i < |t|
      invariant 0 <= i <= |t|
      invariant forall k :: 0 <= k < i ==> dst[k] == t[k]
      invariant forall k :: i <= k < dst.Length ==> dst[k] == old(dst[k])
    {
      dst[i] := t[i];
      i := i + 1;
    }
    dst[i] := 0;
  }

  /** The first n octets, in a new buffer of size m filled up with zeros. */
  method Buffer(s: seq<byte>, m: nat) returns (a: array<byte>)
    requires |s| <= m
    ensures fresh(a) && a.Length == m && a[..|s|] == s && forall i :: |s| <= i < m ==> a[i] == 0
  {
    a := new byte[m](i requires 0 <= i < m => if i < |s| then s[i] else 0);
  }

  /** One field of the printed record: Base64 of the octets in a zeroed buffer. */
  method EncodeField(s: seq<byte>, m: nat) returns (text: seq<byte>)
    requires |s| % 3 == 2 && EncodedLen(|s|) < m
    ensures text == Field(s)
  {
    var src := Buffer(s, |s| + 1);
    var dst := Buffer([], m);
    var _ := Encode(src, dst, |s|);
    FieldIsPlain(s, 0);
    assert src[..|s|] == s;
    UntilIs(dst[..], 0, EncodedLen(|s|));
    return Until(dst[..], 0);
  }

  /** lms_passwords_encode, with the eight octets the generator gave. */
  method EncodePassword(indata: array?<byte>, outdata: array?<byte>, useB64: bool, salt: seq<byte>, h: Hash)
    returns (r: int)
    requires |salt| == 8
    requires indata != null && outdata != null ==>
               0 in indata[..] && indata != outdata && outdata.Length >= if useB64 then 84 else 44
    modifies outdata
    ensures indata == null || outdata == null ==> r == -1
    ensures indata != null && outdata != null ==>
              var pw := Until(old(indata[..]), 0);
              && r == 0 && |B64Record(h, salt, pw)| < 84 && |RawRecord(h, salt, pw)| < 44
              && outdata[..] == Overwritten(old(outdata[..]),
                                            if useB64 then B64Record(h, salt, pw) else RawRecord(h, salt, pw))
  {
    if indata == null || outdata == null {
      return -1;
    }
    var pw := Until(indata[..], 0);
    var hashed := h(Prehash(salt, pw));
    RecordParses(h, salt, pw);
    if useB64 {
      var b64hash := EncodeField(hashed, 65);
      var b64salt := EncodeField(salt, 17);
      Print(outdata, 84, [PRTVER, BAR] + b64salt + [BAR] + b64hash);
    } else {
      Print(outdata, 44, RawRecord(h, salt, pw));
      assert Printed(RawRecord(h, salt, pw), 44) == RawRecord(h, salt, pw);
    }
    return 0;
  }

  /** _lms_passwords_getsalt: copy up to the separator, and count it in. */
  method GetSalt(ptr: array<byte>, x: nat, s: array<byte>) returns (cnt: nat)
    requires ptr != s && x <= ptr.Length && BAR in ptr[x..] && |Until(ptr[x..], BAR)| <= s.Length
    modifies s
    ensures cnt == |Until(ptr[x..], BAR)| + 1
    ensures s[..] == Until(ptr[x..], BAR) + old(s[cnt - 1..])
  {
    ghost var t := Until(ptr[x..], BAR);
    cnt := 0;
    while ptr[x + cnt] != BAR
      invariant cnt <= |t| && ptr[x..] == old(ptr[x..])
      invariant forall k :: 0 <= k < cnt ==> s[k] == t[k]
      invariant forall k :: cnt <= k < s.Length ==> s[k] == old(s[k])
      decreases |t| - cnt
    {
      s[cnt] := ptr[x + cnt];
      cnt := cnt + 1;
    }
    cnt := cnt + 1;
  }

  /** Lines 265 to 273: the eight salt octets and a terminator, then read as a string. */
  method RawSalt(rec: array<byte>) returns (salt: seq<byte>)
    requires rec.Length >= 11
    ensures salt == Until(rec[2..10], 0)
  {
    var buf := Buffer(rec[2..10], 9);
    assert buf[..] == rec[2..10] + [0];
    hide Until;
    Terminated(rec[2..10], [0]);
    return Until(buf[..], 0);
  }

  /** The raw half of lms_passwords_check. */
  method CheckRawRecord(pw: CString, rec: array<byte>, h: Hash) returns (r: int)
    requires ReadableRaw(rec[..])
    ensures r == CheckRaw(h, pw, rec[..])
  {
    var ver := rec[0];
    if ver > CURVER {
      return 0;
    } else if ver < CURVER {
      return 0;
    }
    if rec[1] != BAR || rec[10] != BAR {
      return -1;
    }
    var salt := RawSalt(rec);
    assert rec[..][2..10] == rec[2..10] && rec[..][11..43] == rec[11..43];
    hide Until;
    var hash := h(salt + pw);
    if hash == rec[11..43] {
      return 1;
    } else {
      return 0;
    }
  }

  /** A zero after the octets, and whatever after that, is not seen by %s. */
  lemma Terminated(s: seq<byte>, rest: seq<byte>)
    requires rest != [] && rest[0] == 0
    ensures Until(s + rest, 0) == Until(s, 0)
  {
    var u := Until(s, 0);
    assert (s + rest)[..|u|] == u;
    UntilIs(s + rest, 0, |u|);
  }

  /** The salt decoded into nine octets and read as a string.  The ninth is never written by eight
      decoded ones; it is taken to be zero, as line 273 makes it for raw records. */
  method DecodeSalt(b64salt: array<byte>, ghost field: seq<byte>) returns (salt: Option<seq<byte>>)
    requires 0 in b64salt[..] && Until(b64salt[..], 0) == field && FitsSalt(field)
    ensures salt.Some? <==> Decoded(field).Some?
    ensures salt.Some? ==> salt.value == Until(Decoded(field).value, 0)
  {
    hide Decoded, Extent, Until;
    var buffer := Buffer([], 9);
    var n := Decode(b64salt, buffer);
    if n.None? {
      return None;
    }
    DecodeFits(field);
    ghost var d := Decoded(field).value;
    if |d| == 9 {
      assert buffer[..] == d;
    } else {
      ghost var rest := buffer[|d|..];
      assert buffer[..] == d + rest && rest[0] == 0;
      Terminated(d, rest);
    }
    return Some(Until(buffer[..], 0));
  }

  /** Lines 373 to 379: the salt field is copied into a buffer of zeros and decoded. */
  method ReadSalt(rec: array<byte>, ghost s: CString) returns (salt: Option<seq<byte>>, cnt: nat)
    requires 0 in rec[..] && s == Until(rec[..], 0) && Readable(s) && Version(s) == CURVER
    ensures cnt == |SaltField(s)| + 1
    ensures salt.Some? <==> Decoded(SaltField(s)).Some?
    ensures salt.Some? ==> salt.value == Until(Decoded(SaltField(s)).value, 0)
  {
    FieldInBuffer(rec[..]);
    hide Decoded, Extent, Until;
    ghost var field := SaltField(s);
    var b64salt := Buffer([], 17);
    cnt := GetSalt(rec, 2, b64salt);
    ghost var rest := b64salt[|field|..];
    assert b64salt[..] == field + rest && rest[0] == 0;
    Terminated(field, rest);
    UntilAll(field);
    salt := DecodeSalt(b64salt, field);
  }

  /** The salt field of the string is the one found by scanning the buffer for the separator. */
  lemma FieldInBuffer(b: seq<byte>)
    requires 0 in b && Readable(Until(b, 0)) && Version(Until(b, 0)) == CURVER
    ensures var s := Until(b, 0);
            && 2 <= |b| && BAR in b[2..] && Until(b[2..], BAR) == SaltField(s) && 0 !in SaltField(s)
  {
    hide Decoded, Extent, HashField;
    SameField(b, Until(b, 0));
  }

  lemma SameField(b: seq<byte>, s: seq<byte>)
    requires s <= b && |s| >= 2 && BAR in s[2..] && 0 !in s
    ensures BAR in b[2..] && Until(b[2..], BAR) == SaltField(s) && 0 !in SaltField(s)
  {
    var field := SaltField(s);
    assert b[2..][..|s| - 2] == s[2..];
    assert s[2..][|field|] == BAR;
    assert b[2..][|field|] == BAR;
    assert b[2..][..|field|] == field;
    UntilIs(b[2..], BAR, |field|);
  }

  /** Lines 381 to 385: past the separator, and past any more of them. */
  method PastBars(rec: array<byte>, x0: nat, ghost s: CString) returns (x: nat)
    requires 0 in rec[..] && s == Until(rec[..], 0) && x0 <= |s|
    ensures x <= |s| && s[x..] == SkipBars(s[x0..]) && x < rec.Length
  {
    x := x0;
    while rec[x] == BAR
      invariant x <= |s| && SkipBars(s[x..]) == SkipBars(s[x0..])
      decreases |s| - x
    {
      assert x < |s| && s[x] == BAR;
      assert s[x..][1..] == s[x + 1..];
      x := x + 1;
    }
    assert x < |s| ==> s[x..][0] == s[x];
  }

  /** Lines 410 to 425: the hash field from x on, decoded into a buffer of its own.  The pointer
      into the record is a copy of its tail here. */
  method DecodeHash(rec: array<byte>, x: nat, ghost s: CString) returns (hash: Option<seq<byte>>)
    requires 0 in rec[..] && s == Until(rec[..], 0) && x <= |s|
    ensures hash == Decoded(s[x..])
  {
    var tail := Buffer(rec[x..], rec.Length - x);
    assert tail[..] == rec[x..] && tail[..|s| - x] == s[x..];
    UntilIs(tail[..], 0, |s| - x);
    assert tail[|s| - x] == 0;
    hide Decoded, Extent, Until;
    DecodeFits(s[x..]);
    var buffer := Buffer([], DecodedSpace(|Until(tail[..], 0)|));
    var n := Decode(tail, buffer);
    return if n.None? then None else Some(buffer[..n.value]);
  }

  /** The Base64 half of lms_passwords_check. */
  method CheckB64Record(pw: CString, rec: array<byte>, h: Hash) returns (r: int)
    requires 0 in rec[..] && Readable(Until(rec[..], 0))
    ensures r == CheckB64(h, pw, Until(rec[..], 0))
  {
    ghost var s: CString := Until(rec[..], 0);
    var ver := VersionDigit(rec[0]);
    if ver > CURVER {
      return 0;
    } else if ver < CURVER {
      return 0;
    }
    hide Decoded, Extent, Until;
    var salt, cnt := ReadSalt(rec, s);
    if salt.None? {
      return -1;
    }
    var x := PastBars(rec, 2 + cnt, s);
    var hash := h(salt.value + pw);
    var rhash := DecodeHash(rec, x, s);
    if rhash.None? {
      return -1;
    }
    return if hash == rhash.value[..32] then 1 else 0;
  }

  /** lms_passwords_check */
  method CheckPassword(chk: array?<byte>, rec: array?<byte>, isB64: bool, h: Hash) returns (r: int)
    requires chk != null && rec != null ==>
               && 0 in chk[..]
               && (isB64 ==> 0 in rec[..] && Readable(Until(rec[..], 0)))
               && (!isB64 ==> ReadableRaw(rec[..]))
    ensures chk == null || rec == null ==> r == -1
    ensures chk != null && rec != null ==>
              r == if isB64 then CheckB64(h, Until(chk[..], 0), Until(rec[..], 0))
                   else CheckRaw(h, Until(chk[..], 0), rec[..])
  {
    if chk == null || rec == null {
      return -1;
    }
    hide Until;
    if !isB64 {
      r := CheckRawRecord(Until(chk[..], 0), rec, h);
    } else {
      r := CheckB64Record(Until(chk[..], 0), rec, h);
    }
  }
}
