/** What records look like and what checking one returns, told by the octets of the record. */
module PasswordOutcomes {
  import opened Common
  import opened Rfc4648
  import opened Base64
  import opened Passwords

  /** The separator, '|'. */
  const SEPARATOR: byte := 124

  predicate Separators(s: seq<byte>) {
    forall i :: 0 <= i < |s| ==> s[i] == SEPARATOR
  }

  // ----- What is written -------------------------------------------------------------------

  /** A Base64 record is "1|", the RFC's encoding of the salt, a bar and that of the hash of salt and
      password, the salt as far as its first zero octet. */
  lemma B64RecordIs(h: Hash, salt: seq<byte>, pw: CString)
    requires |salt| == 8
    ensures B64Record(h, salt, pw) ==
            [49, SEPARATOR] + Encoding(salt) + [SEPARATOR] + Encoding(h(Until(salt, 0) + pw))
  {
    EncoderIsRfc(salt, 0);
    EncoderIsRfc(h(Until(salt, 0) + pw), 0);
    hide Coded, Encoding, Until;
  }

  /** A raw record without zero octets is the octet 1, a bar, the salt, a bar and the hash. */
  lemma RawRecordIs(h: Hash, salt: seq<byte>, pw: CString)
    requires 0 !in salt && 0 !in h(salt + pw)
    ensures RawRecord(h, salt, pw) == [1, SEPARATOR] + salt + [SEPARATOR] + h(salt + pw)
  {
    UntilAll(salt);
    UntilAll(h(salt + pw));
  }

  // ----- What is returned ------------------------------------------------------------------

  /** A Base64 record of another version than '1' accepts no password. */
  lemma OtherVersionIsRefused(h: Hash, chk: CString, rec: CString)
    requires rec == [] || rec[0] != 49
    ensures Readable(rec) && CheckB64(h, chk, rec) == 0
  {
  }

  lemma {:induction false} BarsAreSkipped(bars: seq<byte>, f: seq<byte>)
    requires Separators(bars) && (f == [] || f[0] != SEPARATOR)
    ensures SkipBars(bars + f) == f
  {
    if bars == [] {
      assert bars + f == f;
    } else {
      assert (bars + f)[1..] == bars[1..] + f;
      BarsAreSkipped(bars[1..], f);
    }
  }

  /** The octets of a Base64 record: its version, any octet, its salt field, at least one bar, and its
      hash field. */
  function B64Parts(x: byte, e: seq<byte>, bars: seq<byte>, f: seq<byte>): seq<byte> {
    [49, x] + e + [SEPARATOR] + bars + f
  }

  lemma FieldsOf(x: byte, e: seq<byte>, bars: seq<byte>, f: seq<byte>)
    requires SEPARATOR !in e && Separators(bars) && (f == [] || f[0] != SEPARATOR)
    ensures var rec := B64Parts(x, e, bars, f);
            && |rec| >= 3 + |e| && SaltField(rec) == e && HashField(rec) == f
  {
    var rec := B64Parts(x, e, bars, f);
    assert rec[2..] == e + [SEPARATOR] + (bars + f);
    UntilStops(e, SEPARATOR, bars + f);
    assert rec[3 + |e|..] == bars + f;
    BarsAreSkipped(bars, f);
  }

  /** A record of version '1': malformed if either field does not decode, else accepted exactly if the
      salted hash of the password is what the first 32 octets of the hash field decode to. */
  lemma B64Outcome(h: Hash, chk: CString, x: byte, e: seq<byte>, bars: seq<byte>, f: seq<byte>)
    requires SEPARATOR !in e && Separators(bars) && (f == [] || f[0] != SEPARATOR)
    requires 0 !in B64Parts(x, e, bars, f) && Readable(B64Parts(x, e, bars, f))
    ensures var r := CheckB64(h, chk, B64Parts(x, e, bars, f));
            && (r == -1 <==> Decoded(e) == None || Decoded(f) == None)
            && (r == 1 <==> Decoded(e).Some? && Decoded(f).Some? && |Decoded(f).value| >= 32
                            && h(Until(Decoded(e).value, 0) + chk) == Decoded(f).value[..32])
            && -1 <= r <= 1
  {
    FieldsOf(x, e, bars, f);
    hide Decoded, Until, SaltField, HashField, FitsSalt, Extent;
  }

  /** The octets of a raw record: its version, 8 of salt and 32 of hash, each after an octet that should
      be a bar, and whatever follows. */
  lemma RawOutcome(h: Hash, chk: CString, version: byte, x: byte, salt: seq<byte>, y: byte, hash: seq<byte>,
                   rest: seq<byte>)
    requires |salt| == 8 && |hash| == 32
    ensures var rec := [version, x] + salt + [y] + hash + rest;
            && ReadableRaw(rec)
            && CheckRaw(h, chk, rec) ==
               if version != 1 then 0
               else if x != SEPARATOR || y != SEPARATOR then -1
               else if h(Until(salt, 0) + chk) == hash then 1
               else 0
  {
    var rec := [version, x] + salt + [y] + hash + rest;
    assert rec[10] == y && rec[2..10] == salt && rec[11..43] == hash;
    hide Until;
  }

  /** As much as is read of a raw record that is shorter: of another version its first octet, of version
      1 also its two separators. */
  lemma ShortRawRecords(h: Hash, chk: CString, rec: seq<byte>)
    requires ReadableRaw(rec)
    ensures rec[0] != 1 ==> CheckRaw(h, chk, rec) == 0
    ensures rec[0] == 1 && |rec| >= 2 && rec[1] != SEPARATOR ==> CheckRaw(h, chk, rec) == -1
    ensures rec[0] == 1 && |rec| >= 11 && rec[10] != SEPARATOR ==> CheckRaw(h, chk, rec) == -1
  {
    hide Until;
  }
}
