/** The queue operations of msocket/socket.c over reallocated blocks, and the copy loops of
    msocket/str.c, proved against Queues. */
module QueueBuffers {
  import opened Common
  import opened Queues

  /** lms_str_copy */
  method Copy(src: array<byte>, dst: array<byte>, len: nat)
    requires src != dst && len <= src.Length && len <= dst.Length
    modifies dst
    ensures forall k: nat :: k < len ==> dst[k] == src[k]
    ensures forall k: nat :: len <= k < dst.Length ==> dst[k] == old(dst[k])
  {
    for i: nat := 0 to len
      invariant forall k: nat :: k < i ==> dst[k] == src[k]
      invariant forall k: nat :: i <= k < dst.Length ==> dst[k] == old(dst[k])
    {
      dst[i] := src[i];
    }
  }

  /** lms_str_ocopy */
  method OCopy(src: array<byte>, dst: array<byte>, len: nat, offset: nat)
    requires src != dst && len <= src.Length && len <= dst.Length + offset
    modifies dst
    ensures dst[..] == OCopied(old(dst[..]), src[..], len, offset)
  {
    var i := offset;
    while i < len
      invariant offset <= i && (i <= len || i == offset)
      invariant forall k: nat :: k < dst.Length ==> dst[k] == if k + offset < i then src[k + offset] else old(dst[k])
    {
      dst[i - offset] := src[i];
      i := i + 1;
    }
  }

  /** What the callers of lms_str_ocopy that append need instead: the offset counts in dst. */
  method CopyBehind(src: array<byte>, dst: array<byte>, len: nat, offset: nat)
    requires src != dst && len <= src.Length && offset + len <= dst.Length
    modifies dst
    ensures dst[..] == old(dst[..offset]) + src[..len] + old(dst[offset + len..])
  {
    for i: nat := 0 to len
      invariant forall k: nat :: k < dst.Length ==>
                  dst[k] == if offset <= k < offset + i then src[k - offset] else old(dst[k])
    {
      dst[offset + i] := src[i];
    }
  }

  /** realloc, when memory does not run out: the bytes behind the old ones are arbitrary. */
  method Realloc(a: array<byte>, n: nat) returns (b: array<byte>)
    ensures fresh(b) && b.Length == n
    ensures forall k: nat :: k < n && k < a.Length ==> b[k] == a[k]
  {
    b := new byte[n];
    Copy(a, b, if n < a.Length then n else a.Length);
  }

  /** The socket types that matter here: TCP, a local client, and all others. */
  datatype Kind = Stream | Local | Other

  // ----- The send queue --------------------------------------------------------------------

  class Sender {
    const off: Offsets
    var connected: bool
    const kind: Kind
    var sendQ: array?<byte>
    var sendSize: nat
    var sendLen: nat
    ghost var wire: seq<byte>
    ghost var steps: seq<Step>

    ghost function Contents(): seq<byte>
      reads this`sendQ, sendQ
    {
      if sendQ == null then [] else sendQ[..]
    }

    /** At rest the whole block is queue; it and what send has accepted are what the steps so far
        make them. */
    ghost predicate Valid()
      reads this, sendQ
    {
      && sendLen == sendSize == |Contents()|
      && IsRun(off, steps) && After(off, steps).bytes == Contents() && After(off, steps).wire == wire
    }

    constructor (off: Offsets, connected: bool, kind: Kind)
      ensures Valid() && steps == [] && sendQ == null
      ensures this.off == off && this.connected == connected && this.kind == kind
    {
      this.off, this.connected, this.kind := off, connected, kind;
      sendQ, sendSize, sendLen, steps, wire := null, 0, 0, [], [];
    }

    /** The block after an append, and what its fresh part held. */
    method Extend(data: array<byte>, dataLen: nat) returns (q: array<byte>, ghost junk: seq<byte>)
      requires sendQ != null && sendQ.Length == sendLen > 0 && dataLen <= data.Length
      ensures fresh(q) && |junk| == dataLen
      ensures q[..] == Appended(off, sendQ[..], data[..dataLen], junk)
    {
      q := Realloc(sendQ, sendLen + dataLen);
      junk := q[sendLen..];
      assert q[..] == sendQ[..] + junk;
      if off == AsCoded {
        OCopy(data, q, dataLen, sendLen);
        assert forall k: nat :: k < dataLen ==> data[..][k] == data[..dataLen][k];
      } else {
        CopyBehind(data, q, dataLen, sendLen);
      }
    }

    /** lms_socket_appendq */
    method Append(data: array<byte>, dataLen: nat) returns (ghost junk: seq<byte>)
      requires Valid() && dataLen <= data.Length
      modifies this`sendQ, this`sendSize, this`sendLen, this`steps
      ensures Valid() && fresh(sendQ)
      ensures |junk| == dataLen && steps == old(steps) + [Step.Append(data[..dataLen], junk)]
    {
      hide After;
      ghost var was := Contents();
      ghost var bytes := data[..dataLen];
      if sendSize > 0 {
        sendQ, junk := Extend(data, dataLen);
        sendSize := sendSize + dataLen;
        sendLen := sendLen + dataLen;
      } else {
        sendQ := new byte[dataLen];
        junk := sendQ[..];
        sendSize := dataLen;
        Copy(data, sendQ, dataLen);
        sendLen := dataLen;
        assert sendQ[..] == bytes;
      }
      RunSnoc(off, steps, Step.Append(bytes, junk));
      steps := steps + [Step.Append(bytes, junk)];
    }

    /** lms_socket_clearsq, for fewer bytes than are queued; the caller adjusts sendLen. */
    method ClearSome(n: nat)
      requires sendQ != null && sendQ.Length == sendSize == sendLen && n < sendLen
      modifies this`sendQ, this`sendSize
      ensures fresh(sendQ) && sendSize == sendQ.Length == sendLen - n
      ensures sendQ[..] == Flushed(off, old(sendQ[..]), n)
    {
      var left := sendLen - n;
      var p := new byte[sendLen];
      Copy(sendQ, p, sendLen);
      ghost var was := sendQ[..];
      assert p[..] == was;
      sendQ := new byte[left](_ => 0);
      sendSize := left;
      if off == AsCoded {
        OCopy(p, sendQ, left, n);
      } else {
        OCopy(p, sendQ, sendLen, n);
      }
    }

    /** lms_socket_clearsq */
    method Clear(n: nat) returns (r: int)
      requires sendLen == sendSize == |Contents()|
      modifies this`sendQ, this`sendSize, this`sendLen
      ensures n > old(sendLen) ==>
                r == -1 && sendQ == old(sendQ) && sendLen == old(sendLen) && sendSize == old(sendSize)
      ensures n == old(sendLen) ==> r == 0 && sendQ == null && sendLen == sendSize == 0
      ensures n < old(sendLen) ==>
                && r == 0 && sendQ != null && fresh(sendQ) && sendLen == old(sendLen) && sendSize == sendLen - n
                && sendQ[..] == Flushed(off, old(Contents()), n)
    {
      if n > sendLen { return -1; }
      r := 0;
      if n == sendLen {
        sendQ, sendSize, sendLen := null, 0, 0;
      } else {
        ClearSome(n);
      }
    }

    /** The calls of send: the i-th is offered everything not yet accepted. */
    method SendAll(accept: (nat, nat) -> Option<nat>) returns (sent: nat)
      requires SendPromise(accept) && sendQ != null && sendQ.Length == sendLen
      modifies this`wire
      ensures sent <= sendLen && wire == old(wire) + sendQ[..sent]
    {
      sent := 0;
      var at, left, i := 0, sendLen, 0;
      while left > 0
        invariant sent + left == sendLen && (left > 0 ==> at == sent)
        invariant wire == old(wire) + sendQ[..sent]
        decreases left
      {
        var rv := accept(i, left);
        if rv == None { return; }
        wire := wire + sendQ[at..at + rv.value];
        assert sendQ[..sent] + sendQ[at..at + rv.value] == sendQ[..sent + rv.value];
        sent := sent + rv.value;
        left := left - rv.value;
        if sent < sendLen { at := at + rv.value; }
        i := i + 1;
      }
    }

    /** lms_socket_flushq: as many bytes leave the queue as the result says. */
    method FlushQ(accept: (nat, nat) -> Option<nat>) returns (r: int)
      requires Valid() && SendPromise(accept)
      modifies this`sendQ, this`sendSize, this`sendLen, this`steps, this`wire
      ensures Valid()
      ensures !connected || kind == Other ==> r == -1 && steps == old(steps)
      ensures connected && kind != Other ==> 0 <= r && steps == old(steps) + [Step.Flush(r)]
      ensures sendQ == old(sendQ) || sendQ == null || fresh(sendQ)
    {
      hide After, SendPromise;
      if !connected { return -1; }
      if kind == Other { return -1; }
      ghost var was := Contents();
      var sent: nat := 0;
      if sendLen > 0 {
        sent := SendAll(accept);
        if sent == sendLen {
          sendLen, sendQ, sendSize := 0, null, 0;
        } else if sent > 0 {
          var _ := Clear(sent);
          sendLen := sendLen - sent;
        }
      }
      assert was[..0] == [];
      RunSnoc(off, steps, Step.Flush(sent));
      steps := steps + [Step.Flush(sent)];
      r := sent;
    }
  }

  /** Everything appended was sent or is queued, in order: always with the intended offsets, and in
      careful runs as coded. */
  lemma SenderKeepsOrder(s: Sender)
    requires s.Valid() && (s.off == AsCoded ==> Careful(s.steps))
    ensures s.wire + s.Contents() == After(s.off, s.steps).appended
  {
    FirstInFirstOut(s.steps);
    if s.off == AsCoded {
      SameRuns(s.steps);
      SameAsItself(s.steps);
      CarefulRunsAgree(s.steps, s.steps);
    }
  }

  /** send accepts a positive number of the bytes offered, or fails. */
  ghost predicate SendPromise(accept: (nat, nat) -> Option<nat>) {
    forall i: nat, n: nat :: n > 0 && accept(i, n).Some? ==> 0 < accept(i, n).value <= n
  }

  // ----- The receive queue -----------------------------------------------------------------

  /** What the application is told after a read. */
  datatype Told = Nothing | Data | Error

  class Receiver {
    const off: Offsets
    var connected: bool
    const kind: Kind
    var recvQ: array?<byte>
    var recvSize: nat
    var recvLen: nat

    /** Room for a whole chunk, and less than two, behind what was received. */
    ghost predicate Roomy()
      reads this`recvQ, this`recvSize, this`recvLen
    {
      recvQ != null && recvQ.Length == recvSize && recvLen + CHUNK <= recvSize < recvLen + 2 * CHUNK
    }

    ghost predicate Valid()
      reads this`recvQ, this`recvSize, this`recvLen
    {
      if recvQ == null then recvLen == recvSize == 0 else Roomy()
    }

    ghost function Block(): (b: Buf)
      requires recvQ != null
      reads this`recvQ, this`recvLen, recvQ
    {
      Buf(recvQ[..], recvLen)
    }

    constructor (off: Offsets, connected: bool, kind: Kind)
      ensures Valid() && recvQ == null && this.off == off && this.connected == connected && this.kind == kind
    {
      this.off, this.connected, this.kind := off, connected, kind;
      recvQ, recvSize, recvLen := null, 0, 0;
    }

    /** The realloc of lms_socket_read, which makes room for one more chunk when one is missing. */
    method Grow() returns (ghost junk: seq<byte>)
      requires recvQ != null && recvQ.Length == recvSize && recvLen <= recvSize
      modifies this`recvQ, this`recvSize
      ensures recvQ != null && recvQ.Length == recvSize && |junk| == CHUNK
      ensures Block() == Grown(old(Block()), junk)
      ensures recvQ == old(recvQ) || fresh(recvQ)
    {
      junk := seq(CHUNK, _ => 0);
      if recvSize < recvLen + CHUNK {
        ghost var was := recvQ[..];
        var q := Realloc(recvQ, recvSize + CHUNK);
        recvQ := q;
        junk := recvQ[recvSize..];
        recvSize := recvSize + CHUNK;
        assert recvQ[..] == was + junk;
      }
    }

    /** One successful recv into c, and its bytes put into the queue. There must be room for as much
        as recv may deliver. */
    method Store(c: array<byte>, n: nat)
      requires Roomy() && c != recvQ && c.Length == CHUNK && 0 < n <= CHUNK
      modifies recvQ, this`recvLen
      ensures recvQ == old(recvQ) && Block() == Stored(off, old(Block()), old(c[..n]))
    {
      if off == AsCoded {
        assert forall k: nat :: k < n ==> c[..n][k] == c[..][k];
        OCopy(c, recvQ, n, recvLen);
      } else {
        CopyBehind(c, recvQ, n, recvLen);
      }
      recvLen := recvLen + n;
    }

    /** What recv does to c. */
    method Receive(c: array<byte>, chunk: seq<byte>)
      requires |chunk| <= c.Length
      modifies c
      ensures c[..|chunk|] == chunk
    {
      for i: nat := 0 to |chunk|
        invariant forall k: nat :: k < i ==> c[k] == chunk[k]
      {
        c[i] := chunk[i];
      }
    }

    /** One pass through the loop of lms_socket_read. */
    method ReadChunk(c: array<byte>, chunk: seq<byte>) returns (ghost junk: seq<byte>)
      requires Roomy() && c != recvQ && c.Length == CHUNK && IsChunk(chunk)
      modifies recvQ, c, this`recvQ, this`recvSize, this`recvLen
      ensures Roomy() && |junk| == CHUNK && (recvQ == old(recvQ) || fresh(recvQ))
      ensures old(Block()).len + |chunk| <= |old(Block()).bytes|
      ensures Block() == Grown(Stored(off, old(Block()), chunk), junk)
    {
      Receive(c, chunk);
      Store(c, |chunk|);
      assert |Block().bytes| == recvSize;
      junk := Grow();
      assert |Block().bytes| == recvSize;
    }

    /** The block a read begins with. */
    method Prepare() returns (ghost junk: seq<byte>)
      requires Valid()
      modifies this`recvQ, this`recvSize
      ensures Roomy() && |junk| == CHUNK && (recvQ == old(recvQ) || fresh(recvQ))
      ensures Block() == Begin(old(recvQ != null), old(if recvQ == null then Buf([], 0) else Block()), junk)
    {
      if recvSize > 0 && recvQ != null {
        junk := Grow();
      } else {
        recvQ := new byte[CHUNK];
        junk := recvQ[..];
        recvSize := CHUNK;
      }
    }

    /** lms_socket_read, when recv delivers the chunks and then nothing more or, if gone, the news
        that the connection is closed or broken. */
    method Read(chunks: seq<seq<byte>>, gone: bool) returns (r: int, told: Told, ghost memory: Memory)
      requires Valid() && AreChunks(chunks)
      modifies this`recvQ, this`recvSize, this`recvLen, recvQ
      ensures Valid() && (recvQ == old(recvQ) || fresh(recvQ))
      ensures !connected || kind != Stream ==>
                r == -1 && told == Nothing && recvQ == old(recvQ) && recvLen == old(recvLen)
      ensures connected && kind == Stream ==>
                && r == 0 && told == (if gone then Error else if chunks != [] then Data else Nothing)
                && Roomy() && |memory.first| == CHUNK && IsMemory(memory.later, |chunks|)
                && var was := old(if recvQ == null then Buf([], 0) else Block());
                   var begin := Begin(old(recvQ != null), was, memory.first);
                   begin.Sized() && Block() == Received(off, begin, chunks, memory.later)
    {
      hide Received, AreChunks, IsMemory;
      memory := Memory([], []);
      told := Nothing;
      if !connected { return -1, told, memory; }
      if kind != Stream { return -1, told, memory; }
      var c := new byte[CHUNK];
      ghost var first := Prepare();
      ghost var begin := Block();
      ghost var later: seq<seq<byte>> := [];
      BeforeChunks(off, begin, chunks);
      var i: nat := 0;
      while i < |chunks|
        invariant i <= |chunks| && c != recvQ && Roomy() && (recvQ == old(recvQ) || fresh(recvQ))
        invariant told == if i == 0 then Nothing else Data
        invariant AreChunks(chunks[..i]) && IsMemory(later, i)
        invariant Block() == Received(off, begin, chunks[..i], later)
      {
        NextChunk(off, begin, chunks, later, i);
        ghost var junk := ReadChunk(c, chunks[i]);
        OneMoreChunk(off, begin, chunks, later, i, junk);
        later := later + [junk];
        told := Data;
        i := i + 1;
      }
      assert chunks[..i] == chunks;
      if gone { told := Error; }
      r, memory := 0, Memory(first, later);
    }

    /** lms_socket_freerq */
    method Free() returns (r: int)
      requires Valid()
      modifies this`recvQ, this`recvSize, this`recvLen
      ensures Valid() && recvQ == null && r == if old(recvQ) == null then -1 else 0
    {
      r := if recvQ == null then -1 else 0;
      recvQ, recvSize, recvLen := null, 0, 0;
    }
  }

  /** What fresh memory held during one read. */
  datatype Memory = Memory(first: seq<byte>, later: seq<seq<byte>>)

  function Begin(some: bool, b: Buf, junk: seq<byte>): Buf {
    if some then Grown(b, junk) else Buf(junk, 0)
  }

  lemma RunSnoc(off: Offsets, steps: seq<Step>, s: Step)
    requires IsRun(off, steps) && Possible(After(off, steps), s)
    ensures IsRun(off, steps + [s]) && After(off, steps + [s]) == Next(off, After(off, steps), s)
  {
    AfterOneMore(off, steps, s);
    var all := steps + [s];
    forall i: nat | i < |all| ensures PossibleAt(off, all, i) {
      if i < |steps| {
        assert PossibleAt(off, steps, i);
        assert all[..i] == steps[..i];
      } else {
        assert all[..i] == steps;
      }
    }
  }

  lemma BeforeChunks(off: Offsets, b: Buf, chunks: seq<seq<byte>>)
    requires b.Sized()
    ensures AreChunks(chunks[..0]) && IsMemory([], 0) && Received(off, b, chunks[..0], []) == b
  {
  }

  lemma NextChunk(off: Offsets, b: Buf, chunks: seq<seq<byte>>, later: seq<seq<byte>>, i: nat)
    requires b.Sized() && AreChunks(chunks) && i < |chunks|
    ensures IsChunk(chunks[i]) && AreChunks(chunks[..i + 1])
  {
  }

  lemma OneMoreChunk(off: Offsets, b: Buf, chunks: seq<seq<byte>>, later: seq<seq<byte>>, i: nat, junk: seq<byte>)
    requires b.Sized() && i < |chunks| && AreChunks(chunks[..i]) && AreChunks(chunks[..i + 1])
    requires IsMemory(later, i) && |junk| == CHUNK
    ensures IsMemory(later + [junk], i + 1)
    ensures var was := Received(off, b, chunks[..i], later);
            && was.len + |chunks[i]| <= |was.bytes|
            && Received(off, b, chunks[..i + 1], later + [junk]) == Grown(Stored(off, was, chunks[i]), junk)
  {
    assert chunks[..i + 1][..i] == chunks[..i] && (later + [junk])[..i] == later;
    assert IsChunk(chunks[..i + 1][i]);
  }
}
