/** The send and receive queues of msocket/socket.c: what each operation does to the bytes, with the
    copy offsets as the code has them and as its callers need them, and what follows over runs. */
module Queues {
  import opened Common

  const CHUNK := 1024

  /** Three calls pass an offset to lms_str_ocopy. AsCoded is what that routine does with it: it
      skips that many bytes of the source and copies up to byte len. AsIntended is what the callers
      need: new bytes go behind the old ones, and clearing moves the whole tail to the front. */
  datatype Offsets = AsCoded | AsIntended

  /** The exact effect of lms_str_ocopy (str.c:426-446). */
  function OCopied(dst: seq<byte>, src: seq<byte>, len: nat, offset: nat): (r: seq<byte>)
    requires len <= |src|
    ensures |r| == |dst|
  {
    seq(|dst|, k requires 0 <= k < |dst| => if k + offset < len then src[k + offset] else dst[k])
  }

  // ----- The send queue --------------------------------------------------------------------

  function Zeros(n: nat): (r: seq<byte>)
    ensures |r| == n
  {
    seq(n, _ => 0)
  }

  /** junk is what the new part of the reallocated block holds. */
  function Appended(off: Offsets, q: seq<byte>, data: seq<byte>, junk: seq<byte>): (r: seq<byte>)
    requires |junk| == |data|
    ensures |r| == |q| + |data|
  {
    if q == [] then data
    else
      match off
      case AsIntended => q + data
      case AsCoded => OCopied(q + junk, data, |data|, |q|)
  }

  /** What is left when the first n bytes were sent. */
  function Flushed(off: Offsets, q: seq<byte>, n: nat): (r: seq<byte>)
    requires n <= |q|
    ensures |r| == |q| - n
  {
    if n == 0 then q
    else if n == |q| then []
    else
      match off
      case AsIntended => q[n..]
      case AsCoded => OCopied(Zeros(|q| - n), q, |q| - n, n)
  }

  datatype Step =
    | Append(data: seq<byte>, junk: seq<byte>)
    | Flush(accepted: nat)

  /** The queued bytes, and everything send has accepted and the application appended so far. */
  datatype Queue = Queue(bytes: seq<byte>, wire: seq<byte>, appended: seq<byte>)

  predicate Possible(q: Queue, s: Step) {
    match s
    case Append(data, junk) => |junk| == |data|
    case Flush(n) => n <= |q.bytes|
  }

  function Next(off: Offsets, q: Queue, s: Step): Queue {
    if !Possible(q, s) then q
    else
      match s
      case Append(data, junk) => Queue(Appended(off, q.bytes, data, junk), q.wire, q.appended + data)
      case Flush(n) => Queue(Flushed(off, q.bytes, n), q.wire + q.bytes[..n], q.appended)
  }

  function After(off: Offsets, steps: seq<Step>): Queue {
    if steps == [] then Queue([], [], []) else Next(off, After(off, steps[..|steps| - 1]), steps[|steps| - 1])
  }

  predicate IsRun(off: Offsets, steps: seq<Step>) {
    forall i: nat :: i < |steps| ==> PossibleAt(off, steps, i)
  }

  predicate PossibleAt(off: Offsets, steps: seq<Step>, i: nat)
    requires i < |steps|
  {
    Possible(After(off, steps[..i]), steps[i])
  }

  /** Conservation: every byte appended is accounted for, whatever its value became. */
  lemma {:induction false} NoByteUncounted(off: Offsets, steps: seq<Step>)
    ensures var q := After(off, steps); |q.appended| == |q.wire| + |q.bytes|
  {
    if steps == [] {
    } else {
      NoByteUncounted(off, steps[..|steps| - 1]);
    }
  }

  predicate InOrder(q: Queue) {
    q.wire + q.bytes == q.appended
  }

  lemma NextInOrder(q: Queue, s: Step)
    requires InOrder(q)
    ensures InOrder(Next(AsIntended, q, s))
  {
    if Possible(q, s) {
      match s
      case Append(data, junk) =>
        assert q.wire + (q.bytes + data) == q.appended + data;
      case Flush(n) =>
        assert q.bytes == q.bytes[..n] + Flushed(AsIntended, q.bytes, n);
        assert q.wire + q.bytes[..n] + Flushed(AsIntended, q.bytes, n) == q.wire + q.bytes;
    }
  }

  /** First in, first out, with the intended offsets: what was sent, followed by what is queued, is
      everything that was appended. */
  lemma {:induction false} FirstInFirstOut(steps: seq<Step>)
    ensures InOrder(After(AsIntended, steps))
  {
    hide InOrder, Next;
    if steps == [] {
      EmptyInOrder();
    } else {
      FirstInFirstOut(steps[..|steps| - 1]);
      NextInOrder(After(AsIntended, steps[..|steps| - 1]), steps[|steps| - 1]);
    }
  }

  lemma EmptyInOrder()
    ensures InOrder(Queue([], [], []))
  {
  }

  // ----- When the coded offsets do what is intended ----------------------------------------

  function Flip(b: byte): byte {
    b ^ 1
  }

  lemma FlipDiffers(b: byte)
    ensures Flip(b) != b
  {
  }

  /** Appending with the coded offset is right, whatever fresh memory holds, exactly when the queue
      is empty or there is nothing to append. */
  lemma CodedAppendIsRight(q: seq<byte>, data: seq<byte>)
    ensures (forall junk: seq<byte> :: |junk| == |data| ==> Appended(AsCoded, q, data, junk) == q + data)
            <==> q == [] || data == []
  {
    if q != [] && data != [] {
      var junk := data[|data| - 1 := Flip(data[|data| - 1])];
      FlipDiffers(data[|data| - 1]);
      assert Appended(AsCoded, q, data, junk)[|q| + |data| - 1] == junk[|data| - 1];
      assert (q + data)[|q| + |data| - 1] == data[|data| - 1];
    }
  }

  predicate ZeroFrom(q: seq<byte>, n: nat) {
    forall i: nat :: n <= i < |q| ==> q[i] == 0
  }

  /** Clearing n bytes with the coded count keeps the tail exactly when what it fails to move was
      zero anyway. */
  lemma CodedClearIsRight(q: seq<byte>, n: nat)
    requires 0 < n < |q|
    ensures Flushed(AsCoded, q, n) == q[n..] <==> ZeroFrom(q, Max(n, |q| - n))
  {
    var r := Flushed(AsCoded, q, n);
    assert forall k: nat :: k < |q| - n ==> r[k] == (if k + n < |q| - n then q[k + n] else 0) && q[n..][k] == q[k + n];
    if r == q[n..] {
      forall i: nat | Max(n, |q| - n) <= i < |q| ensures q[i] == 0 {
        assert q[n..][i - n] == q[i];
      }
    }
  }

  predicate StepIsRight(q: seq<byte>, s: Step) {
    match s
    case Append(data, _) => q == [] || data == []
    case Flush(n) => 0 < n < |q| ==> ZeroFrom(q, Max(n, |q| - n))
  }

  /** Every append finds the queue empty or is empty, and every partial flush leaves zeros behind. */
  predicate Careful(steps: seq<Step>) {
    forall i: nat :: i < |steps| ==> CarefulAt(steps, i)
  }

  predicate CarefulAt(steps: seq<Step>, i: nat)
    requires i < |steps|
  {
    StepIsRight(After(AsIntended, steps[..i]).bytes, steps[i])
  }

  /** The same calls with the same answers, but any contents of fresh memory. */
  predicate SameStep(s: Step, t: Step) {
    match s
    case Append(data, junk) => t.Append? && t.data == data && |t.junk| == |data|
    case Flush(_) => t == s
  }

  predicate SameCalls(steps: seq<Step>, other: seq<Step>) {
    |other| == |steps| && forall i: nat :: i < |steps| ==> SameStep(steps[i], other[i])
  }

  lemma RightStep(q: Queue, s: Step, t: Step)
    requires Possible(q, s) && SameStep(s, t) && StepIsRight(q.bytes, s)
    ensures Next(AsCoded, q, t) == Next(AsIntended, q, s)
  {
    match s
    case Append(data, _) =>
      CodedAppendIsRight(q.bytes, data);
      assert q.bytes == [] || q.bytes + data == q.bytes;
    case Flush(n) =>
      if 0 < n < |q.bytes| { CodedClearIsRight(q.bytes, n); }
  }

  lemma CarefulFront(steps: seq<Step>, n: nat)
    requires n <= |steps| && Careful(steps)
    ensures Careful(steps[..n])
  {
    forall i: nat | i < n ensures CarefulAt(steps[..n], i) {
      assert CarefulAt(steps, i);
      assert steps[..n][..i] == steps[..i];
    }
  }

  lemma RunFront(off: Offsets, steps: seq<Step>, n: nat)
    requires n <= |steps| && IsRun(off, steps)
    ensures IsRun(off, steps[..n])
  {
    forall i: nat | i < n ensures PossibleAt(off, steps[..n], i) {
      assert PossibleAt(off, steps, i);
      assert steps[..n][..i] == steps[..i];
    }
  }

  lemma {:induction false} CarefulRunsAgree(steps: seq<Step>, other: seq<Step>)
    requires IsRun(AsIntended, steps) && Careful(steps) && SameCalls(steps, other)
    ensures After(AsCoded, other) == After(AsIntended, steps)
  {
    if steps == [] {
    } else {
      var n := |steps| - 1;
      RunFront(AsIntended, steps, n);
      CarefulFront(steps, n);
      assert forall i: nat :: i < n ==> SameStep(steps[..n][i], other[..n][i]) by {
        assert forall i: nat :: i < n ==> SameStep(steps[i], other[i]);
      }
      CarefulRunsAgree(steps[..n], other[..n]);
      assert PossibleAt(AsIntended, steps, n) && CarefulAt(steps, n);
      RightStep(After(AsIntended, steps[..n]), steps[n], other[n]);
    }
  }

  /** The coded queue is first in, first out after any of the first n steps, whatever fresh memory holds. */
  ghost predicate AlwaysInOrder(steps: seq<Step>) {
    forall other: seq<Step>, n: nat :: SameCalls(steps, other) && n <= |steps| ==> InOrder(After(AsCoded, other[..n]))
  }

  lemma OrderForcesBytes(q: Queue, s: Step, t: Step)
    requires InOrder(q) && Possible(q, s) && SameStep(s, t) && InOrder(Next(AsCoded, q, t))
    ensures Next(AsCoded, q, t).bytes == Next(AsIntended, q, s).bytes
  {
    NextInOrder(q, s);
    var a, b := Next(AsCoded, q, t), Next(AsIntended, q, s);
    assert a.wire == b.wire && a.appended == b.appended;
    assert a.bytes == a.appended[|a.wire|..] && b.bytes == b.appended[|b.wire|..];
  }

  /** If no choice of fresh memory upsets the order after this step, the step is a careful one. */
  lemma OrderForcesCare(q: Queue, s: Step)
    requires InOrder(q) && Possible(q, s)
    requires forall t :: SameStep(s, t) ==> InOrder(Next(AsCoded, q, t))
    ensures StepIsRight(q.bytes, s)
  {
    hide InOrder;
    match s
    case Append(data, _) =>
      forall junk: seq<byte> | |junk| == |data|
        ensures Appended(AsCoded, q.bytes, data, junk) == q.bytes + data
      {
        OrderForcesBytes(q, s, Append(data, junk));
        assert q.bytes == [] ==> q.bytes + data == data;
      }
      CodedAppendIsRight(q.bytes, data);
    case Flush(n) =>
      OrderForcesBytes(q, s, s);
      if 0 < n < |q.bytes| { CodedClearIsRight(q.bytes, n); }
  }

  lemma SameAsItself(steps: seq<Step>)
    requires IsRun(AsIntended, steps)
    ensures SameCalls(steps, steps)
  {
    forall i: nat | i < |steps| ensures SameStep(steps[i], steps[i]) {
      assert PossibleAt(AsIntended, steps, i);
    }
  }

  lemma SameCallsSnoc(steps: seq<Step>, other: seq<Step>, s: Step, t: Step)
    requires SameCalls(steps, other) && SameStep(s, t)
    ensures SameCalls(steps + [s], other + [t])
  {
  }

  lemma OrderOfFront(steps: seq<Step>)
    requires steps != [] && IsRun(AsIntended, steps) && AlwaysInOrder(steps)
    ensures AlwaysInOrder(steps[..|steps| - 1])
  {
    hide InOrder, After, SameStep;
    var k := |steps| - 1;
    var front, last := steps[..k], steps[k];
    assert steps == front + [last];
    assert SameStep(last, last) by { SameAsItself(steps); LastIsSame(steps, steps); }
    forall other: seq<Step>, n: nat | SameCalls(front, other) && n <= |front|
      ensures InOrder(After(AsCoded, other[..n]))
    {
      SameCallsSnoc(front, other, last, last);
      SameCount(front, other);
      assert (other + [last])[..n] == other[..n];
    }
  }

  lemma LastIsSame(steps: seq<Step>, other: seq<Step>)
    requires SameCalls(steps, other) && steps != []
    ensures SameStep(steps[|steps| - 1], other[|other| - 1])
  {
  }

  lemma SameCount(steps: seq<Step>, other: seq<Step>)
    requires SameCalls(steps, other)
    ensures |steps| == |other|
  {
  }

  lemma LastIsCareful(steps: seq<Step>)
    requires steps != [] && IsRun(AsIntended, steps) && AlwaysInOrder(steps)
    requires Careful(steps[..|steps| - 1])
    ensures CarefulAt(steps, |steps| - 1)
  {
    hide InOrder, SameStep, SameCalls, Careful, IsRun, Possible, StepIsRight, AlwaysInOrder;
    var k := |steps| - 1;
    var front, last := steps[..k], steps[k];
    assert steps == front + [last];
    RunFront(AsIntended, steps, k);
    SameAsItself(front);
    CarefulRunsAgree(front, front);
    FirstInFirstOut(front);
    var q := After(AsIntended, front);
    forall t | SameStep(last, t) ensures InOrder(Next(AsCoded, q, t)) {
      SameCallsSnoc(front, front, last, t);
      OrderAtEnd(steps, front + [t]);
      assert (front + [t])[..k] == front;
    }
    LastIsPossible(steps);
    OrderForcesCare(q, last);
  }

  lemma OrderAtEnd(steps: seq<Step>, other: seq<Step>)
    requires AlwaysInOrder(steps) && SameCalls(steps, other)
    ensures InOrder(After(AsCoded, other))
  {
    assert other[..|steps|] == other;
  }

  lemma LastIsPossible(steps: seq<Step>)
    requires steps != [] && IsRun(AsIntended, steps)
    ensures Possible(After(AsIntended, steps[..|steps| - 1]), steps[|steps| - 1])
  {
    assert PossibleAt(AsIntended, steps, |steps| - 1);
  }

  lemma {:induction false} OrderForcesCarefulRun(steps: seq<Step>)
    requires IsRun(AsIntended, steps) && AlwaysInOrder(steps)
    ensures Careful(steps)
  {
    hide After, AlwaysInOrder, StepIsRight;
    if steps == [] {
    } else {
      var k := |steps| - 1;
      RunFront(AsIntended, steps, k);
      OrderOfFront(steps);
      OrderForcesCarefulRun(steps[..k]);
      LastIsCareful(steps);
      forall i: nat | i < |steps| ensures CarefulAt(steps, i) {
        if i < k {
          assert CarefulAt(steps[..k], i);
          assert steps[..k][..i] == steps[..i];
        }
      }
    }
  }

  lemma CarefulRunsAreInOrder(steps: seq<Step>)
    requires IsRun(AsIntended, steps) && Careful(steps)
    ensures AlwaysInOrder(steps)
  {
    hide InOrder, After, SameStep, Careful, IsRun;
    forall other: seq<Step>, n: nat | SameCalls(steps, other) && n <= |steps|
      ensures InOrder(After(AsCoded, other[..n]))
    {
      RunFront(AsIntended, steps, n);
      CarefulFront(steps, n);
      SameFront(steps, other, n);
      CarefulRunsAgree(steps[..n], other[..n]);
      FirstInFirstOut(steps[..n]);
    }
  }

  lemma SameFront(steps: seq<Step>, other: seq<Step>, n: nat)
    requires SameCalls(steps, other) && n <= |steps|
    ensures SameCalls(steps[..n], other[..n])
  {
  }

  /** As coded, the send queue stays first in, first out whatever fresh memory holds exactly in the
      careful runs. */
  lemma CodedOrder(steps: seq<Step>)
    requires IsRun(AsIntended, steps)
    ensures AlwaysInOrder(steps) <==> Careful(steps)
  {
    hide AlwaysInOrder, Careful, IsRun;
    if AlwaysInOrder(steps) { OrderForcesCarefulRun(steps); }
    if Careful(steps) { CarefulRunsAreInOrder(steps); }
  }

  lemma {:induction false} SameLengths(steps: seq<Step>)
    ensures |After(AsCoded, steps).bytes| == |After(AsIntended, steps).bytes|
  {
    if steps == [] {
    } else {
      SameLengths(steps[..|steps| - 1]);
    }
  }

  /** The offsets change which bytes are sent, never how many. */
  lemma SameRuns(steps: seq<Step>)
    ensures IsRun(AsCoded, steps) == IsRun(AsIntended, steps)
  {
    forall i: nat | i < |steps| ensures PossibleAt(AsCoded, steps, i) == PossibleAt(AsIntended, steps, i) {
      SameLengths(steps[..i]);
    }
  }

  /** Two messages queued before anything is sent: as coded, the second one is lost. */
  lemma SecondMessageIsLost(a: byte, b: byte, junk: byte)
    requires junk != b
    ensures var steps := [Append([a], [junk]), Append([b], [junk])];
            IsRun(AsCoded, steps) && !InOrder(After(AsCoded, steps)) && After(AsCoded, steps).bytes == [a, junk]
  {
    var first, second := Append([a], [junk]), Append([b], [junk]);
    var steps := [first, second];
    var one := Queue([a], [], [a]);
    AfterOneMore(AsCoded, [], first);
    AfterOneMore(AsCoded, [first], second);
    assert [] + [first] == [first] && [first] + [second] == steps && [] + [a] == [a];
    assert After(AsCoded, [first]) == one;
    assert [a] + [junk] == [a, junk] && OCopied([a, junk], [b], 1, 1) == [a, junk];
    assert After(AsCoded, steps).appended == [a] + [b];
    assert ([] + [a, junk])[1] != ([a] + [b])[1];
    assert steps[..0] == [] && steps[..1] == [first];
    assert forall i: nat :: i < |steps| ==> PossibleAt(AsCoded, steps, i);
  }

  lemma AfterOneMore(off: Offsets, steps: seq<Step>, s: Step)
    ensures After(off, steps + [s]) == Next(off, After(off, steps), s)
  {
    assert (steps + [s])[..|steps|] == steps;
  }

  // ----- The receive queue -----------------------------------------------------------------

  /** The block behind recvQ, and how much of it was received. */
  datatype Buf = Buf(bytes: seq<byte>, len: nat) {
    predicate Sized() {
      len + 1024 <= |bytes| < len + 2048
    }

    function Seen(): seq<byte>
      requires len <= |bytes|
    {
      bytes[..len]
    }
  }

  /** What one recv delivers. */
  predicate IsChunk(chunk: seq<byte>) {
    0 < |chunk| <= 1024
  }

  function Stored(off: Offsets, b: Buf, chunk: seq<byte>): (r: Buf)
    requires b.len + |chunk| <= |b.bytes|
    ensures |r.bytes| == |b.bytes| && r.len == b.len + |chunk|
  {
    match off
    case AsIntended => Buf(b.bytes[..b.len] + chunk + b.bytes[b.len + |chunk|..], b.len + |chunk|)
    case AsCoded => Buf(OCopied(b.bytes, chunk, |chunk|, b.len), b.len + |chunk|)
  }

  /** Makes room for another chunk. */
  function Grown(b: Buf, junk: seq<byte>): Buf {
    if |b.bytes| < b.len + CHUNK then Buf(b.bytes + junk, b.len) else b
  }

  predicate AreChunks(chunks: seq<seq<byte>>) {
    forall i: nat :: i < |chunks| ==> IsChunk(chunks[i])
  }

  /** One block of fresh memory for every chunk. */
  predicate IsMemory(junks: seq<seq<byte>>, n: nat) {
    |junks| == n && forall i: nat :: i < n ==> |junks[i]| == CHUNK
  }

  /** The queue after the chunks arrived: a full chunk fits before each of them and after the last. */
  function Received(off: Offsets, b: Buf, chunks: seq<seq<byte>>, junks: seq<seq<byte>>): (r: Buf)
    requires b.Sized() && AreChunks(chunks) && IsMemory(junks, |chunks|)
    ensures r.Sized() && r.len >= b.len
  {
    if chunks == [] then b
    else
      var n := |chunks| - 1;
      var was := Received(off, b, chunks[..n], junks[..n]);
      assert IsChunk(chunks[n]);
      Grown(Stored(off, was, chunks[n]), junks[n])
  }

  function Flatten(chunks: seq<seq<byte>>): seq<byte> {
    if chunks == [] then [] else Flatten(chunks[..|chunks| - 1]) + chunks[|chunks| - 1]
  }

  lemma StoredBehind(b: Buf, chunk: seq<byte>, junk: seq<byte>)
    requires b.Sized() && IsChunk(chunk)
    ensures Grown(Stored(AsIntended, b, chunk), junk).len <= |Grown(Stored(AsIntended, b, chunk), junk).bytes|
    ensures Grown(Stored(AsIntended, b, chunk), junk).Seen() == b.Seen() + chunk
  {
    assert Stored(AsIntended, b, chunk).Seen() == b.Seen() + chunk;
  }

  /** With the intended offsets, everything received comes behind what was there, in order. */
  lemma {:induction false} ReceivedInOrder(b: Buf, chunks: seq<seq<byte>>, junks: seq<seq<byte>>)
    requires b.Sized() && AreChunks(chunks) && IsMemory(junks, |chunks|)
    ensures Received(AsIntended, b, chunks, junks).Seen() == b.Seen() + Flatten(chunks)
  {
    if chunks == [] {
      assert b.Seen() + [] == b.Seen();
    } else {
      var n := |chunks| - 1;
      ReceivedInOrder(b, chunks[..n], junks[..n]);
      assert IsChunk(chunks[n]);
      hide Stored, Grown;
      StoredBehind(Received(AsIntended, b, chunks[..n], junks[..n]), chunks[n], junks[n]);
      assert b.Seen() + (Flatten(chunks[..n]) + chunks[n]) == b.Seen() + Flatten(chunks[..n]) + chunks[n];
    }
  }

  /** Nothing received yet is in the block from len on. */
  predicate FilledFrom(b: Buf, fill: byte) {
    forall k: nat :: b.len <= k < |b.bytes| ==> b.bytes[k] == fill
  }

  lemma {:induction false} FilledStays(b: Buf, chunks: seq<seq<byte>>, junks: seq<seq<byte>>, fill: byte)
    requires b.Sized() && AreChunks(chunks) && IsMemory(junks, |chunks|) && FilledFrom(b, fill)
    requires forall i: nat, k: nat :: i < |chunks| && k < CHUNK ==> junks[i][k] == fill
    ensures var r := Received(AsCoded, b, chunks, junks);
            && FilledFrom(r, fill)
            && (chunks != [] && (b.len > 0 || |chunks| > 1) ==> r.bytes[r.len - 1] == fill)
            && (chunks != [] ==> r.len > 0)
  {
    if chunks == [] {
    } else {
      var n := |chunks| - 1;
      FilledStays(b, chunks[..n], junks[..n], fill);
      assert IsChunk(chunks[n]);
      FilledStore(Received(AsCoded, b, chunks[..n], junks[..n]), chunks[n], junks[n], fill);
    }
  }

  lemma FilledStore(b: Buf, chunk: seq<byte>, junk: seq<byte>, fill: byte)
    requires b.Sized() && IsChunk(chunk) && |junk| == CHUNK && FilledFrom(b, fill)
    requires forall k: nat :: k < CHUNK ==> junk[k] == fill
    ensures var r := Grown(Stored(AsCoded, b, chunk), junk);
            && FilledFrom(r, fill) && r.len > 0 && r.Sized()
            && (b.len > 0 ==> r.bytes[r.len - 1] == fill)
  {
    var s := Stored(AsCoded, b, chunk);
    assert forall k: nat :: k < |s.bytes| ==>
        s.bytes[k] == if k + b.len < |chunk| then chunk[k + b.len] else b.bytes[k];
  }

  /** The block of b with fill in the part that is not in use. */
  function Filled(b: Buf, fill: byte): (r: Buf)
    requires b.Sized()
    ensures r.Sized() && r.len == b.len && |r.bytes| == |b.bytes| && FilledFrom(r, fill)
    ensures r.bytes == b.Seen() + r.bytes[b.len..]
  {
    Buf(b.Seen() + seq(|b.bytes| - b.len, _ => fill), b.len)
  }

  function FilledMemory(n: nat, fill: byte): (r: seq<seq<byte>>)
    ensures IsMemory(r, n) && forall i: nat, k: nat :: i < n && k < CHUNK ==> r[i][k] == fill
  {
    seq(n, _ => seq(CHUNK, _ => fill))
  }

  lemma FillShows(b: Buf, chunks: seq<seq<byte>>, fill: byte)
    requires b.Sized() && AreChunks(chunks) && chunks != [] && (b.len > 0 || |chunks| > 1)
    ensures var r := Received(AsCoded, Filled(b, fill), chunks, FilledMemory(|chunks|, fill));
            r.len > 0 && r.Seen()[r.len - 1] == fill
  {
    hide Received, Filled, FilledMemory, AreChunks;
    FilledStays(Filled(b, fill), chunks, FilledMemory(|chunks|, fill), fill);
  }

  /** The read is right whatever the unused part of the block and fresh memory hold. */
  ghost predicate AlwaysReceivedInOrder(b: Buf, chunks: seq<seq<byte>>)
    requires b.Sized() && AreChunks(chunks)
  {
    forall room: seq<byte>, junks: seq<seq<byte>> ::
      b.len + |room| == |b.bytes| && IsMemory(junks, |chunks|) ==>
      Received(AsCoded, Buf(b.Seen() + room, b.len), chunks, junks).Seen() == b.Seen() + Flatten(chunks)
  }

  /** As coded, a read appends what it received exactly when it received nothing, or a single chunk
      into an empty queue. */
  lemma CodedReadIsRight(b: Buf, chunks: seq<seq<byte>>)
    requires b.Sized() && AreChunks(chunks)
    ensures AlwaysReceivedInOrder(b, chunks) <==> chunks == [] || (b.len == 0 && |chunks| == 1)
  {
    if chunks == [] {
      assert b.Seen() + [] == b.Seen();
    } else if b.len == 0 && |chunks| == 1 {
      SingleChunk(b, chunks);
    } else {
      MoreIsLost(b, chunks);
    }
  }

  lemma MoreIsLost(b: Buf, chunks: seq<seq<byte>>)
    requires b.Sized() && AreChunks(chunks) && chunks != [] && (b.len > 0 || |chunks| > 1)
    ensures !AlwaysReceivedInOrder(b, chunks)
  {
    hide Received, FilledMemory, Filled, Flatten, AreChunks, Flip;
    var all := b.Seen() + Flatten(chunks);
    if all != [] {
      var fill := Flip(all[|all| - 1]);
      FlipDiffers(all[|all| - 1]);
      FillShows(b, chunks, fill);
      var from := Filled(b, fill);
      assert from == Buf(b.Seen() + from.bytes[b.len..], b.len);
    } else {
      FillShows(b, chunks, 0);
      var from := Filled(b, 0);
      assert from == Buf(b.Seen() + from.bytes[b.len..], b.len);
    }
  }

  lemma SingleChunk(b: Buf, chunks: seq<seq<byte>>)
    requires b.Sized() && AreChunks(chunks) && b.len == 0 && |chunks| == 1
    ensures AlwaysReceivedInOrder(b, chunks)
  {
    assert IsChunk(chunks[0]);
    forall room: seq<byte>, junks: seq<seq<byte>> | b.len + |room| == |b.bytes| && IsMemory(junks, 1)
      ensures Received(AsCoded, Buf(b.Seen() + room, b.len), chunks, junks).Seen() == b.Seen() + Flatten(chunks)
    {
      var from := Buf(b.Seen() + room, b.len);
      assert Received(AsCoded, from, chunks[..0], junks[..0]) == from;
      var s := Stored(AsCoded, from, chunks[0]);
      assert s.Seen() == chunks[0];
      assert Flatten(chunks) == chunks[0];
      assert Grown(s, junks[0]).Seen() == chunks[0];
    }
  }
}
