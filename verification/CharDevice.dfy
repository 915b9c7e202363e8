/** The character device: partial reads of a fixed message and writes cut to the size of a kernel buffer. */
module CharDevice {
  import opened Counting

  const GREET := "Hello from mydevice!\n"
  const KBUF_SIZE: nat := 256
  const EFAULT := 14

  /** One read: its result, the bytes copied to the caller and the new position.  `fault`: copy_to_user fails. */
  function Read(msg: string, pos: nat, len: nat, fault: bool): (int, string, nat) {
    if pos >= |msg| then (0, "", pos)
    else
      var n := Min(len, |msg| - pos);
      if fault then (-EFAULT, "", pos) else (n, msg[pos..pos + n], pos + n)
  }

  /** A caller's request: how much it asks for, and whether the copy to it fails. */
  datatype Request = Request(len: nat, fault: bool)

  /** Everything the caller has received after a sequence of reads from position pos. */
  function Received(msg: string, pos: nat, calls: seq<Request>): string
    decreases |calls|
  {
    if calls == [] then ""
    else
      var (_, chunk, pos') := Read(msg, pos, calls[0].len, calls[0].fault);
      chunk + Received(msg, pos', calls[1..])
  }

  /** The bytes asked for by the reads that do not fault. */
  function Asked(calls: seq<Request>): nat {
    if calls == [] then 0 else AskedBy(calls[0]) + Asked(calls[1..])
  }

  function AskedBy(call: Request): nat { if call.fault then 0 else call.len }

  lemma ReadAdvances(msg: string, pos: nat, call: Request)
    requires pos <= |msg|
    ensures
      var (_, chunk, pos') := Read(msg, pos, call.len, call.fault);
      pos' == pos + Min(AskedBy(call), |msg| - pos) && chunk == msg[pos..pos']
  {
  }

  /** The number a read returns: the bytes it delivers, 0 at the end of the message, and -EFAULT for a failed copy. */
  lemma ReadReturns(msg: string, pos: nat, len: nat, fault: bool)
    ensures
      var (result, chunk, pos') := Read(msg, pos, len, fault);
      && (result >= 0 ==> result == |chunk| == pos' - pos)
      && (result < 0 ==> result == -14 && fault && pos < |msg| && chunk == "" && pos' == pos)
      && (result == 0 <==> pos >= |msg| || (!fault && len == 0))
      && (!fault && pos < |msg| ==> result == len || (result < len && pos' == |msg|))
  {
  }

  /** Two adjacent stretches of the message, cut off at its end, are one. */
  lemma Glue(msg: string, pos: nat, mid: nat, a: nat, b: nat)
    requires pos <= |msg| && mid == pos + Min(a, |msg| - pos)
    ensures msg[pos..mid] + msg[mid..mid + Min(b, |msg| - mid)] == msg[pos..pos + Min(a + b, |msg| - pos)]
  {
    assert mid + Min(b, |msg| - mid) == pos + Min(a + b, |msg| - pos);
  }

  /** From any position, the reads deliver the next bytes of the message without gap, overlap or repetition. */
  lemma {:induction false} ReadsAreContiguous(msg: string, pos: nat, calls: seq<Request>)
    requires pos <= |msg|
    ensures Received(msg, pos, calls) == msg[pos..pos + Min(Asked(calls), |msg| - pos)]
    decreases |calls|
  {
    if calls == [] {
    } else {
      var mid := pos + Min(AskedBy(calls[0]), |msg| - pos);
      ReadAdvances(msg, pos, calls[0]);
      ReadsAreContiguous(msg, mid, calls[1..]);
      assert Received(msg, pos, calls) == msg[pos..mid] + Received(msg, mid, calls[1..]);
      Glue(msg, pos, mid, AskedBy(calls[0]), Asked(calls[1..]));
    }
  }

  /** From the start, any sequence of read lengths yields the first min(sum, length) bytes. */
  lemma ReadsYieldPrefix(msg: string, calls: seq<Request>)
    ensures Received(msg, 0, calls) == msg[..Min(Asked(calls), |msg|)]
  {
    ReadsAreContiguous(msg, 0, calls);
  }

  /** One write: the bytes taken into the kernel buffer. */
  function Accepted(data: string): nat { Min(|data|, KBUF_SIZE - 1) }

  /** The pieces a caller hands over that submits the unaccepted tail again until nothing is left. */
  function Pieces(data: string): seq<string>
    decreases |data|
  {
    if data == "" then [] else [data[..Accepted(data)]] + Pieces(data[Accepted(data)..])
  }

  function Concat(pieces: seq<string>): string {
    if pieces == [] then "" else pieces[0] + Concat(pieces[1..])
  }

  /** All n bytes arrive, in order, in ceil(n / 255) writes, each of 255 bytes but the last, and none empty. */
  lemma {:induction false} ResubmittedWrite(data: string)
    ensures Concat(Pieces(data)) == data
    ensures |Pieces(data)| == (|data| + 254) / 255
    ensures forall k :: 0 <= k < |Pieces(data)| ==> 0 < |Pieces(data)[k]| <= 255
    ensures forall k :: 0 <= k < |Pieces(data)| - 1 ==> |Pieces(data)[k]| == 255
    decreases |data|
  {
    if data == "" {
    } else {
      var n := Accepted(data);
      ResubmittedWrite(data[n..]);
      assert Pieces(data)[1..] == Pieces(data[n..]);
      assert data[..n] + data[n..] == data;
    }
  }

  /** An open file on the device. */
  class OpenFile {
    var pos: nat

    constructor ()
      ensures pos == 0
    {
      pos := 0;
    }

    method MyRead(len: nat, fault: bool) returns (result: int, chunk: string)
      modifies this
      ensures (result, chunk, pos) == Read(GREET, old(pos), len, fault)
      ensures result >= 0 ==> result == |chunk| == pos - old(pos)
      ensures result < 0 ==> result == -14 && fault && chunk == "" && pos == old(pos) < |GREET|
    {
      var msgLen := |GREET|;
      if pos >= msgLen { return 0, ""; }
      var remaining := msgLen - pos;
      var toCopy := if len < remaining then len else remaining;
      if fault { return -EFAULT, ""; }
      chunk := GREET[pos..pos + toCopy];
      pos := pos + toCopy;
      return toCopy, chunk;
    }

    /**
      The caller's bytes land at the start of the kernel buffer, followed by a terminator.  A copy that faults
      may have stored some of them (`partial`); nothing is promised about that part of the buffer.
    */
    method MyWrite(kbuf: array<char>, buf: string, fault: bool, partial: nat) returns (result: int)
      requires kbuf.Length == KBUF_SIZE
      modifies kbuf
      ensures result == if fault then -14 else if |buf| <= 255 then |buf| else 255
      ensures fault ==> result == -EFAULT && kbuf[Accepted(buf)..] == old(kbuf[Accepted(buf)..])
      ensures !fault ==>
        && result == Accepted(buf) < kbuf.Length
        && kbuf[..result] == buf[..result] && kbuf[result] == '\0'
        && kbuf[result + 1..] == old(kbuf[result + 1..])
    {
      var toCopy := if |buf| < KBUF_SIZE - 1 then |buf| else KBUF_SIZE - 1;
      if fault {
        forall i | 0 <= i < Min(partial, toCopy) { kbuf[i] := buf[i]; }
        return -EFAULT;
      }
      forall i | 0 <= i < toCopy { kbuf[i] := buf[i]; }
      kbuf[toCopy] := '\0';
      return toCopy;
    }
  }

  /** A caller that submits the unaccepted tail again until nothing is left, and what each call puts in the buffer. */
  method WriteFully(file: OpenFile, kbuf: array<char>, data: string) returns (pieces: seq<string>)
    requires kbuf.Length == KBUF_SIZE
    modifies kbuf
    ensures pieces == Pieces(data)
  {
    var rest := data;
    pieces := [];
    while rest != ""
      invariant pieces + Pieces(rest) == Pieces(data)
      decreases |rest|
    {
      var n := file.MyWrite(kbuf, rest, false, 0);
      assert pieces + Pieces(rest) == pieces + [kbuf[..n]] + Pieces(rest[n..]);
      pieces := pieces + [kbuf[..n]];
      rest := rest[n..];
    }
  }
}
