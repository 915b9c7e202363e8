/** The write paths of the three GPIO drivers as code over their kernel buffers, and the state they keep. */
module GpioDrivers {
  import opened Counting
  import opened StringUtils
  import opened GpioCommands

  const GPIO27: bv32 := 0x0800_0000
  const FSEL27: bv32 := 0x00E0_0000
  const FSEL27_OUTPUT: bv32 := 0x0020_0000

  /** copy_from_user of n bytes, and the terminator after them. */
  method CopyIn(kbuf: array<char>, ubuf: string, n: nat)
    requires n <= |ubuf| && n < kbuf.Length
    modifies kbuf
    ensures kbuf[..n] == ubuf[..n] && kbuf[n] == NUL
    ensures Terminated(kbuf[..]) && CStr(kbuf[..]) == UpToNul(ubuf[..n])
  {
    forall i | 0 <= i < n { kbuf[i] := ubuf[i]; }
    kbuf[n] := NUL;
    CStrOfCopy(kbuf[..], ubuf[..n]);
  }

  lemma TailCut(p: char -> bool, s: string, n: nat)
    requires n <= |s| && (n > 0 ==> !p(s[n - 1]))
    requires forall k :: n <= k < |s| ==> p(s[k])
    ensures DropTrailing(p, s) == s[..n]
  {
    assert |DropTrailing(p, s)| == n;
  }

  /** Where the text ends once the white space at its end is left off. */
  method TextEnd(s: array<char>, len: nat) returns (size: nat)
    requires len <= s.Length
    ensures size <= len && s[..size] == DropTrailing(KernelSpace, s[..len])
  {
    size := len;
    while size > 0 && KernelSpace(s[size - 1])
      invariant size <= len && forall k :: size <= k < len ==> KernelSpace(s[k])
    {
      size := size - 1;
    }
    TailCut(KernelSpace, s[..len], size);
  }

  /** strim as far as the buffer goes: the trailing white space is cut off. */
  method Strim(s: array<char>)
    requires Terminated(s[..])
    modifies s
    ensures Terminated(s[..]) && CStr(s[..]) == DropTrailing(KernelSpace, old(CStr(s[..])))
  {
    ghost var buf := s[..];
    var size := TextEnd(s, StrLen(s[..]));
    s[size] := NUL;
    CStrSlice(buf, s[..], 0, size);
  }

  /** The trim loop of the integer driver, from the end of the copied bytes. */
  method TrimLine(kbuf: array<char>, n: nat) returns (len: nat)
    requires n < kbuf.Length && kbuf[n] == NUL
    modifies kbuf
    ensures len <= n && kbuf[..len] == DropTrailing(LineSpace, old(kbuf[..n])) && kbuf[len] == NUL
  {
    ghost var copy := kbuf[..n];
    len := n;
    while len > 0 && LineSpace(kbuf[len - 1])
      invariant len <= n && kbuf[len] == NUL && kbuf[..len] == copy[..len]
      invariant forall k :: len <= k < n ==> LineSpace(copy[k])
    {
      assert kbuf[len - 1] == kbuf[..len][len - 1] == copy[len - 1];
      len := len - 1;
      kbuf[len] := NUL;
    }
    assert len > 0 ==> kbuf[len - 1] == kbuf[..len][len - 1] == copy[len - 1];
    TailCut(LineSpace, copy, len);
  }

  /** The lowering loop of the register driver. */
  method LowerInPlace(s: array<char>)
    requires Terminated(s[..])
    modifies s
    ensures Terminated(s[..]) && CStr(s[..]) == LowerAll(old(CStr(s[..])))
  {
    ghost var was := CStr(s[..]);
    ghost var n := StrLen(s[..]);
    var i := 0;
    while s[i] != NUL
      invariant i <= n < s.Length && s[n] == NUL
      invariant forall k :: 0 <= k < i ==> s[k] == Lower(was[k])
      invariant forall k :: i <= k < n ==> s[k] == was[k]
      invariant forall k :: 0 <= k < n ==> was[k] != NUL
      decreases n - i
    {
      s[i] := Lower(s[i]);
      i := i + 1;
    }
    CStrIs(s[..], n);
    assert CStr(s[..]) == LowerAll(was);
  }

  lemma CStrOfCopy(buf: seq<char>, data: string)
    requires |data| < |buf| && buf[..|data|] == data && buf[|data|] == NUL
    ensures Terminated(buf) && CStr(buf) == UpToNul(data)
  {
    var n := |UpToNul(data)|;
    assert forall k :: 0 <= k < n ==> buf[k] == data[k] && data[k] == UpToNul(data)[k];
    assert buf[n] == NUL;
    CStrIs(buf, n);
  }

  /** A comparison that stops at the terminator sees only what comes before it. */
  lemma CompareStopsAtNul(buf: seq<char>, n: nat, w: string)
    requires n < |buf| && buf[n] == NUL && NUL !in w
    ensures PrefixNoCase(buf, w) <==> PrefixNoCase(buf[..n], w)
  {
    assert Lower(NUL) == NUL;
    if n < |w| { assert w[n] in w; }
  }

  /** The output latch after GPIO27 has been driven. */
  function Driven(latch: bv32, on: bool): bv32 { if on then latch | GPIO27 else latch & !GPIO27 }

  /** GPIO27 is bit 27 of a latch of 32 lines, and digit 7 of the select register of GPIO 20..29, 3 bits each. */
  lemma WhereGpio27Is(n: bv32)
    requires n == 27
    ensures GPIO27 == 1 << n && FSEL27 == 7 << (3 * (n % 10)) && FSEL27_OUTPUT == 1 << (3 * (n % 10))
  {
  }

  lemma BitSet(x: bv32)
    ensures (x | GPIO27) & GPIO27 == GPIO27 && (x | GPIO27) & !GPIO27 == x & !GPIO27
  {
  }

  lemma BitCleared(x: bv32)
    ensures (x & !GPIO27) & GPIO27 == 0 && (x & !GPIO27) & !GPIO27 == x & !GPIO27
  {
  }

  /** Driving GPIO27 sets its own bit to the level and leaves the other 31 lines alone. */
  lemma DrivenLevel(latch: bv32, on: bool)
    ensures Driven(latch, on) & GPIO27 == (if on then GPIO27 else 0)
    ensures Driven(latch, on) & !GPIO27 == latch & !GPIO27
  {
    if on { BitSet(latch); } else { BitCleared(latch); }
  }

  /** The register driver: the function-select register of GPIO 20..29 and the output latch of GPIO 0..31. */
  class RegisterDriver {
    var fsel2: bv32
    var latch: bv32

    /** Only the three bits of GPIO27 change, to 001. */
    method AsOutput()
      modifies this`fsel2
      ensures fsel2 & FSEL27 == FSEL27_OUTPUT
      ensures fsel2 & !FSEL27 == old(fsel2) & !FSEL27
    {
      var val := fsel2;
      val := val & !(0x7 << 21);
      val := val | (0x1 << 21);
      fsel2 := val;
    }

    /** A write to GPSET0 raises the lines whose bit is 1. */
    method On()
      modifies this`latch
      ensures latch == Driven(old(latch), true)
    {
      latch := latch | (1 << 27);
    }

    /** A write to GPCLR0 lowers the lines whose bit is 1. */
    method Off()
      modifies this`latch
      ensures latch == Driven(old(latch), false)
    {
      latch := latch & !(1 << 27);
    }

    method Write(ubuf: string, fault: bool) returns (v: Verdict)
      modifies this`latch
      ensures v == if ubuf != "" && fault then Fault else RegisterParse(ubuf)
      ensures v.Accept? ==> v.count == |ubuf| && latch & GPIO27 == (if v.on then GPIO27 else 0)
      ensures latch == if v.Accept? then Driven(old(latch), v.on) else old(latch)
    {
      var kbuf := new char[16];
      var n := Min(|ubuf|, 15);
      if n == 0 { return Nothing; }
      if fault { return Fault; }
      CopyIn(kbuf, ubuf, n);
      Strim(kbuf);
      LowerInPlace(kbuf);
      if CStr(kbuf[..]) == "on" {
        On();
        return Accept(true, |ubuf|);
      } else if CStr(kbuf[..]) == "off" {
        Off();
        return Accept(false, |ubuf|);
      }
      return Invalid;
    }
  }

  /** The integer driver: the pin and the state it reports are always equal. */
  class IntegerDriver {
    var pin: bool
    var state: bool

    ghost predicate Valid()
      reads this
    {
      pin == state
    }

    constructor ()
      ensures Valid() && !pin
    {
      pin, state := false, false;
    }

    method Write(ubuf: string, fault: bool) returns (v: Verdict)
      requires Valid()
      modifies this
      ensures Valid()
      ensures v == if fault then Fault else IntegerParse(ubuf)
      ensures pin == (if v.Accept? then v.on else old(pin)) == After(old(pin), v)
      ensures v.Accept? ==> v.count == |ubuf|
    {
      var kbuf := new char[32];
      var len := Min(|ubuf|, 31);
      if fault { return Fault; }
      CopyIn(kbuf, ubuf, len);
      len := TrimLine(kbuf, len);
      CompareStopsAtNul(kbuf[..], len, "on");
      CompareStopsAtNul(kbuf[..], len, "off");
      assert kbuf[..][..len] == kbuf[..len];
      if PrefixNoCase(kbuf[..], "on") {
        pin := true;
        state := true;
        return Accept(true, |ubuf|);
      } else if PrefixNoCase(kbuf[..], "off") {
        pin := false;
        state := false;
        return Accept(false, |ubuf|);
      }
      return Invalid;
    }

    /** Only a read at position 0 yields text: the word of the current level, or an error if it does not fit. */
    method Read(count: nat, ppos: nat, fault: bool) returns (v: Verdict, text: string, ppos': nat)
      requires Valid()
      ensures text != "" ==> text == (if pin then "on\n" else "off\n") && v == Accept(pin, |text|) && ppos' == |text|
      ensures text == "" ==> ppos' == ppos
      ensures text != "" <==> ppos == 0 && count >= |Shown(pin)| && !fault
      ensures ppos > 0 ==> v == Nothing
      ensures ppos == 0 && count < |Shown(pin)| ==> v == Invalid
      ensures ppos == 0 && count >= |Shown(pin)| && fault ==> v == Fault
    {
      var tmp := if state then "on\n" else "off\n";
      if ppos > 0 { return Nothing, "", ppos; }
      if count < |tmp| { return Invalid, "", ppos; }
      if fault { return Fault, "", ppos; }
      return Accept(state, |tmp|), tmp, |tmp|;
    }
  }

  /** The descriptor driver's line. */
  class DescriptorDriver {
    var line: bool

    method Write(buf: string, fault: bool) returns (v: Verdict)
      modifies this
      ensures v == if buf != "" && fault then Fault else DescriptorParse(buf)
      ensures line == (if v.Accept? then v.on else old(line)) == After(old(line), v)
      ensures v.Accept? ==> v.count == if |buf| <= 7 then |buf| else 7
    {
      var kbuf := new char[8](_ => NUL);
      if |buf| == 0 { return Nothing; }
      var len := Min(|buf|, 7);
      if fault { return Fault; }
      forall i | 0 <= i < len { kbuf[i] := buf[i]; }
      CompareStopsAtNul(kbuf[..], len, "on");
      CompareStopsAtNul(kbuf[..], len, "off");
      assert kbuf[..][..len] == buf[..len];
      if kbuf[0] == '1' || PrefixNoCase(kbuf[..], "on") {
        line := true;
        return Accept(true, len);
      } else if kbuf[0] == '0' || PrefixNoCase(kbuf[..], "off") {
        line := false;
        return Accept(false, len);
      }
      return Invalid;
    }
  }
}
