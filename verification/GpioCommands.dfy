/**
  What the three GPIO drivers make of a written command: the register driver (14), the integer driver (15)
  and the descriptor driver (16).  A byte is a char below 256.
*/
module GpioCommands {
  import opened Counting
  import opened StringUtils

  /**
    The verdict on a write: the pin level and the byte count returned.  Nothing is the return value 0, Invalid
    is -EINVAL, Fault is -EFAULT.
  */
  datatype Verdict = Accept(on: bool, count: nat) | Nothing | Invalid | Fault

  /** The kernel's isspace, which counts the no-break space. */
  predicate KernelSpace(c: char) { 9 <= c as int <= 13 || c == ' ' || c as int == 160 }

  /** The kernel's tolower works on Latin-1. */
  function Lower(c: char): char {
    if 'A' <= c <= 'Z' || (0xC0 <= c as int <= 0xDE && c as int != 0xD7) then (c as int + 32) as char else c
  }

  function LowerAll(s: string): (r: string)
    ensures |r| == |s|
  {
    seq(|s|, k requires 0 <= k < |s| => Lower(s[k]))
  }

  /** The characters the integer driver trims. */
  predicate LineSpace(c: char) { c == '\n' || c == '\r' || c == ' ' || c == '\t' }

  function DropTrailing(p: char -> bool, s: string): (r: string)
    ensures r <= s
    ensures forall k :: |r| <= k < |s| ==> p(s[k])
    ensures r != "" ==> !p(r[|r| - 1])
  {
    if s == "" || !p(s[|s| - 1]) then s else DropTrailing(p, s[..|s| - 1])
  }

  /** The string a terminated copy of these bytes holds. */
  function UpToNul(s: string): (r: string)
    ensures r <= s && NUL !in r
    ensures |r| < |s| ==> s[|r|] == NUL
  {
    if s == "" || s[0] == NUL then "" else [s[0]] + UpToNul(s[1..])
  }

  /** strncasecmp of s with all of w is 0. */
  predicate PrefixNoCase(s: string, w: string) {
    |w| <= |s| && forall k :: 0 <= k < |w| ==> Lower(s[k]) == w[k]
  }

  function RegisterParse(x: string): Verdict {
    if x == "" then Nothing
    else
      var cmd := LowerAll(DropTrailing(KernelSpace, UpToNul(x[..Min(|x|, 15)])));
      if cmd == "on" then Accept(true, |x|) else if cmd == "off" then Accept(false, |x|) else Invalid
  }

  function IntegerParse(x: string): Verdict {
    var cmd := DropTrailing(LineSpace, x[..Min(|x|, 31)]);
    if PrefixNoCase(cmd, "on") then Accept(true, |x|)
    else if PrefixNoCase(cmd, "off") then Accept(false, |x|)
    else Invalid
  }

  function DescriptorParse(x: string): Verdict {
    var cmd := x[..Min(|x|, 7)];
    if x == "" then Nothing
    else if cmd[0] == '1' || PrefixNoCase(cmd, "on") then Accept(true, |cmd|)
    else if cmd[0] == '0' || PrefixNoCase(cmd, "off") then Accept(false, |cmd|)
    else Invalid
  }

  function Word(on: bool): string { if on then "on" else "off" }

  predicate Accepts(v: Verdict, on: bool) { v.Accept? && v.on == on }

  lemma LowerLetters(c: char)
    ensures Lower(c) == 'o' <==> c == 'o' || c == 'O'
    ensures Lower(c) == 'n' <==> c == 'n' || c == 'N'
    ensures Lower(c) == 'f' <==> c == 'f' || c == 'F'
  {
  }

  /** What the two command words look like in any case. */
  lemma CommandWords(x: string)
    ensures PrefixNoCase(x, Word(true)) <==> |x| >= 2 && x[0] in "oO" && x[1] in "nN"
    ensures PrefixNoCase(x, Word(false)) <==> |x| >= 3 && x[0] in "oO" && x[1] in "fF" && x[2] in "fF"
  {
    if |x| >= 2 {
      LowerLetters(x[0]);
      LowerLetters(x[1]);
      assert Word(true)[0] == 'o' && Word(true)[1] == 'n';
    }
    if |x| >= 3 {
      LowerLetters(x[2]);
      assert Word(false)[0] == 'o' && Word(false)[1] == 'f' && Word(false)[2] == 'f';
    }
  }

  /** Lowering changes capital letters only, moves them by 32, and leaves none. */
  lemma LowerIsSettled(c: char)
    requires c as int < 256
    ensures Lower(Lower(c)) == Lower(c)
    ensures Lower(c) != c <==> 65 <= c as int <= 90 || (192 <= c as int <= 222 && c as int != 215)
    ensures Lower(c) != c ==> Lower(c) as int == c as int + 32
  {
  }

  /** A byte string matches at most one of the two words. */
  lemma WordsDiffer(x: string)
    ensures !(PrefixNoCase(x, "on") && PrefixNoCase(x, "off"))
  {
    assert PrefixNoCase(x, "on") ==> Lower(x[1]) == "on"[1];
    assert PrefixNoCase(x, "off") ==> Lower(x[1]) == "off"[1];
  }

  lemma PrefixOfPrefix(x: string, y: string, w: string)
    requires y <= x
    ensures PrefixNoCase(y, w) ==> PrefixNoCase(x, w)
    ensures PrefixNoCase(x, w) && |w| <= |y| ==> PrefixNoCase(y, w)
  {
  }

  /** Trimming never eats into a command word. */
  lemma TrimKeepsWord(p: char -> bool, x: string, on: bool)
    requires !p('n') && !p('N') && !p('f') && !p('F')
    ensures PrefixNoCase(DropTrailing(p, x), Word(on)) <==> PrefixNoCase(x, Word(on))
  {
    var t, w := DropTrailing(p, x), Word(on);
    PrefixOfPrefix(x, t, w);
    if PrefixNoCase(x, w) {
      assert Lower(x[|w| - 1]) == w[|w| - 1];
      LowerLetters(x[|w| - 1]);
      assert !p(x[|w| - 1]);
    }
  }

  /** The integer driver accepts exactly the inputs that begin with a command word, in any case. */
  lemma IntegerAcceptsPrefixes(x: string, on: bool)
    ensures Accepts(IntegerParse(x), on) <==> PrefixNoCase(x, Word(on))
  {
    var cut := x[..Min(|x|, 31)];
    TrimKeepsWord(LineSpace, cut, on);
    TrimKeepsWord(LineSpace, cut, !on);
    PrefixOfPrefix(x, cut, "on");
    PrefixOfPrefix(x, cut, "off");
    WordsDiffer(x);
  }

  /** The descriptor driver accepts the same inputs, and those that begin with the digit of the level. */
  lemma DescriptorAcceptsPrefixes(x: string, on: bool)
    ensures Accepts(DescriptorParse(x), on)
            <==> Accepts(IntegerParse(x), on) || (x != "" && x[0] == (if on then '1' else '0'))
  {
    var cut := x[..Min(|x|, 7)];
    IntegerAcceptsPrefixes(x, on);
    PrefixOfPrefix(x, cut, "on");
    PrefixOfPrefix(x, cut, "off");
    WordsDiffer(x);
    if x != "" {
      LowerLetters(x[0]);
      assert PrefixNoCase(x, "on") ==> Lower(x[0]) == "on"[0];
      assert PrefixNoCase(x, "off") ==> Lower(x[0]) == "off"[0];
    }
  }

  /**
    The register driver accepts exactly the inputs that begin with the word and hold only white space
    between it and the terminator of its 15-byte copy.
  */
  lemma RegisterAcceptsPaddedWords(x: string, on: bool)
    ensures
      var s := UpToNul(x[..Min(|x|, 15)]);
      Accepts(RegisterParse(x), on)
      <==> PrefixNoCase(s, Word(on)) && forall k :: |Word(on)| <= k < |s| ==> KernelSpace(s[k])
  {
    if x != "" {
      var s := UpToNul(x[..Min(|x|, 15)]);
      var t := DropTrailing(KernelSpace, s);
      assert LowerAll(t) == Word(on) <==> |t| == |Word(on)| && PrefixNoCase(t, Word(on));
      TrimKeepsWord(KernelSpace, s, on);
    }
  }

  /** Whatever the register driver accepts, the other two accept with the same level. */
  lemma ParsersAgree(x: string, on: bool)
    requires Accepts(RegisterParse(x), on)
    ensures Accepts(IntegerParse(x), on) && Accepts(DescriptorParse(x), on)
  {
    RegisterAcceptsPaddedWords(x, on);
    PrefixOfPrefix(x, UpToNul(x[..Min(|x|, 15)]), Word(on));
    IntegerAcceptsPrefixes(x, on);
    DescriptorAcceptsPrefixes(x, on);
  }

  lemma FirstLetter(x: string, on: bool)
    requires PrefixNoCase(x, Word(on))
    ensures x[0] == 'o' || x[0] == 'O'
  {
    assert Lower(x[0]) == Word(on)[0];
    LowerLetters(x[0]);
  }

  lemma OtherLetter(x: string, on: bool)
    requires x != "" && x[0] != 'o' && x[0] != 'O'
    ensures !PrefixNoCase(x, Word(on)) && !Accepts(RegisterParse(x), on) && !Accepts(IntegerParse(x), on)
  {
    if PrefixNoCase(x, Word(on)) {
      FirstLetter(x, on);
      assert false;
    }
    RegisterAcceptsPaddedWords(x, on);
    PrefixOfPrefix(x, UpToNul(x[..Min(|x|, 15)]), Word(on));
    IntegerAcceptsPrefixes(x, on);
  }

  /** Text that begins with any other letter is a command for neither the register nor the integer driver. */
  lemma OtherLetterInvalid(x: string)
    requires x != "" && x[0] != 'o' && x[0] != 'O'
    ensures RegisterParse(x) == Invalid && IntegerParse(x) == Invalid
  {
    OtherLetter(x, true);
    OtherLetter(x, false);
  }

  /** Leading white space is trimmed by none of them: strim returns the place where the text starts, unused. */
  lemma LeadingSpaceRejected(x: string)
    requires x != "" && KernelSpace(x[0])
    ensures RegisterParse(x) == Invalid && IntegerParse(x) == Invalid && DescriptorParse(x) == Invalid
  {
    OtherLetterInvalid(x);
    DescriptorAcceptsPrefixes(x, true);
    DescriptorAcceptsPrefixes(x, false);
  }

  /** The converse fails.  Any other text after the word separates the integer driver from the register driver. */
  lemma TextAfterWord(x: string, on: bool, k: nat)
    requires PrefixNoCase(x, Word(on))
    requires |Word(on)| <= k < |x| && k < 15 && NUL !in x[..k + 1] && !KernelSpace(x[k])
    ensures Accepts(IntegerParse(x), on) && RegisterParse(x) == Invalid
  {
    var cut := x[..Min(|x|, 15)];
    var s := UpToNul(cut);
    assert forall j :: 0 <= j <= k ==> cut[j] == x[..k + 1][j];
    assert k < |s| && s[k] == x[k];
    IntegerAcceptsPrefixes(x, on);
    RegisterAcceptsPaddedWords(x, on);
    RegisterAcceptsPaddedWords(x, !on);
    PrefixOfPrefix(x, s, Word(!on));
    WordsDiffer(x);
  }

  /** So do digits, which only the descriptor driver knows. */
  lemma DigitsOnlyForDescriptor(x: string)
    requires x != "" && (x[0] == '0' || x[0] == '1')
    ensures RegisterParse(x) == Invalid && IntegerParse(x) == Invalid
    ensures Accepts(DescriptorParse(x), x[0] == '1')
  {
    OtherLetterInvalid(x);
    DescriptorAcceptsPrefixes(x, x[0] == '1');
  }

  lemma PlainString(s: string)
    requires NUL !in s
    ensures UpToNul(s) == s
  {
    var r := UpToNul(s);
    assert |r| == |s|;
  }

  /** An accepted write reports the bytes it used up: all of them, but at most 7 in the descriptor driver. */
  lemma AcceptedCounts(x: string)
    ensures RegisterParse(x).Accept? ==> RegisterParse(x).count == |x|
    ensures IntegerParse(x).Accept? ==> IntegerParse(x).count == |x|
    ensures DescriptorParse(x).Accept? ==> DescriptorParse(x).count == if |x| <= 7 then |x| else 7
  {
  }

  /** What is not accepted is refused as no command, except that two of the drivers ignore an empty write. */
  lemma RefusedVerdicts(x: string)
    ensures !RegisterParse(x).Accept? ==> RegisterParse(x) == if x == "" then Nothing else Invalid
    ensures !IntegerParse(x).Accept? ==> IntegerParse(x) == Invalid
    ensures !DescriptorParse(x).Accept? ==> DescriptorParse(x) == if x == "" then Nothing else Invalid
    ensures x == "" ==> !RegisterParse(x).Accept? && !IntegerParse(x).Accept? && !DescriptorParse(x).Accept?
  {
    if x == "" {
      IntegerAcceptsPrefixes(x, true);
      IntegerAcceptsPrefixes(x, false);
    }
  }

  /** The three notions of white space: the kernel's, the C library's, and what the integer driver trims. */
  lemma WhiteSpace(c: char)
    ensures KernelSpace(c) <==> c as int in {9, 10, 11, 12, 13, 32, 160}
    ensures IsSpace(c) <==> KernelSpace(c) && c as int != 160
    ensures LineSpace(c) <==> IsSpace(c) && c as int != 11 && c as int != 12
  {
  }

  // ---- the drivers over many writes ----

  function After(level: bool, v: Verdict): bool { if v.Accept? then v.on else level }

  function Writes(parse: string -> Verdict, level: bool, xs: seq<string>): bool {
    if xs == [] then level else After(Writes(parse, level, xs[..|xs| - 1]), parse(xs[|xs| - 1]))
  }

  lemma SameStep(level: bool, x: string)
    requires RegisterParse(x).Accept?
    ensures After(level, RegisterParse(x)) == After(level, IntegerParse(x)) == After(level, DescriptorParse(x))
  {
    ParsersAgree(x, RegisterParse(x).on);
  }

  /** After a sequence of writes the pin has the level of the last one accepted, or its old level if none was. */
  lemma {:induction false} LastAcceptedWins(parse: string -> Verdict, level: bool, xs: seq<string>, k: nat)
    requires k <= |xs| && forall j :: k <= j < |xs| ==> !parse(xs[j]).Accept?
    requires k > 0 ==> parse(xs[k - 1]).Accept?
    ensures Writes(parse, level, xs) == if k == 0 then level else parse(xs[k - 1]).on
  {
    if |xs| == k {
    } else {
      LastAcceptedWins(parse, level, xs[..|xs| - 1], k);
    }
  }

  /** A client that sends what the register driver accepts cannot tell the three pins apart. */
  lemma {:induction false} SamePins(level: bool, xs: seq<string>)
    requires forall k :: 0 <= k < |xs| ==> RegisterParse(xs[k]).Accept?
    ensures Writes(RegisterParse, level, xs) == Writes(IntegerParse, level, xs)
            == Writes(DescriptorParse, level, xs)
  {
    if xs == [] {
    } else {
      var x, rest := xs[|xs| - 1], xs[..|xs| - 1];
      SamePins(level, rest);
      SameStep(Writes(RegisterParse, level, rest), x);
    }
  }

  /** What reading the integer driver's device yields. */
  function Shown(on: bool): string { if on then "on\n" else "off\n" }

  /** Writing back what was read sets, in every driver, the level that was shown, and is taken whole. */
  lemma ShowParseRoundTrip(on: bool)
    ensures Shown(on) == Word(on) + "\n"
    ensures RegisterParse(Shown(on)) == IntegerParse(Shown(on)) == DescriptorParse(Shown(on)) == Accept(on, |Shown(on)|)
  {
    PlainString(Shown(on));
    assert Shown(on)[..Min(|Shown(on)|, 15)] == Shown(on);
    RegisterAcceptsPaddedWords(Shown(on), on);
    ParsersAgree(Shown(on), on);
    AcceptedCounts(Shown(on));
  }
}
