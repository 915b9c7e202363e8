/** str_reverse and str_trim over a character array that holds a null-terminated string. */
module StringUtils {

  const NUL: char := '\0'

  ghost predicate Terminated(buf: seq<char>) { NUL in buf }

  function StrLen(buf: seq<char>): (n: nat)
    requires Terminated(buf)
    ensures n < |buf| && buf[n] == NUL && forall k :: 0 <= k < n ==> buf[k] != NUL
  {
    if buf[0] == NUL then 0 else 1 + StrLen(buf[1..])
  }

  /** The string a buffer holds. */
  function CStr(buf: seq<char>): seq<char>
    requires Terminated(buf)
  {
    buf[..StrLen(buf)]
  }

  lemma CStrIs(buf: seq<char>, n: nat)
    requires n < |buf| && buf[n] == NUL && forall k :: 0 <= k < n ==> buf[k] != NUL
    ensures Terminated(buf) && StrLen(buf) == n && CStr(buf) == buf[..n]
  {
    assert NUL in buf;
  }

  /** A piece of the old string, moved to the front and terminated, is the new string. */
  lemma CStrSlice(was: seq<char>, now: seq<char>, start: nat, stop: nat)
    requires Terminated(was) && start <= stop <= StrLen(was) && stop - start < |now|
    requires now[..stop - start] == was[start..stop] && now[stop - start] == NUL
    ensures Terminated(now) && StrLen(now) == stop - start && CStr(now) == CStr(was)[start..stop]
  {
    var n := stop - start;
    assert forall k :: 0 <= k < n ==> now[k] == now[..n][k] == was[start..stop][k] == was[start + k];
    CStrIs(now, n);
    assert CStr(was)[start..stop] == was[start..stop];
  }

  /** isspace in the C locale. */
  predicate IsSpace(c: char) {
    c == ' ' || c == '\t' || c == '\n' || c == '\r' || c == 11 as char || c == 12 as char
  }

  function Reversed(s: seq<char>): (r: seq<char>)
    ensures |r| == |s| && forall k :: 0 <= k < |s| ==> r[k] == s[|s| - 1 - k]
  {
    seq(|s|, k requires 0 <= k < |s| => s[|s| - 1 - k])
  }

  predicate Blank(s: seq<char>) { forall k :: 0 <= k < |s| ==> IsSpace(s[k]) }

  /** t is s[a..b], with nothing but white space around it, and starts and ends with other characters if any. */
  ghost predicate Window(t: seq<char>, s: seq<char>, a: int, b: int) {
    && 0 <= a <= b <= |s| && t == s[a..b]
    && (forall k :: 0 <= k < a ==> IsSpace(s[k]))
    && (forall k :: b <= k < |s| ==> IsSpace(s[k]))
    && (t != [] ==> !IsSpace(s[a]) && !IsSpace(s[b - 1]))
  }

  /** t is what lies between the first and the last non-space character of s. */
  ghost predicate IsTrimOf(t: seq<char>, s: seq<char>) { exists a, b :: Window(t, s, a, b) }

  /** There is only one such string, and it is empty exactly for blank strings. */
  lemma TrimUnique(s: seq<char>, t: seq<char>, u: seq<char>)
    requires IsTrimOf(t, s) && IsTrimOf(u, s)
    ensures t == u
    ensures t == [] <==> Blank(s)
  {
    var a, b :| Window(t, s, a, b);
    var c, d :| Window(u, s, c, d);
    if t == [] || u == [] {
      assert Blank(s) by {
        assert t == [] ==> a == b;
        assert u == [] ==> c == d;
      }
    }
  }

  function Leading(s: seq<char>): (n: nat)
    ensures n <= |s| && (forall k :: 0 <= k < n ==> IsSpace(s[k])) && (n < |s| ==> !IsSpace(s[n]))
  {
    if s == [] || !IsSpace(s[0]) then 0 else 1 + Leading(s[1..])
  }

  function Trailing(s: seq<char>): (n: nat)
    ensures n <= |s| && (forall k :: |s| - n <= k < |s| ==> IsSpace(s[k])) && (n < |s| ==> !IsSpace(s[|s| - n - 1]))
  {
    if s == [] || !IsSpace(s[|s| - 1]) then 0 else 1 + Trailing(s[..|s| - 1])
  }

  function Trimmed(s: seq<char>): (t: seq<char>)
    ensures IsTrimOf(t, s)
  {
    var a, b := Leading(s), |s| - Trailing(s);
    if a <= b then assert Window(s[a..b], s, a, b); s[a..b] else assert Window([], s, 0, 0); []
  }

  lemma TrimIdempotent(s: seq<char>)
    ensures Trimmed(Trimmed(s)) == Trimmed(s)
  {
    var t := Trimmed(s);
    assert Window(t, t, 0, |t|);
    TrimUnique(t, Trimmed(t), t);
  }

  lemma ReverseInvolution(s: seq<char>)
    ensures Reversed(Reversed(s)) == s
  {
    assert forall k :: 0 <= k < |s| ==> Reversed(Reversed(s))[k] == s[k];
  }

  lemma WindowReversed(t: seq<char>, s: seq<char>, a: int, b: int)
    requires Window(t, s, a, b)
    ensures Window(Reversed(t), Reversed(s), |s| - b, |s| - a)
  {
    var r := Reversed(s);
    forall k | 0 <= k < |t| ensures Reversed(t)[k] == r[|s| - b..|s| - a][k] {
      assert t[|t| - 1 - k] == s[b - 1 - k];
    }
  }

  lemma TrimCommutesWithReverse(s: seq<char>)
    ensures Trimmed(Reversed(s)) == Reversed(Trimmed(s))
  {
    var t := Trimmed(s);
    var a, b :| Window(t, s, a, b);
    WindowReversed(t, s, a, b);
    TrimUnique(Reversed(s), Trimmed(Reversed(s)), Reversed(t));
  }

  lemma ReverseDone(was: seq<char>, now: seq<char>, len: nat)
    requires Terminated(was) && len == StrLen(was) && |now| == |was|
    requires forall k :: 0 <= k < len ==> now[k] == was[len - 1 - k]
    requires forall k :: len <= k < |was| ==> now[k] == was[k]
    ensures Terminated(now) && StrLen(now) == len
    ensures CStr(now) == Reversed(CStr(was)) && now[len..] == was[len..]
  {
    CStrIs(now, len);
  }

  /** str_reverse: a null pointer is left alone; otherwise the string is reversed and nothing else changes. */
  method StrReverse(str: array?<char>)
    requires str != null ==> Terminated(str[..])
    modifies str
    ensures str != null ==>
      && Terminated(str[..])
      && CStr(str[..]) == Reversed(old(CStr(str[..])))
      && str[StrLen(str[..])..] == old(str[StrLen(str[..])..])
  {
    if str == null { return; }
    ghost var was := str[..];
    var len := StrLen(str[..]);
    var i := 0;
    while i < len / 2
      invariant 0 <= i <= len / 2
      invariant forall k :: 0 <= k < i ==> str[k] == was[len - 1 - k]
      invariant forall k :: len - i <= k < len ==> str[k] == was[len - 1 - k]
      invariant forall k :: i <= k < len - i ==> str[k] == was[k]
      invariant forall k :: len <= k < str.Length ==> str[k] == was[k]
    {
      var tmp := str[i];
      str[i] := str[len - 1 - i];
      str[len - 1 - i] := tmp;
      i := i + 1;
    }
    assert forall k :: 0 <= k < len ==> str[k] == was[len - 1 - k];
    ReverseDone(was, str[..], len);
  }

  /** The shift of str_trim: str[start..stop] moves to the front and is terminated there. */
  method ShiftDown(str: array<char>, start: nat, stop: nat)
    requires start <= stop < str.Length
    modifies str
    ensures str[..stop - start] == old(str[start..stop]) && str[stop - start] == NUL
    ensures forall k :: stop - start < k < str.Length ==> str[k] == old(str[k])
  {
    ghost var was := str[..];
    var i, j := start, 0;
    while i < stop
      invariant start <= i <= stop && j == i - start
      invariant forall k :: 0 <= k < j ==> str[k] == was[start + k]
      invariant forall k :: j <= k < str.Length ==> str[k] == was[k]
    {
      str[j] := str[i];
      i, j := i + 1, j + 1;
    }
    str[j] := NUL;
  }

  /** str_trim: a null pointer is left alone; otherwise the array holds the trimmed string. */
  method StrTrim(str: array?<char>)
    requires str != null ==> Terminated(str[..])
    modifies str
    ensures str != null ==>
      && Terminated(str[..])
      && CStr(str[..]) == Trimmed(old(CStr(str[..])))
      && forall k :: StrLen(str[..]) < k < str.Length ==> str[k] == old(str[k])
  {
    if str == null { return; }
    ghost var was := str[..];
    ghost var s := CStr(was);
    var start := 0;
    while IsSpace(str[start])
      invariant start <= |s|
      invariant forall k :: 0 <= k < start ==> IsSpace(s[k])
      decreases |s| - start
    {
      assert start < |s|;
      start := start + 1;
    }
    var end := StrLen(str[..]) - 1;
    while end > start && IsSpace(str[end])
      invariant -1 <= end < |s| && (start < |s| ==> start <= end)
      invariant forall k :: end < k < |s| ==> IsSpace(s[k])
    {
      end := end - 1;
    }
    // A blank string leaves end < start, and the shift copies nothing.
    var stop := if start <= end then end + 1 else start;
    ghost var t := s[start..stop];
    assert Window(t, s, start, stop);
    ShiftDown(str, start, stop);
    CStrSlice(was, str[..], start, stop);
    TrimUnique(s, t, Trimmed(s));
  }
}
