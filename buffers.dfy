/** Fixed-capacity, NUL-terminated character buffers as the firmware keeps
    them inside its `UIState` record (src/main.cpp:56-68), and `copyTo`, the
    only way telemetry text gets into them (src/main.cpp:79-85). Every byte
    of an Arduino `String` is one `char` here. */
module Buffers {

  const NUL: char := '\0'

  /** The C-string view of a buffer, as `strcmp` and `print` read it: the
      bytes before the first NUL, or the whole buffer if it holds none. */
  function CStr(buf: seq<char>): (r: seq<char>)
    ensures |r| <= |buf| && r == buf[..|r|]
    ensures NUL !in r
    ensures |r| < |buf| ==> buf[|r|] == NUL
  {
    if |buf| == 0 then []
    else if buf[0] == NUL then []
    else
      var rest := CStr(buf[1..]);
      assert buf[1..][..|rest|] == buf[1..|rest| + 1];
      [buf[0]] + rest
  }

  /** A view ends at the first NUL: whatever follows it is not part of it. */
  lemma {:induction false} CStrStopsAtNul(a: seq<char>, b: seq<char>)
    requires NUL !in a
    ensures CStr(a + [NUL] + b) == a
  {
    if |a| > 0 {
      assert (a + [NUL] + b)[1..] == a[1..] + [NUL] + b;
      CStrStopsAtNul(a[1..], b);
    }
  }

  /** A buffer without NUL is its own view. */
  lemma {:induction false} CStrNoNul(a: seq<char>)
    requires NUL !in a
    ensures CStr(a) == a
  {
    if |a| > 0 {
      CStrNoNul(a[1..]);
    }
  }

  /** How many bytes `copyTo` copies into a buffer of capacity `cap`. */
  function CopyLen(cap: nat, s: seq<char>): (n: nat)
    requires cap > 0
    ensures n < cap && n <= |s|
    ensures n == |s| || n == cap - 1
  {
    if |s| >= cap then cap - 1 else |s|
  }

  /** The buffer `copyTo(dst, cap, s)` leaves, with `cap == |buf|`: nothing
      changes for capacity 0; otherwise the first `CopyLen` bytes of `s`, a
      NUL, and the old bytes after that NUL. */
  function CopyInto(buf: seq<char>, s: seq<char>): (r: seq<char>)
    ensures |r| == |buf|
    ensures |buf| == 0 ==> r == buf
    ensures |buf| > 0 ==>
      var n := CopyLen(|buf|, s);
      r[..n] == s[..n] && r[n] == NUL && r[n + 1..] == buf[n + 1..]
  {
    if |buf| == 0 then buf
    else
      var n := CopyLen(|buf|, s);
      var r := s[..n] + [NUL] + buf[n + 1..];
      assert r[..n] == s[..n];
      assert r[n + 1..] == buf[n + 1..];
      r
  }

  /** What `strcmp` and `print` see after `copyTo`: the truncated text, up to
      its own first NUL if the payload held one. A text shorter than the
      buffer is kept whole. */
  lemma CopyIntoView(buf: seq<char>, s: seq<char>)
    requires |buf| > 0
    ensures CStr(CopyInto(buf, s)) == CStr(s[..CopyLen(|buf|, s)])
    ensures NUL !in s && |s| < |buf| ==> CStr(CopyInto(buf, s)) == s
  {
    var n := CopyLen(|buf|, s);
    var r := CopyInto(buf, s);
    assert r == s[..n] + [NUL] + buf[n + 1..];
    if NUL in s[..n] {
      var j :| 0 <= j < n && s[j] == NUL;
      var i := FirstNul(s[..n], j);
      assert s[..n] == s[..i] + [NUL] + s[i + 1..n];
      assert r == s[..i] + [NUL] + (s[i + 1..n] + [NUL] + buf[n + 1..]);
      CStrStopsAtNul(s[..i], s[i + 1..n] + [NUL] + buf[n + 1..]);
      CStrStopsAtNul(s[..i], s[i + 1..n]);
    } else {
      CStrStopsAtNul(s[..n], buf[n + 1..]);
      CStrNoNul(s[..n]);
    }
    if NUL !in s && |s| < |buf| {
      assert s[..n] == s;
    }
  }

  /** The first NUL at or before index `j`. */
  lemma FirstNul(s: seq<char>, j: nat) returns (i: nat)
    requires j < |s| && s[j] == NUL
    ensures i <= j && s[i] == NUL && NUL !in s[..i]
  {
    i := 0;
    while s[i] != NUL
      invariant i <= j && NUL !in s[..i]
      decreases j - i
    {
      assert s[..i + 1] == s[..i] + [s[i]];
      i := i + 1;
    }
  }

  /** `copyTo` (src/main.cpp:79-85): `memcpy` of `n` bytes, then the NUL. */
  method CopyTo(dst: array<char>, s: seq<char>)
    modifies dst
    ensures dst[..] == CopyInto(old(dst[..]), s)
  {
    if dst.Length == 0 {
      return;
    }
    var n := |s|;
    if n >= dst.Length {
      n := dst.Length - 1;
    }
    for i := 0 to n
      invariant forall m :: 0 <= m < i ==> dst[m] == s[m]
      invariant forall m :: i <= m < dst.Length ==> dst[m] == old(dst[m])
    {
      dst[i] := s[i];
    }
    dst[n] := NUL;
    assert dst[..] == s[..n] + [NUL] + old(dst[..])[n + 1..];
  }
}
