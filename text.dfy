/** ASCII character classes and the Arduino `String` search and replace
    operations that the stage-label compactor is built from (src/main.cpp).
    Every string reaching these helpers comes from a C string, so none holds
    a NUL character and `strstr`-based search sees the whole string. */
module Text {

  // ---------------- characters (C locale) ----------------

  predicate IsUpper(c: char) { 'A' <= c <= 'Z' }
  predicate IsLower(c: char) { 'a' <= c <= 'z' }

  /** `isalpha` in the C locale. */
  predicate IsAlpha(c: char) { IsUpper(c) || IsLower(c) }

  /** `tolower`: only 'A'..'Z' change. */
  function ToLower(c: char): (r: char)
    ensures IsUpper(c) ==> IsLower(r) && r as int == c as int + 32
    ensures !IsUpper(c) ==> r == c
  {
    if IsUpper(c) then (c as int + 32) as char else c
  }

  /** `toupper`: only 'a'..'z' change. */
  function ToUpper(c: char): (r: char)
    ensures IsLower(c) ==> IsUpper(r) && r as int == c as int - 32
    ensures !IsLower(c) ==> r == c
  {
    if IsLower(c) then (c as int - 32) as char else c
  }

  /** `String::toLowerCase`: every character through `tolower`. */
  function Lower(s: string): (r: string)
    ensures |r| == |s|
    ensures forall i :: 0 <= i < |s| ==> !IsUpper(r[i]) && IsAlpha(r[i]) == IsAlpha(s[i])
    ensures forall i :: 0 <= i < |s| && !IsAlpha(s[i]) ==> r[i] == s[i]
    ensures forall i :: 0 <= i < |s| ==> r[i] == ToLower(s[i])
  {
    seq(|s|, i requires 0 <= i < |s| => ToLower(s[i]))
  }

  // ---------------- search ----------------

  /** `p` occurs in `s` at index `k`. */
  predicate At(s: string, p: string, k: nat) {
    k + |p| <= |s| && s[k..k + |p|] == p
  }

  /** Occurrences in a suffix are occurrences in the whole string, shifted. */
  lemma AtDrop(s: string, p: string, d: nat, k: nat)
    requires d <= |s|
    ensures At(s[d..], p, k) <==> At(s, p, d + k)
  {
    if d + k + |p| <= |s| {
      assert s[d..][k..k + |p|] == s[d + k..d + k + |p|];
    }
  }

  /** `String::indexOf(p, from)`: -1 when `from` is at or past the end,
      otherwise the first index at or after `from` where `p` occurs, or -1. */
  function IndexOf(s: string, p: string, from: nat): (r: int)
    ensures r == -1 || (from <= r && At(s, p, r))
    decreases |s| - from
  {
    if from >= |s| then -1
    else if from + |p| > |s| then -1
    else if s[from..from + |p|] == p then from
    else IndexOf(s, p, from + 1)
  }

  /** The index `IndexOf` returns is the FIRST occurrence at or after `from`,
      and -1 means there is none before the end of `s`. */
  lemma {:induction false} IndexOfIsFirst(s: string, p: string, from: nat)
    ensures IndexOf(s, p, from) != -1 ==> forall k :: from <= k < IndexOf(s, p, from) ==> !At(s, p, k)
    ensures IndexOf(s, p, from) == -1 ==> forall k :: from <= k < |s| ==> !At(s, p, k)
    decreases |s| - from
  {
    if from < |s| && from + |p| <= |s| && s[from..from + |p|] != p {
      IndexOfIsFirst(s, p, from + 1);
    }
  }

  /** If some character of `p` never appears in `s`, `p` occurs nowhere in `s`. */
  lemma AbsentByChar(s: string, p: string, c: char)
    requires c in p && c !in s
    ensures forall k: nat :: !At(s, p, k)
  {
    var i :| 0 <= i < |p| && p[i] == c;
    forall k: nat | k + |p| <= |s|
      ensures !At(s, p, k)
    {
      assert s[k..k + |p|][i] != p[i];
    }
  }

  // ---------------- replace ----------------

  /** Replacing every occurrence of `from` by `to`, scanning left to right:
      an occurrence at the front is rewritten and scanning resumes after it;
      otherwise the first character is kept. An empty `from` changes nothing. */
  function ReplaceAll(s: string, from: string, to: string): (r: string)
    ensures |to| <= |from| ==> |r| <= |s|
    decreases |s|
  {
    if |from| == 0 || |s| == 0 then s
    else if At(s, from, 0) then to + ReplaceAll(s[|from|..], from, to)
    else [s[0]] + ReplaceAll(s[1..], from, to)
  }

  /** A prefix of `s` in which `from` does not start is copied unchanged. */
  lemma {:induction false} CopyUntil(s: string, from: string, to: string, j: nat)
    requires |from| > 0 && j <= |s|
    requires forall k :: 0 <= k < j ==> !At(s, from, k)
    ensures ReplaceAll(s, from, to) == s[..j] + ReplaceAll(s[j..], from, to)
  {
    if j > 0 {
      forall k | 0 <= k < j - 1
        ensures !At(s[1..], from, k)
      {
        AtDrop(s, from, 1, k);
      }
      CopyUntil(s[1..], from, to, j - 1);
      assert s[1..][j - 1..] == s[j..];
      assert [s[0]] + s[1..][..j - 1] == s[..j];
    }
  }

  /** The first occurrence of `from` is the first one rewritten. */
  lemma {:induction false} ReplaceAtFirst(s: string, from: string, to: string, j: nat)
    requires |from| > 0 && At(s, from, j)
    requires forall k :: 0 <= k < j ==> !At(s, from, k)
    ensures ReplaceAll(s, from, to) == s[..j] + to + ReplaceAll(s[j + |from|..], from, to)
  {
    CopyUntil(s, from, to, j);
    assert At(s[j..], from, 0) by {
      assert s[j..][..|from|] == s[j..j + |from|];
    }
    assert s[j..][|from|..] == s[j + |from|..];
  }

  /** The cases in which `strReplaceAll` returns its input: an empty `from`,
      a `from` that occurs nowhere, and a rule that maps a phrase to itself
      (as the "Birdeye" rule of compressTerms does). */
  lemma {:induction false} ReplaceAllIdentity(s: string, from: string, to: string)
    requires |from| == 0 || (forall k: nat :: !At(s, from, k)) || from == to
    ensures ReplaceAll(s, from, to) == s
    decreases |s|
  {
    if |from| > 0 && |s| > 0 {
      if At(s, from, 0) {
        ReplaceAllIdentity(s[|from|..], from, to);
        assert s == s[..|from|] + s[|from|..];
      } else {
        forall k: nat | !At(s, from, k + 1)
          ensures !At(s[1..], from, k)
        {
          AtDrop(s, from, 1, k);
        }
        ReplaceAllIdentity(s[1..], from, to);
        assert s == [s[0]] + s[1..];
      }
    }
  }

  /** Replacing by something strictly shorter shortens every string in which
      the pattern occurs. */
  lemma {:induction false} ReplaceAllShrinks(s: string, from: string, to: string, k: nat)
    requires |to| < |from| && At(s, from, k)
    ensures |ReplaceAll(s, from, to)| < |s|
    decreases |s|
  {
    if !At(s, from, 0) {
      AtDrop(s, from, 1, k - 1);
      ReplaceAllShrinks(s[1..], from, to, k - 1);
    }
  }

  /** A search that finds nothing more: the rest of the string is kept. */
  lemma {:induction false} SearchMissing(r: string, from: string, to: string, idx: nat)
    requires |from| > 0 && idx <= |r|
    requires forall k :: idx <= k < |r| ==> !At(r, from, k)
    ensures r[..idx] + ReplaceAll(r[idx..], from, to) == r
  {
    var rest := r[idx..];
    forall k | 0 <= k < |rest|
      ensures !At(rest, from, k)
    {
      AtDrop(r, from, idx, k);
    }
    CopyUntil(rest, from, to, |rest|);
    assert r == r[..idx] + rest;
  }

  /** A search that finds the first occurrence at or after `idx` at `found`:
      that occurrence is the next one `ReplaceAll` rewrites. */
  lemma {:induction false} SearchFound(r: string, from: string, to: string, idx: nat, found: nat)
    requires |from| > 0 && idx <= found && At(r, from, found)
    requires forall k :: idx <= k < found ==> !At(r, from, k)
    ensures r[..idx] + ReplaceAll(r[idx..], from, to)
         == r[..found] + to + ReplaceAll(r[found + |from|..], from, to)
  {
    var rest, j := r[idx..], found - idx;
    forall k | 0 <= k < j
      ensures !At(rest, from, k)
    {
      AtDrop(r, from, idx, k);
    }
    AtDrop(r, from, idx, j);
    ReplaceAtFirst(rest, from, to, j);
    assert rest[..j] == r[idx..found];
    assert rest[j + |from|..] == r[found + |from|..];
    assert r[..idx] + r[idx..found] == r[..found];
  }

  /** `strReplaceAll` (src/main.cpp:165-173) with its loop: `idx` is where the
      next search starts, just after the last inserted replacement, so a `to`
      that contains `from` is never rescanned and the loop ends. */
  method StrReplaceAll(s: string, from: string, to: string) returns (r: string)
    ensures r == ReplaceAll(s, from, to)
  {
    r := s;
    if |from| == 0 {
      return;
    }
    var idx := 0;
    while true
      invariant 0 <= idx <= |r|
      invariant r[..idx] + ReplaceAll(r[idx..], from, to) == ReplaceAll(s, from, to)
      decreases |r| - idx
    {
      var found := IndexOf(r, from, idx);
      IndexOfIsFirst(r, from, idx);
      if found == -1 {
        SearchMissing(r, from, to, idx);
        break;
      }
      SearchFound(r, from, to, idx, found);
      var next := r[..found] + to + r[found + |from|..];
      assert next[..found + |to|] == r[..found] + to;
      assert next[found + |to|..] == r[found + |from|..];
      r, idx := next, found + |to|;
    }
  }
}
