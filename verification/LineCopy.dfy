// elog_cpyln of elog/src/elog_utils.c: copying up to and including a newline sign.
module LineCopy {
  /** The first k characters end in the newline sign. */
  predicate EndsLine(s: string, nl: string, k: nat)
    requires k <= |s|
  {
    k >= |nl| && s[k - |nl|..k] == nl
  }

  /** How much of s is copied, when k characters have been copied already and did not end a line. */
  function CopyLen(s: string, nl: string, k: nat): (n: nat)
    requires k <= |s|
    ensures k <= n <= |s|
    decreases |s| - k
  {
    if k == |s| then k else if EndsLine(s, nl, k + 1) then k + 1 else CopyLen(s, nl, k + 1)
  }

  /** The copy stops behind the first newline sign, or takes everything when there is none. */
  lemma {:induction false} CopyLenIs(s: string, nl: string, k: nat)
    requires k <= |s|
    ensures var n := CopyLen(s, nl, k);
            && (forall i :: k < i < n ==> !EndsLine(s, nl, i))
            && (n == |s| || (n > k && EndsLine(s, nl, n)))
            && (k < |s| ==> n > k)
    decreases |s| - k
  {
    if k < |s| && !EndsLine(s, nl, k + 1) { CopyLenIs(s, nl, k + 1); }
  }

  /** memcpy. */
  method Memcpy(dst: array<char>, d: nat, src: array<char>, s: nat, n: nat)
    requires dst != src && d + n <= dst.Length && s + n <= src.Length
    modifies dst
    ensures forall i :: d <= i < d + n ==> dst[i] == src[i - d + s]
    ensures forall i :: 0 <= i < dst.Length && (i < d || i >= d + n) ==> dst[i] == old(dst[i])
  {
    var k := 0;
    while k < n
      invariant k <= n
      invariant forall i :: d <= i < d + k ==> dst[i] == src[i - d + s]
      invariant forall i :: 0 <= i < dst.Length && (i < d || i >= d + k) ==> dst[i] == old(dst[i])
    {
      dst[d + k] := src[s + k];
      k := k + 1;
    }
  }

  /** elog_cpyln. */
  method Cpyln(line: array<char>, d: nat, log: array<char>, s: nat, len: nat, nl: string) returns (n: nat)
    requires line != log && d + len <= line.Length && s + len <= log.Length
    modifies line
    ensures n == CopyLen(log[s..s + len], nl, 0)
    ensures line[..] == old(line[..d]) + log[s..s + len][..n] + old(line[d + n..])
  {
    hide CopyLen;
    ghost var text, before := log[s..s + len], line[..];
    n := 0;
    while n < len
      invariant n <= len && log[s..s + len] == text && Pasted(before, line[..], d, text, n)
      invariant CopyLen(text, nl, n) == CopyLen(text, nl, 0)
    {
      ghost var was := line[..];
      line[d + n] := log[s + n];
      PasteOne(before, was, line[..], d, text, n);
      CopyLenStep(text, nl, n);
      n := n + 1;
      if n >= |nl| {
        SameSlice(log[..], s, len, n, |nl|);
        if log[s + n - |nl|..s + n] == nl { break; }
      }
    }
    if n == len { CopyLenEnd(text, nl); }
    PastedIs(before, line[..], d, text, n);
  }

  /** The first n characters of text have been written to line from d on. */
  ghost predicate Pasted(before: string, line: string, d: nat, text: string, n: nat) {
    && |line| == |before| && n <= |text| && d + |text| <= |line|
    && (forall i :: d <= i < d + n ==> line[i] == text[i - d])
    && (forall i :: 0 <= i < |line| && (i < d || i >= d + n) ==> line[i] == before[i])
  }

  lemma PasteOne(before: string, was: string, line: string, d: nat, text: string, n: nat)
    requires Pasted(before, was, d, text, n) && n < |text| && line == was[d + n := text[n]]
    ensures Pasted(before, line, d, text, n + 1)
  {
  }

  lemma PastedIs(before: string, line: string, d: nat, text: string, n: nat)
    requires Pasted(before, line, d, text, n)
    ensures line == before[..d] + text[..n] + before[d + n..]
  {
  }

  lemma SameSlice(log: string, s: nat, len: nat, n: nat, k: nat)
    requires s + len <= |log| && k <= n <= len
    ensures log[s..s + len][n - k..n] == log[s + n - k..s + n]
  {
    var a, b := log[s..s + len][n - k..n], log[s + n - k..s + n];
    assert |a| == |b| && forall i :: 0 <= i < k ==> a[i] == b[i];
  }

  lemma CopyLenStep(s: string, nl: string, k: nat)
    requires k < |s|
    ensures CopyLen(s, nl, k) == if EndsLine(s, nl, k + 1) then k + 1 else CopyLen(s, nl, k + 1)
  {
  }

  lemma CopyLenEnd(s: string, nl: string)
    ensures CopyLen(s, nl, |s|) == |s|
  {
  }
}
