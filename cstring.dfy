// The C-string primitives the protocol is built from (strlen, strcpy,
// strncpy, memset), as functions on sequences of characters and as methods
// that perform them on fixed-size character arrays.

module CString {

  /** The terminating zero character of a C string. */
  const NUL: char := '\0'

  /** n zero characters: what memset(p, 0, n) leaves behind. */
  function Zeros(n: nat): (z: seq<char>)
    ensures |z| == n
  {
    seq(n, _ => NUL)
  }

  /** The index of the first NUL at or after i, given that none comes before i. */
  function FirstNulFrom(s: seq<char>, i: nat): (n: nat)
    requires NUL in s && i < |s|
    requires forall j :: 0 <= j < i ==> s[j] != NUL
    ensures i <= n < |s| && s[n] == NUL
    ensures forall j :: 0 <= j < n ==> s[j] != NUL
    decreases |s| - i
  {
    if s[i] == NUL then i
    else
      assert i + 1 < |s| by {
        var z :| 0 <= z < |s| && s[z] == NUL;
      }
      FirstNulFrom(s, i + 1)
  }

  /** strlen: the index of the first NUL. */
  function CStrLen(s: seq<char>): (n: nat)
    requires NUL in s
    ensures n < |s| && s[n] == NUL
    ensures forall i :: 0 <= i < n ==> s[i] != NUL
  {
    FirstNulFrom(s, 0)
  }

  /** The first NUL is unique: any index that is a NUL with none before it is strlen. */
  lemma {:induction false} CStrLenAt(s: seq<char>, k: nat)
    requires k < |s| && s[k] == NUL
    requires forall i :: 0 <= i < k ==> s[i] != NUL
    ensures NUL in s && CStrLen(s) == k
  {
    assert s[k] in s;
  }

  /** strcpy(dst, src): the characters of src up to and including its NUL,
      with the rest of dst left as it was. */
  function StrCpy(dst: seq<char>, src: seq<char>): (r: seq<char>)
    requires NUL in src && CStrLen(src) < |dst|
    ensures |r| == |dst| && NUL in r
    ensures CStrLen(r) == CStrLen(src) && r[..CStrLen(r)] == src[..CStrLen(src)]
    ensures r[CStrLen(src)] == NUL
    ensures r[CStrLen(src) + 1..] == dst[CStrLen(src) + 1..]
  {
    var k := CStrLen(src);
    var r := src[..k + 1] + dst[k + 1..];
    CStrLenAt(r, k);
    r
  }

  /** strncpy(dst, src, n) reads src until it meets a NUL or has read n
      characters; it never reads past the end of a buffer that has neither. */
  predicate Readable(src: seq<char>, n: nat)
  {
    n <= |src| || NUL in src
  }

  /** The length of the part of s before its first NUL from index i on, at most n. */
  function StrNLenFrom(s: seq<char>, n: nat, i: nat): (k: nat)
    requires i <= n && i <= |s|
    ensures i <= k <= n && k <= |s|
    ensures forall j :: i <= j < k ==> s[j] != NUL
    ensures k < n && k < |s| ==> s[k] == NUL
    decreases n - i
  {
    if i == n || i == |s| || s[i] == NUL then i else StrNLenFrom(s, n, i + 1)
  }

  /** strnlen: how many characters before the first NUL, at most n. */
  function StrNLen(s: seq<char>, n: nat): (k: nat)
    ensures k <= n && k <= |s|
    ensures forall i :: 0 <= i < k ==> s[i] != NUL
    ensures k < n && k < |s| ==> s[k] == NUL
  {
    StrNLenFrom(s, n, 0)
  }

  /** What strncpy writes: exactly n characters, the string part of src
      (at most n characters of it) followed by NUL padding. */
  function StrNCopy(src: seq<char>, n: nat): (r: seq<char>)
    requires Readable(src, n)
    ensures |r| == n
  {
    var k := StrNLen(src, n);
    src[..k] + Zeros(n - k)
  }

  /** A string without NUL in its first n characters is copied unchanged. */
  lemma {:induction false} StrNCopyPlain(src: seq<char>, n: nat)
    requires n <= |src|
    requires forall i :: 0 <= i < n ==> src[i] != NUL
    ensures StrNCopy(src, n) == src[..n]
  {
    var k := StrNLen(src, n);
    assert k == n;
  }

  /** Any slice of zeros is zeros. */
  lemma {:induction false} ZerosSlice(n: nat, i: nat, j: nat)
    requires i <= j <= n
    ensures Zeros(n)[i..j] == Zeros(j - i)
  {
  }

  /** memset(a, 0, sizeof a) */
  method MemSet(a: array<char>)
    modifies a
    ensures a[..] == Zeros(a.Length)
  {
    forall i | 0 <= i < a.Length {
      a[i] := NUL;
    }
  }

  /** strlen over a character array, scanning for the terminator. */
  method StrLen(a: array<char>) returns (n: nat)
    requires NUL in a[..]
    ensures n == CStrLen(a[..])
  {
    n := 0;
    while a[n] != NUL
      invariant n <= CStrLen(a[..])
      decreases CStrLen(a[..]) - n
    {
      n := n + 1;
    }
  }

  /** strcpy(a, src): copies the characters of src up to and including its NUL. */
  method StrCpyTo(a: array<char>, src: seq<char>)
    requires NUL in src && CStrLen(src) < a.Length
    modifies a
    ensures a[..] == StrCpy(old(a[..]), src)
  {
    var i := 0;
    while src[i] != NUL
      invariant i <= CStrLen(src)
      invariant forall j :: 0 <= j < i ==> a[j] == src[j]
      invariant forall j :: i <= j < a.Length ==> a[j] == old(a[j])
      decreases CStrLen(src) - i
    {
      a[i] := src[i];
      i := i + 1;
    }
    a[i] := NUL;
    assert a[..] == StrCpy(old(a[..]), src);
  }

  /** strncpy(&a[off], src, n): copies src until its NUL or n characters,
      then pads with NUL up to n characters; a[..off] and a[off + n..] are untouched. */
  method StrNCpyTo(a: array<char>, off: nat, src: seq<char>, n: nat)
    requires off + n <= a.Length && Readable(src, n)
    modifies a
    ensures a[..] == old(a[..off]) + StrNCopy(src, n) + old(a[off + n..])
  {
    ghost var k := StrNLen(src, n);
    var i := 0;
    while i < n && src[i] != NUL
      invariant i <= k
      invariant forall j :: off <= j < off + i ==> a[j] == src[j - off]
      invariant forall j :: 0 <= j < off ==> a[j] == old(a[j])
      invariant forall j :: off + i <= j < a.Length ==> a[j] == old(a[j])
      decreases n - i
    {
      a[off + i] := src[i];
      i := i + 1;
    }
    assert i == k;
    while i < n
      invariant k <= i <= n
      invariant forall j :: off <= j < off + k ==> a[j] == src[j - off]
      invariant forall j :: off + k <= j < off + i ==> a[j] == NUL
      invariant forall j :: 0 <= j < off ==> a[j] == old(a[j])
      invariant forall j :: off + i <= j < a.Length ==> a[j] == old(a[j])
      decreases n - i
    {
      a[off + i] := NUL;
      i := i + 1;
    }
    ghost var copied := StrNCopy(src, n);
    assert forall j :: off <= j < off + n ==> a[j] == copied[j - off];
    assert a[..] == old(a[..off]) + copied + old(a[off + n..]);
  }
}
