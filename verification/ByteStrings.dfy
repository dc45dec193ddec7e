// Byte strings of the C and C++ code, with bytes as integers.
module ByteStrings {
  type byte = x: int | 0 <= x < 256
  type bytes = seq<byte>

  const LF: byte := 10
  const CR: byte := 13

  function Repeat(b: byte, n: nat): (s: bytes)
    ensures |s| == n && forall i | 0 <= i < n :: s[i] == b
  {
    seq(n, (i: nat) => b)
  }

  /** The characters from position p up to the first NUL. */
  function CString(z: bytes, p: nat): (s: bytes)
    requires p <= |z|
    ensures 0 !in s && p + |s| <= |z| && s == z[p..p + |s|]
    ensures p + |s| < |z| ==> z[p + |s|] == 0
    decreases |z| - p
  {
    if p == |z| || z[p] == 0 then [] else [z[p]] + CString(z, p + 1)
  }

  lemma NulOrEnd(s: bytes, i: nat, e: nat)
    requires i <= e <= |s| && 0 !in s[i..e]
    ensures i == e || s[i] != 0
  {
    if i < e {
      assert s[i..e][0] == s[i];
    }
  }

  lemma NoNulLater(s: bytes, n: nat)
    requires n <= |s| && 0 !in s
    ensures 0 !in s[n..]
  {
  }

  function UpToNul(s: bytes): bytes {
    CString(s, 0)
  }

  /** A C string is known by its characters and its end. */
  lemma {:induction false} CStringIs(z: bytes, p: nat, s: bytes)
    requires p + |s| < |z| && z[p..p + |s|] == s && 0 !in s && z[p + |s|] == 0
    ensures CString(z, p) == s
    decreases |s|
  {
    if s != [] {
      assert z[p] == s[0] && s[0] in s;
      CStringIs(z, p + 1, s[1..]);
    }
  }

  /** A text that may hold NULs, at position p and followed by a NUL. */
  lemma {:induction false} CStringOf(z: bytes, p: nat, s: bytes)
    requires p + |s| < |z| && z[p..p + |s|] == s && z[p + |s|] == 0
    ensures CString(z, p) == UpToNul(s)
  {
    var t := UpToNul(s);
    CStringIs(z, p, t);
  }
}
