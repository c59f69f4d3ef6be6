/** Bytes and 32-bit words as they lie in memory on a little-endian machine. */
module Bytes {
  type byte = b: int | 0 <= b < 0x100
  type u32 = n: int | 0 <= n < 0x1_0000_0000

  const BASE := 0x100

  /** What is left of a count in an unsigned 32-bit word. */
  function ToU32(n: nat): u32 {
    n % 0x1_0000_0000
  }

  /** The same bits as a signed integer. */
  function ToInt32(n: nat): int {
    if ToU32(n) < 0x8000_0000 then ToU32(n) else ToU32(n) - 0x1_0000_0000
  }

  function WordBytes(n: u32): (s: seq<byte>)
    ensures |s| == 4
  {
    var q1 := n / BASE;
    var q2 := q1 / BASE;
    [n % BASE, q1 % BASE, q2 % BASE, q2 / BASE]
  }

  function BytesWord(s: seq<byte>): u32
    requires |s| == 4
  {
    var q2: int := s[2] as int + BASE * s[3] as int;
    var q1: int := s[1] as int + BASE * q2;
    s[0] as int + BASE * q1
  }

  lemma WordRoundTrip(n: u32)
    ensures BytesWord(WordBytes(n)) == n
  {
  }

  lemma DigitSplit(q: int, d: byte)
    ensures (d + BASE * q) / BASE == q && (d + BASE * q) % BASE == d
  {
  }

  lemma BytesRoundTrip(s: seq<byte>)
    requires |s| == 4
    ensures WordBytes(BytesWord(s)) == s
  {
    var q2: int := s[2] as int + BASE * s[3] as int;
    var q1: int := s[1] as int + BASE * q2;
    DigitSplit(s[3], s[2]);
    DigitSplit(q2, s[1]);
    DigitSplit(q1, s[0]);
  }

  /** The first `n` words of a sequence of bytes. */
  function Words(s: seq<byte>, n: nat): (ws: seq<u32>)
    requires 4 * n <= |s|
    ensures |ws| == n
    ensures forall i | 0 <= i < n :: ws[i] == BytesWord(s[4 * i..4 * i + 4])
  {
    seq(n, i requires 0 <= i < n => BytesWord(s[4 * i..4 * i + 4]))
  }

  /** Splitting the bytes after `k` words splits the words there. */
  lemma SplitWords(s: seq<byte>, n: nat, k: nat)
    requires k <= n && 4 * n <= |s|
    ensures Words(s[..4 * k], k) == Words(s, n)[..k]
    ensures Words(s[4 * k..], n - k) == Words(s, n)[k..]
  {
    forall i | 0 <= i < k
      ensures s[..4 * k][4 * i..4 * i + 4] == s[4 * i..4 * i + 4]
    {
    }
    forall i | 0 <= i < n - k
      ensures s[4 * k..][4 * i..4 * i + 4] == s[4 * (k + i)..4 * (k + i) + 4]
    {
    }
  }

  /** A word at the end of the bytes is a word at the end of the words. */
  lemma AppendWord(s: seq<byte>, n: nat, w: u32)
    requires 4 * n == |s|
    ensures Words(s + WordBytes(w), n + 1) == Words(s, n) + [w]
  {
    var t := s + WordBytes(w);
    WordRoundTrip(w);
    forall i | 0 <= i < n
      ensures t[4 * i..4 * i + 4] == s[4 * i..4 * i + 4]
    {
    }
    assert t[4 * n..4 * n + 4] == WordBytes(w);
  }
}
