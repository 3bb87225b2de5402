/** Bytes and C strings. */
module Bytes {
  newtype byte = x: int | 0 <= x < 256

  const NUL: byte := 0
  const LF: byte := 10
  const CR: byte := 13

  function Zeros(n: nat): (zs: seq<byte>)
    ensures |zs| == n && forall i :: 0 <= i < n ==> zs[i] == NUL
  {
    seq(n, _ => NUL)
  }

  function Min(a: nat, b: nat): (r: nat) { if a <= b then a else b }

  /** A 32-bit integer in memory, low byte first. */
  function Word(v: int): (w: seq<byte>)
    ensures |w| == 4
  {
    var a := v / 256;
    var b := a / 256;
    var c := b / 256;
    [(v % 256) as byte, (a % 256) as byte, (b % 256) as byte, (c % 256) as byte]
  }

  /** The bytes of a string of the source text. */
  function Ascii(s: string): seq<byte>
    requires forall c :: c in s ==> c as int < 128
  {
    seq(|s|, i requires 0 <= i < |s| => assert s[i] in s; s[i] as int as byte)
  }

  lemma ControlCharacters()
    ensures Ascii("\0\n\r") == [NUL, LF, CR]
  {
  }

  lemma RemainderIs(v: int, q: int, r: int)
    requires v == 0x1_0000_0000 * q + r && 0 <= r < 0x1_0000_0000
    ensures v % 0x1_0000_0000 == r
  {
  }

  /** The four bytes give back the value, as far as it fits. */
  lemma WordHoldsValue(v: int)
    ensures var w := Word(v);
            w[0] as int + 0x100 * w[1] as int + 0x1_0000 * w[2] as int + 0x100_0000 * w[3] as int == v % 0x1_0000_0000
  {
    var w, a := Word(v), v / 256;
    var b := a / 256;
    var c := b / 256;
    RemainderIs(v, c / 256, w[0] as int + 0x100 * w[1] as int + 0x1_0000 * w[2] as int + 0x100_0000 * w[3] as int);
  }

  /** `buf` with `bytes` stored from `off` on. */
  function Splice(buf: seq<byte>, off: nat, bytes: seq<byte>): seq<byte>
    requires off + |bytes| <= |buf|
  {
    buf[..off] + bytes + buf[off + |bytes|..]
  }

  /** The C string that starts at the front of `s`: everything before the first NUL,
      or all of `s` when it holds no NUL. `|CStr(s)|` is what strlen returns. */
  function CStr(s: seq<byte>): (r: seq<byte>)
    ensures r <= s && NUL !in r
    ensures |r| < |s| ==> s[|r|] == NUL
  {
    if s == [] || s[0] == NUL then [] else [s[0]] + CStr(s[1..])
  }

  lemma {:induction false} CStrUnique(s: seq<byte>, r: seq<byte>)
    requires r <= s && NUL !in r
    requires |r| < |s| ==> s[|r|] == NUL
    ensures CStr(s) == r
  {
    if s == [] || s[0] == NUL {
    } else {
      assert r != [];
      assert NUL !in r[1..];
      CStrUnique(s[1..], r[1..]);
      assert r == [s[0]] + r[1..];
    }
  }
}
