/** Byte strings, byte reversal (util/utility.go) and the hexadecimal form of claim ids. */
module ByteStrings {

  import opened Collections

  newtype byte = x: int | 0 <= x < 256
  type Bytes = seq<byte>

  /** What a Go function can do: return a value, return an error, or panic. */
  datatype Outcome<+T> = Ok(value: T) | Err | Panic

  function Reversed<T>(s: seq<T>): (r: seq<T>)
    ensures |r| == |s|
    ensures forall k :: 0 <= k < |s| ==> r[k] == s[|s| - 1 - k]
  {
    if s == [] then [] else Reversed(s[1..]) + [s[0]]
  }

  /** The value ReverseBytes computes: the reversal, except that the middle of an odd-length input stays zero. */
  function ReverseBytesSpec(s: Bytes): (r: Bytes)
    ensures |r| == |s|
  {
    if |s| % 2 == 0 then Reversed(s) else Reversed(s)[|s| / 2 := 0]
  }

  method ReverseBytes(b: array<byte>) returns (r: array<byte>)
    ensures fresh(r) && r[..] == ReverseBytesSpec(b[..])
  {
    var n := b.Length;
    r := new byte[n](_ => 0);
    var left, right := 0, n - 1;
    while left < right
      invariant 0 <= left <= right + 1 && left + right == n - 1
      invariant fresh(r)
      invariant forall k :: 0 <= k < left ==> r[k] == b[n - 1 - k] && r[n - 1 - k] == b[k]
      invariant forall k :: left <= k <= right ==> r[k] == 0
    {
      r[left], r[right] := b[right], b[left];
      left, right := left + 1, right - 1;
    }
  }

  /** ReverseBytes is the reversal exactly when there is no middle byte to lose. */
  lemma {:induction false} ReversesIff(s: Bytes)
    ensures ReverseBytesSpec(s) == Reversed(s) <==> |s| % 2 == 0 || s[|s| / 2] == 0
  {
    var m, r := |s| / 2, Reversed(s);
    if |s| % 2 == 1 {
      assert |s| == 2 * m + 1;
      assert r[m] == s[m];
      var z := r[m := 0];
      assert ReverseBytesSpec(s) == z && z[m] == 0;
      if s[m] == 0 {
        assert z == r;
      }
    } else {
      assert ReverseBytesSpec(s) == r;
    }
  }

  /** Reversing twice restores the input under the same condition. */
  lemma {:induction false} ReverseTwiceIff(s: Bytes)
    ensures ReverseBytesSpec(ReverseBytesSpec(s)) == s <==> |s| % 2 == 0 || s[|s| / 2] == 0
  {
    var r := ReverseBytesSpec(s);
    var rr := ReverseBytesSpec(r);
    var m := |s| / 2;
    forall k | 0 <= k < |s| && !(|s| % 2 == 1 && k == m)
      ensures rr[k] == s[k]
    {
      var j := |s| - 1 - k;
      assert r[j] == Reversed(s)[j] == s[k];
      assert rr[k] == Reversed(r)[k] == r[j];
    }
    if |s| % 2 == 1 {
      assert rr[m] == 0;
      if s[m] == 0 {
        assert rr == s;
      }
    } else {
      assert rr == s;
    }
  }

  function HexDigit(d: int): (c: char)
    requires 0 <= d < 16
  {
    "0123456789abcdef"[d]
  }

  function HexEncode(s: Bytes): (r: string)
    ensures |r| == 2 * |s|
  {
    if s == [] then "" else [HexDigit(s[0] as int / 16), HexDigit(s[0] as int % 16)] + HexEncode(s[1..])
  }

  /** The value of a lower-case hexadecimal digit. */
  function DigitValue(c: char): (v: Option<nat>) {
    if '0' <= c <= '9' then Some(c as int - '0' as int)
    else if 'a' <= c <= 'f' then Some(c as int - 'a' as int + 10)
    else None
  }

  /** The bytes of a text of hexadecimal digits, two for each byte, the high one first. */
  function HexDecode(t: string): Option<Bytes> {
    if t == "" then Some([])
    else if |t| == 1 || DigitValue(t[0]).None? || DigitValue(t[1]).None? || HexDecode(t[2..]).None? then None
    else
      var n := 16 * DigitValue(t[0]).value + DigitValue(t[1]).value;
      if n < 256 then Some([n as byte] + HexDecode(t[2..]).value) else None
  }

  lemma DigitHasValue(d: int)
    requires 0 <= d < 16
    ensures DigitValue(HexDigit(d)) == Some(d)
  {
  }

  lemma TwoDigits(b: byte)
    ensures var high, low := HexDigit(b as int / 16), HexDigit(b as int % 16);
            && DigitValue(high).Some? && DigitValue(low).Some?
            && 16 * DigitValue(high).value + DigitValue(low).value == b as int
  {
    DigitHasValue(b as int / 16);
    DigitHasValue(b as int % 16);
  }

  lemma DecodeByte(high: char, low: char, t: string, b: byte)
    requires DigitValue(high).Some? && DigitValue(low).Some? && HexDecode(t).Some?
    requires 16 * DigitValue(high).value + DigitValue(low).value == b as int
    ensures HexDecode([high, low] + t) == Some([b] + HexDecode(t).value)
  {
    assert ([high, low] + t)[2..] == t;
  }

  /** The text form of bytes is read back, and all of its characters are hexadecimal digits. */
  lemma {:induction false} HexDecodes(s: Bytes)
    ensures HexDecode(HexEncode(s)) == Some(s)
    ensures forall k :: 0 <= k < |HexEncode(s)| ==> DigitValue(HexEncode(s)[k]).Some?
  {
    if s == [] {
    } else {
      HexDecodes(s[1..]);
      TwoDigits(s[0]);
      DecodeByte(HexDigit(s[0] as int / 16), HexDigit(s[0] as int % 16), HexEncode(s[1..]), s[0]);
      assert s == [s[0]] + s[1..];
    }
  }

  /** Distinct claim ids have distinct hexadecimal forms. */
  lemma HexInjective(s: Bytes, t: Bytes)
    ensures HexEncode(s) == HexEncode(t) ==> s == t
  {
    HexDecodes(s);
    HexDecodes(t);
  }

  /** The number that the bytes write, the lowest first. */
  function LittleEndian(s: Bytes): nat {
    if s == [] then 0 else s[0] as nat + 0x100 * LittleEndian(s[1..])
  }

  lemma TwoBytes(s: Bytes)
    requires |s| == 2
    ensures LittleEndian(s) == s[0] as nat + 0x100 * s[1] as nat
  {
    assert s[1..][1..] == [];
    assert LittleEndian(s[1..]) == s[1] as nat + 0x100 * LittleEndian(s[1..][1..]);
  }

  function Uint16(s: Bytes): (n: nat)
    requires |s| == 2
    ensures n == LittleEndian(s)
  {
    TwoBytes(s);
    s[0] as int + 0x100 * s[1] as int
  }

  lemma FourBytes(s: Bytes)
    requires |s| == 4
    ensures LittleEndian(s) == LittleEndian(s[..2]) + 0x1_0000 * LittleEndian(s[2..])
  {
    TwoBytes(s[..2]);
    TwoBytes(s[2..]);
    assert s[1..][1..] == s[2..];
    assert LittleEndian(s[1..]) == s[1] as nat + 0x100 * LittleEndian(s[1..][1..]);
    assert LittleEndian(s) == s[0] as nat + 0x100 * LittleEndian(s[1..]);
  }

  function Uint32(s: Bytes): (n: nat)
    requires |s| == 4
    ensures n == LittleEndian(s)
  {
    FourBytes(s);
    Uint16(s[..2]) + 0x1_0000 * Uint16(s[2..])
  }

  function PutUint16(n: nat): (s: Bytes)
    requires n < 0x1_0000
    ensures |s| == 2 && Uint16(s) == n
  {
    [(n % 0x100) as byte, (n / 0x100) as byte]
  }

  function PutUint32(n: nat): (s: Bytes)
    requires n < 0x1_0000_0000
    ensures |s| == 4 && Uint32(s) == n
  {
    var s := PutUint16(n % 0x1_0000) + PutUint16(n / 0x1_0000);
    assert s[..2] == PutUint16(n % 0x1_0000) && s[2..] == PutUint16(n / 0x1_0000);
    s
  }

  lemma PutUint16Inverts(s: Bytes)
    requires |s| == 2
    ensures Uint16(s) < 0x1_0000 && PutUint16(Uint16(s)) == s
  {
  }

  lemma Halves(low: nat, high: nat)
    requires low < 0x1_0000 && high < 0x1_0000
    ensures var n := low + 0x1_0000 * high; n < 0x1_0000_0000 && n % 0x1_0000 == low && n / 0x1_0000 == high
  {
  }

  lemma PutUint32Inverts(s: Bytes)
    requires |s| == 4
    ensures Uint32(s) < 0x1_0000_0000 && PutUint32(Uint32(s)) == s
  {
    PutUint16Inverts(s[..2]);
    PutUint16Inverts(s[2..]);
    Halves(Uint16(s[..2]), Uint16(s[2..]));
    assert s == s[..2] + s[2..];
  }
}
