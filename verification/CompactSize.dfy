/** readCompactSize of lbrycrd/script.go and the buffer it consumes. */
module CompactSize {
  import opened ByteStrings

  datatype ReadResult = Eof | Data(buf: Bytes, rest: Bytes)
  datatype SizeResult = SizeErr(rest: Bytes) | Size(value: nat, readBuf: Bytes, rest: Bytes)

  function Zeros(n: nat): (z: Bytes)
    ensures |z| == n && forall k :: 0 <= k < n ==> z[k] == 0
  {
    seq(n, _ => 0)
  }

  /** bytes.Buffer.Read into n zero bytes: an empty buffer is an error, a short one is not. */
  function ReadSpec(unread: Bytes, n: nat): (r: ReadResult)
    ensures r.Eof? <==> unread == [] && n > 0
    ensures r.Data? ==> |r.buf| == n
    ensures r.Data? ==> (unread == r.buf + r.rest <==> n <= |unread|)
    ensures r.Data? && n > |unread| ==>
              unread <= r.buf && r.rest == [] && forall k :: |unread| <= k < n ==> r.buf[k] == 0
  {
    if unread == [] && n > 0 then Eof
    else if n <= |unread| then Data(unread[..n], unread[n..])
    else Data(unread + Zeros(n - |unread|), [])
  }

  function ReadCompactSizeSpec(unread: Bytes): SizeResult {
    match ReadSpec(unread, 1)
    case Eof => SizeErr(unread)
    case Data(first, rest) =>
      if first[0] < 253 then Size(first[0] as nat, first, rest)
      else if first[0] == 253 then
        match ReadSpec(rest, 2)
        case Eof => SizeErr(rest)
        case Data(buf, rest') => Size(Uint16(buf), first + buf, rest')
      else if first[0] == 254 then
        match ReadSpec(rest, 4)
        case Eof => SizeErr(rest)
        case Data(buf, rest') => Size(Uint32(buf), first + buf, rest')
      else Size(0, first + Zeros(8), rest)
  }

  class Buffer {
    var unread: Bytes

    constructor (contents: Bytes)
      ensures unread == contents
    {
      unread := contents;
    }

    method Read(n: nat) returns (buf: Bytes, ok: bool)
      modifies this
      ensures match ReadSpec(old(unread), n)
              case Eof => !ok && unread == old(unread)
              case Data(b, rest) => ok && buf == b && unread == rest
    {
      if unread == [] && n > 0 {
        return [], false;
      }
      var copied := if n <= |unread| then n else |unread|;
      buf, ok := unread[..copied] + Zeros(n - copied), true;
      unread := unread[copied..];
    }

    method ReadUint32() returns (v: nat, buf: Bytes, ok: bool)
      modifies this
      ensures match ReadSpec(old(unread), 4)
              case Eof => !ok && unread == old(unread)
              case Data(b, rest) => ok && buf == b && v == Uint32(b) && unread == rest
    {
      buf, ok := Read(4);
      if !ok {
        return 0, [], false;
      }
      v := Uint32(buf);
    }

    method ReadCompactSize() returns (v: nat, readBuf: Bytes, ok: bool)
      modifies this
      ensures match ReadCompactSizeSpec(old(unread))
              case SizeErr(rest) => !ok && unread == rest
              case Size(n, b, rest) => ok && v == n && readBuf == b && unread == rest
    {
      readBuf := [];
      var bSize, found := Read(1);
      if !found {
        return 0, [], false;
      }
      readBuf := readBuf + bSize;
      var size := bSize[0] as nat;
      if size < 253 {
        return size, readBuf, true;
      }
      if size == 253 {
        var buf, got := Read(2);
        if !got {
          return 0, [], false;
        }
        return Uint16(buf), readBuf + buf, true;
      }
      if size == 254 {
        var n, buf, got := ReadUint32();
        if !got {
          return 0, [], false;
        }
        return n, readBuf + buf, true;
      }
      return 0, readBuf + Zeros(8), true;
    }
  }

  /** The CompactSize encoding of the Bitcoin developer reference, "CompactSize unsigned integers". */
  function Encode(n: nat): (s: Bytes)
    requires n < 0x1_0000_0000_0000_0000
    ensures |s| == if n < 253 then 1 else if n < 0x1_0000 then 3 else if n < 0x1_0000_0000 then 5 else 9
  {
    if n < 253 then [n as byte]
    else if n < 0x1_0000 then [253] + PutUint16(n)
    else if n < 0x1_0000_0000 then [254] + PutUint32(n)
    else [255] + (PutUint32(n % 0x1_0000_0000) + PutUint32(n / 0x1_0000_0000))
  }

  /** Reading an encoded size gives it back, with its own bytes consumed and the rest left, exactly below 2^32; a
      larger one is read as zero, and nothing after its first byte is consumed. */
  lemma ReadsEncoded(n: nat, rest: Bytes)
    requires n < 0x1_0000_0000_0000_0000
    ensures ReadCompactSizeSpec(Encode(n) + rest) == Size(n, Encode(n), rest) <==> n < 0x1_0000_0000
    ensures n >= 0x1_0000_0000 ==>
              ReadCompactSizeSpec(Encode(n) + rest) == Size(0, [255, 0, 0, 0, 0, 0, 0, 0, 0], Encode(n)[1..] + rest)
  {
    var e := Encode(n);
    var s := e + rest;
    assert s[..1] == [e[0]] && s[1..] == e[1..] + rest;
    assert s[1..][..|e| - 1] == e[1..] && s[1..][|e| - 1..] == rest;
    assert e == [e[0]] + e[1..];
  }

  /**
   * An encoding cut short is noticed only when nothing follows the first byte. Otherwise the missing bytes are read
   * as zeros, and the returned bytes are not the ones consumed.
   */
  lemma ReadsTruncated(n: nat, k: nat)
    requires n < 0x1_0000_0000 && k < |Encode(n)|
    ensures var r := ReadCompactSizeSpec(Encode(n)[..k]);
            && (r.SizeErr? <==> k <= 1)
            && (r.Size? ==>
                  r.rest == [] && |r.readBuf| == |Encode(n)| && r.readBuf == Encode(n)[..k] + Zeros(|Encode(n)| - k))
  {
    var e := Encode(n);
    var s := e[..k];
    if k >= 1 {
      assert s[..1] == [e[0]] && s[1..] == e[1..k];
      if k >= 2 {
        assert [e[0]] + (e[1..k] + Zeros(|e| - k)) == s + Zeros(|e| - k);
      }
    }
  }

  /** The input holds all the bytes that its first byte announces, and that byte is not 255. */
  predicate HoldsSize(unread: Bytes) {
    && unread != []
    && (unread[0] < 253 || (unread[0] == 253 && |unread| >= 3) || (unread[0] == 254 && |unread| >= 5))
  }

  /** The bytes returned are exactly the bytes consumed exactly then. */
  lemma ConsumedIff(unread: Bytes)
    ensures var r := ReadCompactSizeSpec(unread);
            r.Size? && unread == r.readBuf + r.rest <==> HoldsSize(unread)
  {
    var r := ReadCompactSizeSpec(unread);
    if r.Size? {
      assert unread == unread[..1] + unread[1..];
      if unread[0] == 255 {
        assert |r.readBuf| + |r.rest| == |unread| + 8;
      } else if |r.readBuf| <= |unread| {
        assert unread == r.readBuf + r.rest;
      }
    }
  }
}
