/**
 * What a push is, read from the front of a script with no offsets: the opcodes of BIP 62, "Push operators".
 * This module is the specification that the offset parsers are compared with.
 */
module PushTokens {
  import opened ByteStrings

  datatype Form = Direct | Data1 | Data2 | Data4
  datatype Token = Push(form: Form, data: Bytes) | Small(data: Bytes) | Op(code: byte)
  datatype Split = Split(tokens: seq<Token>, rest: Bytes) | Bad

  /** The opcode and length bytes in front of n bytes of data. */
  function Header(f: Form, n: nat): (h: Bytes)
    requires Fits(f, n)
    ensures |h| == HeaderSize(f)
  {
    match f
    case Direct => [n as byte]
    case Data1 => [0x4c, n as byte]
    case Data2 => [0x4d] + PutUint16(n)
    case Data4 => [0x4e] + PutUint32(n)
  }

  /** The opcode of the forms that have one. */
  function Opcode(f: Form): byte {
    if f.Data1? then 0x4c else if f.Data2? then 0x4d else 0x4e
  }

  function HeaderSize(f: Form): nat {
    match f case Direct => 1 case Data1 => 2 case Data2 => 3 case Data4 => 5
  }

  predicate Fits(f: Form, n: nat) {
    match f
    case Direct => n < 0x100
    case Data1 => n < 0x100
    case Data2 => n < 0x1_0000
    case Data4 => n < 0x1_0000_0000
  }

  function Encode(f: Form, data: Bytes): Bytes
    requires Fits(f, |data|)
  {
    Header(f, |data|) + data
  }

  function Front(f: Form, header: nat, n: nat, s: Bytes): Split {
    if header + n <= |s| then Split([Push(f, s[header..header + n])], s[header + n..]) else Bad
  }

  /** Splits off the first token of a script. */
  function Next(s: Bytes): (r: Split)
    ensures r.Split? ==> |r.tokens| == 1
  {
    if s == [] then Bad
    else if s[0] < 0x4c then Front(Direct, 1, s[0] as nat, s)
    else if s[0] == 0x4c then if |s| < 2 then Bad else Front(Data1, 2, s[1] as nat, s)
    else if s[0] == 0x4d then if |s| < 3 then Bad else Front(Data2, 3, Uint16(s[1..3]), s)
    else if s[0] == 0x4e then if |s| < 5 then Bad else Front(Data4, 5, Uint32(s[1..5]), s)
    else if s[0] == 0x4f then Split([Small([0x81])], s[1..])
    else if 0x51 <= s[0] <= 0x60 then Split([Small([s[0] - 0x50])], s[1..])
    else Split([Op(s[0])], s[1..])
  }

  /** Splits off the first k tokens. */
  function Tokenize(s: Bytes, k: nat): (r: Split)
    ensures r.Split? ==> |r.tokens| == k
  {
    if k == 0 then Split([], s)
    else
      match Next(s)
      case Bad => Bad
      case Split(t, rest) =>
        match Tokenize(rest, k - 1)
        case Bad => Bad
        case Split(ts, rest') => Split(t + ts, rest')
  }

  /** A push the tokenizer reads back: a direct push is at most 75 bytes long. */
  predicate Readable(f: Form, data: Bytes) {
    Fits(f, |data|) && (f.Direct? ==> |data| < 0x4c)
  }

  /** The length a header carries. */
  function LengthOf(f: Form, h: Bytes): nat
    requires |h| == HeaderSize(f)
  {
    match f
    case Direct => h[0] as nat
    case Data1 => h[1] as nat
    case Data2 => Uint16(h[1..3])
    case Data4 => Uint32(h[1..5])
  }

  /** A header is its opcode and its length, and says nothing else. */
  lemma HeaderIff(f: Form, h: Bytes, n: nat)
    requires |h| == HeaderSize(f) && (!f.Direct? ==> h[0] == Opcode(f))
    ensures Fits(f, n) && h == Header(f, n) <==> n == LengthOf(f, h)
  {
    match f
    case Direct => assert h == [h[0]];
    case Data1 => assert h == [h[0], h[1]];
    case Data2 =>
      PutUint16Inverts(h[1..3]);
      assert h == [h[0]] + h[1..3];
      if Fits(f, n) { assert ([h[0]] + PutUint16(n))[1..3] == PutUint16(n); }
    case Data4 =>
      PutUint32Inverts(h[1..5]);
      assert h == [h[0]] + h[1..5];
      if Fits(f, n) { assert ([h[0]] + PutUint32(n))[1..5] == PutUint32(n); }
  }

  lemma HeaderOpcode(f: Form, n: nat)
    requires Fits(f, n)
    ensures Header(f, n)[0] == if f.Direct? then n as byte else Opcode(f)
    ensures LengthOf(f, Header(f, n)) == n
  {
    var h := Header(f, n);
    HeaderIff(f, h, n);
  }

  lemma SubSlice(s: Bytes, at: nat, end: nat, i: nat, j: nat)
    requires at <= end <= |s| && i <= j <= end - at
    ensures s[at..end][i..j] == s[at + i..at + j]
  {
    assert forall k :: 0 <= k < j - i ==> s[at..end][i..j][k] == s[at..end][i + k] == s[at + i + k];
  }

  lemma NextPush(f: Form, data: Bytes, rest: Bytes)
    requires Readable(f, data)
    ensures Next(Encode(f, data) + rest) == Split([Push(f, data)], rest)
  {
    var s := Encode(f, data) + rest;
    var h := HeaderSize(f);
    var header := Header(f, |data|);
    assert s[..h] == header && s[0] == header[0];
    assert s[h..h + |data|] == data && s[h + |data|..] == rest;
    HeaderOpcode(f, |data|);
    match f
    case Direct =>
    case Data1 => assert s[1] == header[1];
    case Data2 => SubSlice(s, 0, 3, 1, 3);
    case Data4 => SubSlice(s, 0, 5, 1, 5);
  }

  lemma NextShape(s: Bytes, f: Form, data: Bytes, rest: Bytes)
    requires Next(s) == Split([Push(f, data)], rest)
    ensures var h := HeaderSize(f);
            && h + |data| <= |s| && s[h..h + |data|] == data && s[h + |data|..] == rest
            && |data| == LengthOf(f, s[..h])
            && (f.Direct? ==> s[0] < 0x4c) && (f.Data1? ==> s[0] == 0x4c)
            && (f.Data2? ==> s[0] == 0x4d) && (f.Data4? ==> s[0] == 0x4e)
  {
    assert Next(s).tokens[0] == Push(f, data);
    match f
    case Direct =>
    case Data1 =>
    case Data2 => SubSlice(s, 0, 3, 1, 3);
    case Data4 => SubSlice(s, 0, 5, 1, 5);
  }

  /** A push token is the encoding of its data. */
  lemma NextIsEncoding(s: Bytes, f: Form, data: Bytes, rest: Bytes)
    requires Next(s) == Split([Push(f, data)], rest)
    ensures Readable(f, data) && s == Encode(f, data) + rest
  {
    NextShape(s, f, data, rest);
    var h := HeaderSize(f);
    HeaderIff(f, s[..h], |data|);
    assert s == s[..h] + s[h..h + |data|] + s[h + |data|..];
  }

  lemma NextIsOpcode(s: Bytes, op: byte, rest: Bytes)
    requires Next(s) == Split([Op(op)], rest)
    ensures s == [op] + rest
  {
    assert Next(s).tokens[0] == Op(op);
    assert s == [s[0]] + s[1..];
  }

  lemma TokenizeCons(s: Bytes, t: Token, rest: Bytes, k: nat)
    requires Next(s) == Split([t], rest)
    ensures Tokenize(s, k + 1) ==
            match Tokenize(rest, k) { case Bad => Bad case Split(ts, r) => Split([t] + ts, r) }
  {
  }
}
