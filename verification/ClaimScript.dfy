/** The claim script parsers of lbrycrd/script.go, which work on offsets into the script. */
module ClaimScript {
  import opened ByteStrings

  const OP_CLAIM_NAME: byte := 0xb5
  const OP_SUPPORT_CLAIM: byte := 0xb6
  const OP_UPDATE_CLAIM: byte := 0xb7
  const OP_PUSHDATA1: byte := 0x4c
  const OP_PUSHDATA2: byte := 0x4d
  const OP_PUSHDATA4: byte := 0x4e
  const OP_2DROP: byte := 0x6d
  const OP_DROP: byte := 0x75

  /** Half-open offsets of a field inside a script. */
  datatype Span = Span(start: nat, end: nat)

  datatype NameClaim = NameClaim(name: Bytes, value: Bytes, pubKeyScript: Bytes)

  /** The fields of a support or an update; the parsers return the claim id as the text ClaimId(). */
  datatype ClaimRef = ClaimRef(name: Bytes, pushedId: Bytes, value: Bytes, pubKeyScript: Bytes) {
    function ClaimId(): string {
      HexEncode(ReverseBytesSpec(pushedId))
    }
  }

  /** script[start:end], which panics unless start <= end <= len(script). */
  function Slice(s: Bytes, start: nat, end: nat): Outcome<Span> {
    if start <= end <= |s| then Ok(Span(start, end)) else Panic
  }

  /** The name field; Err is the branch "bytes to read is more than next byte". */
  function NameSpan(s: Bytes): Outcome<Span> {
    if |s| < 2 then Panic
    else if s[1] == OP_PUSHDATA1 then
      if |s| < 3 then Panic else Slice(s, 3, 3 + s[2] as nat)
    else if s[1] > OP_PUSHDATA1 then Err
    else Slice(s, 2, 2 + s[1] as nat)
  }

  /** The claim id field, whose first byte is always taken as its length. */
  function IdSpan(s: Bytes, at: nat): Outcome<Span> {
    if |s| <= at then Panic else Slice(s, at + 1, at + 1 + s[at] as nat)
  }

  /** The value field: any push opcode, and any other opcode taken as a length. */
  function ValueSpan(s: Bytes, at: nat): Outcome<Span> {
    if |s| <= at then Panic
    else if s[at] == OP_PUSHDATA1 then
      if |s| <= at + 1 then Panic else Slice(s, at + 2, at + 2 + s[at + 1] as nat)
    else if s[at] == OP_PUSHDATA2 then
      if |s| < at + 3 then Panic else Slice(s, at + 3, at + 3 + Uint16(s[at + 1..at + 3]))
    else if s[at] == OP_PUSHDATA4 then
      if |s| < at + 5 then Panic else Slice(s, at + 5, at + 5 + Uint32(s[at + 1..at + 5]))
    else Slice(s, at + 1, at + 1 + s[at] as nat)
  }

  function ParseClaimName(s: Bytes): Outcome<NameClaim> {
    match NameSpan(s)
    case Panic => Panic
    case Err => Panic // this parser panics where the other two return the error
    case Ok(n) =>
      match ValueSpan(s, n.end)
      case Panic => Panic
      case Err => Panic
      case Ok(v) =>
        if |s| < v.end + 2 then Panic
        else Ok(NameClaim(s[n.start..n.end], s[v.start..v.end], s[v.end + 2..]))
  }

  function ParseClaimSupport(s: Bytes): Outcome<ClaimRef> {
    match NameSpan(s)
    case Panic => Panic
    case Err => Err
    case Ok(n) =>
      match IdSpan(s, n.end)
      case Panic => Panic
      case Err => Panic
      case Ok(id) =>
        var name, pushedId := s[n.start..n.end], s[id.start..id.end];
        if |s| <= id.end then Panic
        else if s[id.end] == OP_2DROP then
          if |s| < id.end + 2 then Panic else Ok(ClaimRef(name, pushedId, [], s[id.end + 2..]))
        else
          match ValueSpan(s, id.end)
          case Panic => Panic
          case Err => Panic
          case Ok(v) =>
            if |s| < v.end + 2 then Panic
            else Ok(ClaimRef(name, pushedId, s[v.start..v.end], s[v.end + 2..]))
  }

  function ParseClaimUpdate(s: Bytes): Outcome<ClaimRef> {
    match NameSpan(s)
    case Panic => Panic
    case Err => Err
    case Ok(n) =>
      match IdSpan(s, n.end)
      case Panic => Panic
      case Err => Panic
      case Ok(id) =>
        match ValueSpan(s, id.end)
        case Panic => Panic
        case Err => Panic
        case Ok(v) =>
          if |s| < v.end + 2 then Panic
          else Ok(ClaimRef(s[n.start..n.end], s[id.start..id.end], s[v.start..v.end], s[v.end + 2..]))
  }

  /** GetPubKeyScriptFromClaimPKS, whose first test indexes the first byte. */
  function PubKeyScriptOf(s: Bytes): Outcome<Bytes> {
    if s == [] then Panic
    else if s[0] == OP_CLAIM_NAME then
      match ParseClaimName(s) { case Ok(c) => Ok(c.pubKeyScript) case Err => Err case Panic => Panic }
    else if s[0] == OP_UPDATE_CLAIM then
      match ParseClaimUpdate(s) { case Ok(c) => Ok(c.pubKeyScript) case Err => Err case Panic => Panic }
    else if s[0] == OP_SUPPORT_CLAIM then
      match ParseClaimSupport(s) { case Ok(c) => Ok(c.pubKeyScript) case Err => Err case Panic => Panic }
    else Err
  }
}
