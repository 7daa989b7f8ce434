/** The script printers of e2e/script.go, and what the parsers make of the printed scripts. */
module ClaimPrinter {
  import opened ByteStrings
  import opened Collections
  import opened ClaimScript
  import opened PushTokens
  import opened ClaimScriptRefinement

  /** A single byte 0..16 or 0x81, whose minimal push is an opcode (or the empty push, for 0). */
  predicate Small(data: Bytes) {
    |data| == 1 && (data[0] <= 16 || data[0] == 0x81)
  }

  predicate Pushable(data: Bytes) {
    |data| < 0x1_0000_0000
  }

  function MinimalForm(n: nat): Form {
    if n < 0x4c then Direct else if n < 0x100 then Data1 else if n < 0x1_0000 then Data2 else Data4
  }

  /** AddData of the script builder: the minimal push of data. */
  function AddData(data: Bytes): Bytes
    requires Pushable(data)
  {
    if data == [] || data == [0] then [0]
    else if |data| == 1 && data[0] <= 16 then [0x50 + data[0]]
    else if data == [0x81] then [0x4f]
    else Encode(MinimalForm(|data|), data)
  }

  /** What the builder writes is one push, which the tokenizer reads as the data; only the byte zero reads as
      nothing. */
  lemma AddDataReads(data: Bytes, rest: Bytes)
    requires Pushable(data)
    ensures var t := PushTokens.Next(AddData(data) + rest);
            && t.Split? && t.rest == rest && |t.tokens| == 1 && !t.tokens[0].Op?
            && t.tokens[0].data == if data == [0] then [] else data
  {
    if Plainly(data) && data != [] {
      NextPush(MinimalForm(|data|), data, rest);
    } else if data == [] {
      NextPush(Direct, [], rest);
      assert Encode(Direct, []) == [0];
    } else {
      var s := AddData(data) + rest;
      assert s[1..] == rest;
      if data == [0] { NextPush(Direct, [], rest); assert Encode(Direct, []) == [0]; }
    }
  }

  function PrintClaimName(name: Bytes, value: Bytes, pubKeyScript: Bytes): Bytes
    requires Pushable(name) && Pushable(value)
  {
    [OP_CLAIM_NAME] + AddData(name) + (AddData(value) + ([OP_2DROP, OP_DROP] + pubKeyScript))
  }

  /** The claim id is pushed as the reversal of its bytes in display order; here pushed is that reversal. */
  function PrintBareSupport(name: Bytes, pushed: Bytes, pubKeyScript: Bytes): Bytes
    requires Pushable(name) && Pushable(pushed)
  {
    [OP_SUPPORT_CLAIM] + AddData(name) + (AddData(pushed) + ([OP_2DROP, OP_DROP] + pubKeyScript))
  }

  /** The layout shared by supports with a value and updates. */
  function PrintRef(op: byte, name: Bytes, pushed: Bytes, value: Bytes, pubKeyScript: Bytes): Bytes
    requires Pushable(name) && Pushable(pushed) && Pushable(value)
  {
    [op] + AddData(name) + (AddData(pushed) + (AddData(value) + ([OP_2DROP, OP_2DROP] + pubKeyScript)))
  }

  /** What the builder pushes unchanged. */
  predicate Plainly(data: Bytes) {
    Pushable(data) && !Small(data)
  }

  function FieldOf(data: Bytes): (f: Field)
    requires Plainly(data)
    ensures f.Reads() && f.IsValue() && f.data == data && AddData(data) == f.Bytes()
    ensures f.IsName() <==> |data| < 0x100
  {
    Field(MinimalForm(|data|), data)
  }

  /** The first byte of a push that is not read back: an opcode above 0x4e, or a zero length for the byte zero. */
  lemma SmallOpcode(data: Bytes)
    requires Small(data)
    ensures |AddData(data)| == 1
    ensures AddData(data)[0] == 0 <==> data == [0]
    ensures data != [0] ==> 0x4e < AddData(data)[0] < OP_2DROP
  {
  }

  lemma LongOpcode(data: Bytes)
    requires Pushable(data) && |data| >= 0x100
    ensures AddData(data)[0] == OP_PUSHDATA2 || AddData(data)[0] == OP_PUSHDATA4
  {
  }

  /** The parsers stop at, or misread, a name that is not pushed directly or with PUSHDATA1. */
  lemma BadName(s: Bytes, op: byte, name: Bytes, tail: Bytes)
    requires Pushable(name) && s == [op] + AddData(name) + tail
    requires Small(name) || |name| >= 0x100
    ensures NameSpan(s).Ok? ==> s[NameSpan(s).value.start..NameSpan(s).value.end] != name
  {
    assert s[1] == AddData(name)[0];
    if Small(name) {
      SmallOpcode(name);
    } else {
      LongOpcode(name);
    }
  }

  lemma FirstField(s: Bytes, op: byte, a: Field, tail: Bytes)
    requires a.Valid() && s == [op] + a.Bytes() + tail
    ensures FieldAt(s, 1, a) && s[SpanOf(1, a).end..] == tail
  {
    assert s[1..SpanOf(1, a).end] == a.Bytes();
    FieldAtIff(s, 1, a);
  }

  lemma SecondField(s: Bytes, at: nat, b: Field, tail: Bytes)
    requires b.Valid() && at <= |s| && s[at..] == b.Bytes() + tail
    ensures FieldAt(s, at, b) && s[SpanOf(at, b).end..] == tail
  {
    var e := SpanOf(at, b).end;
    assert s[at..e] == s[at..][..e - at] == b.Bytes();
    assert s[e..] == s[at..][e - at..] == tail;
    FieldAtIff(s, at, b);
  }

  /** A value that is one small byte comes back as a field of another length. */
  lemma BadValue(s: Bytes, at: nat, value: Bytes, tail: Bytes)
    requires Small(value) && at <= |s| && s[at..] == AddData(value) + tail
    ensures |s| > at && s[at] != OP_2DROP
    ensures ValueSpan(s, at).Ok? ==> ValueSpan(s, at).value.end - ValueSpan(s, at).value.start != 1
  {
    SmallOpcode(value);
    assert s[at] == s[at..][0];
  }

  /** Name and value are pushed as the parsers expect. */
  predicate Faithful(name: Bytes, value: Bytes) {
    !Small(name) && |name| < 0x100 && !Small(value)
  }

  /** Printing a claim and parsing it gives the same claim back exactly when its name and value are pushed plainly. */
  lemma NameRoundTrip(name: Bytes, value: Bytes, pubKeyScript: Bytes)
    requires Pushable(name) && Pushable(value)
    ensures var s := PrintClaimName(name, value, pubKeyScript);
            && (ParseClaimName(s) == Ok(NameClaim(name, value, pubKeyScript)) <==> Faithful(name, value))
            && (Faithful(name, value) ==> PubKeyScriptOf(s) == Ok(pubKeyScript))
  {
    if Faithful(name, value) {
      NameReadBack(name, value, pubKeyScript);
    } else {
      NameClaimLost(name, value, pubKeyScript);
    }
  }

  lemma NameClaimLost(name: Bytes, value: Bytes, pubKeyScript: Bytes)
    requires Pushable(name) && Pushable(value) && !Faithful(name, value)
    ensures ParseClaimName(PrintClaimName(name, value, pubKeyScript)) != Ok(NameClaim(name, value, pubKeyScript))
  {
    var s, c := PrintClaimName(name, value, pubKeyScript), NameClaim(name, value, pubKeyScript);
    var back := [OP_2DROP, OP_DROP] + pubKeyScript;
    if Small(name) || |name| >= 0x100 {
      BadName(s, OP_CLAIM_NAME, name, AddData(value) + back);
    } else {
      NameValueLost(s, FieldOf(name), value, back);
    }
    NameParsed(s, c);
  }

  lemma NameValueLost(s: Bytes, a: Field, value: Bytes, back: Bytes)
    requires a.IsName() && Small(value) && s == [OP_CLAIM_NAME] + a.Bytes() + (AddData(value) + back)
    ensures NameSpan(s).Ok?
    ensures var v := ValueSpan(s, NameSpan(s).value.end); v.Ok? ==> v.value.end - v.value.start != 1
  {
    FirstField(s, OP_CLAIM_NAME, a, AddData(value) + back);
    NameSpanFinds(s, a);
    BadValue(s, SpanOf(1, a).end, value, back);
  }

  lemma NameParsed(s: Bytes, c: NameClaim)
    ensures ParseClaimName(s) == Ok(c) ==>
              && NameSpan(s).Ok? && s[NameSpan(s).value.start..NameSpan(s).value.end] == c.name
              && var v := ValueSpan(s, NameSpan(s).value.end); v.Ok? && |c.value| == v.value.end - v.value.start
  {
  }

  lemma NameReadBack(name: Bytes, value: Bytes, pubKeyScript: Bytes)
    requires Pushable(name) && Pushable(value) && Faithful(name, value)
    ensures var s := PrintClaimName(name, value, pubKeyScript);
            ParseClaimName(s) == Ok(NameClaim(name, value, pubKeyScript)) && s[0] == OP_CLAIM_NAME
  {
    NameReads(name, value, [OP_2DROP, OP_DROP], pubKeyScript);
  }

  lemma TwoFieldsLaid(s: Bytes, op: byte, a: Field, b: Field, drops: Bytes, rest: Bytes)
    requires a.Valid() && b.Valid() && |drops| == 2 && s == [op] + a.Bytes() + (b.Bytes() + (drops + rest))
    ensures Partition2(s, op, a, b, drops, rest)
  {
    FirstField(s, op, a, b.Bytes() + (drops + rest));
    var at := SpanOf(1, a).end;
    SecondField(s, at, b, drops + rest);
    Tail(s, SpanOf(at, b).end, drops, rest);
  }

  lemma NameReads(name: Bytes, value: Bytes, drops: Bytes, pubKeyScript: Bytes)
    requires Pushable(name) && Pushable(value) && Faithful(name, value) && |drops| == 2
    ensures var s := [OP_CLAIM_NAME] + AddData(name) + (AddData(value) + (drops + pubKeyScript));
            var c := NameClaim(name, value, pubKeyScript);
            && ParseClaimName(s) == Ok(c) && s[0] == OP_CLAIM_NAME
            && DropsBefore(s, pubKeyScript, drops) && s[NameSpan(s).value.end] < 0x4f
  {
    var s := [OP_CLAIM_NAME] + AddData(name) + (AddData(value) + (drops + pubKeyScript));
    var a, b := FieldOf(name), FieldOf(value);
    TwoFieldsLaid(s, OP_CLAIM_NAME, a, b, drops, pubKeyScript);
    NameParseFinds(s, NameClaim(name, value, pubKeyScript), a, b, drops);
  }

  /** Whatever two bytes take the place of the drops, the parser returns the claim; the tokenizer splits the script in
      this way for the drops alone. */
  lemma DropsAreUnchecked(name: Bytes, value: Bytes, drops: Bytes, pubKeyScript: Bytes)
    requires Pushable(name) && Pushable(value) && Faithful(name, value) && |drops| == 2
    ensures var s := [OP_CLAIM_NAME] + AddData(name) + (AddData(value) + (drops + pubKeyScript));
            var c := NameClaim(name, value, pubKeyScript);
            && ParseClaimName(s) == Ok(c)
            && ((exists nf, vf :: NameTokens(s, c, nf, vf)) <==> drops == [OP_2DROP, OP_DROP])
  {
    var s := [OP_CLAIM_NAME] + AddData(name) + (AddData(value) + (drops + pubKeyScript));
    NameReads(name, value, drops, pubKeyScript);
    NameRefinesTokens(s, NameClaim(name, value, pubKeyScript));
  }

  lemma Tail(s: Bytes, end: nat, drops: Bytes, rest: Bytes)
    requires end <= |s| && s[end..] == drops + rest && |drops| == 2
    ensures |s| == end + 2 + |rest| && s[end..end + 2] == drops && s[end + 2..] == rest
  {
    assert s[end..end + 2] == s[end..][..2];
    assert s[end + 2..] == s[end..][2..];
  }

  /** A claim id the parsers read back: a direct push. Claim ids of the protocol are 20 bytes. */
  predicate PushedId(pushed: Bytes) {
    |pushed| < 0x4c && !Small(pushed)
  }

  /** The claim id text is the pushed bytes, reversed, in hexadecimal digits. */
  lemma ClaimIdText(c: ClaimRef)
    ensures HexDecode(c.ClaimId()) == Some(ReverseBytesSpec(c.pushedId))
    ensures forall k :: 0 <= k < |c.ClaimId()| ==> DigitValue(c.ClaimId()[k]).Some?
    ensures |c.pushedId| % 2 == 0 ==> HexDecode(c.ClaimId()) == Some(Reversed(c.pushedId))
  {
    HexDecodes(ReverseBytesSpec(c.pushedId));
  }

  /**
   * The claim id text the parsers return for a printed id writes the id twice reversed: that is the id itself exactly
   * if its length is even or its middle byte is zero.
   */
  lemma PrintedClaimId(id: Bytes, name: Bytes, value: Bytes, pubKeyScript: Bytes)
    ensures var text := ClaimRef(name, ReverseBytesSpec(id), value, pubKeyScript).ClaimId();
            && HexDecode(text) == Some(ReverseBytesSpec(ReverseBytesSpec(id)))
            && (HexDecode(text) == Some(id) <==> |id| % 2 == 0 || id[|id| / 2] == 0)
    ensures |id| % 2 == 0 && |id| < 0x4c ==> PushedId(ReverseBytesSpec(id))
  {
    ReverseTwiceIff(id);
    ClaimIdText(ClaimRef(name, ReverseBytesSpec(id), value, pubKeyScript));
  }

  /** The 76 bytes that read alike with their own PUSHDATA1 header in front. */
  predicate AllPushData1(pushed: Bytes) {
    |pushed| == 0x4c && forall k :: 0 <= k < |pushed| ==> pushed[k] == OP_PUSHDATA1
  }

  lemma {:induction false} ShiftedAlike(pushed: Bytes, n: nat)
    requires |pushed| == 0x4c && n <= |pushed| && [OP_PUSHDATA1] + pushed[..|pushed| - 1] == pushed
    ensures forall k :: 0 <= k < n ==> pushed[k] == OP_PUSHDATA1
  {
    if n == 0 {
    } else {
      ShiftedAlike(pushed, n - 1);
      assert pushed[n - 1] == ([OP_PUSHDATA1] + pushed[..|pushed| - 1])[n - 1];
    }
  }

  /** Slices of the rest of a script. */
  lemma Offset(s: Bytes, at: nat, i: nat, j: nat)
    requires at <= |s| && i <= j <= |s| - at
    ensures s[at..][i..j] == s[at + i..at + j] && s[at..][i..] == s[at + i..]
    ensures i < |s| - at ==> s[at + i] == s[at..][i]
  {
  }

  /** A push of 76 to 255 bytes, and the parts of it. */
  lemma LongPush(pushed: Bytes, back: Bytes)
    requires 0x4c <= |pushed| < 0x100
    ensures var t := AddData(pushed) + back;
            && t[0] == OP_PUSHDATA1 && |t| == 2 + |pushed| + |back| && t[2 + |pushed|..] == back
            && t[1..77] == [|pushed| as byte] + pushed[..75] && t[77] == pushed[75]
  {
    assert AddData(pushed) == [OP_PUSHDATA1, |pushed| as byte] + pushed;
    var t := AddData(pushed) + back;
    assert t == [OP_PUSHDATA1, |pushed| as byte] + pushed + back;
  }

  lemma LongIdLost(s: Bytes, at: nat, pushed: Bytes, back: Bytes)
    requires 0x4c <= |pushed| < 0x100 && at <= |s| && s[at..] == AddData(pushed) + back
    requires IdSpan(s, at).Ok? && s[IdSpan(s, at).value.start..IdSpan(s, at).value.end] == pushed
    ensures AllPushData1(pushed) && IdSpan(s, at) == Ok(Span(at + 1, at + 77))
    ensures |s| >= at + 78 && s[at + 77] == OP_PUSHDATA1 && s[at + 78..] == back
  {
    LongPush(pushed, back);
    assert s[at] == s[at..][0];
    Offset(s, at, 1, 77);
    ShiftedAlike(pushed, |pushed|);
    Offset(s, at, 77, 78);
    Offset(s, at, 78, 78);
  }

  /** An id that is not pushed directly is misread, but for one. */
  lemma IdLost(s: Bytes, at: nat, pushed: Bytes, back: Bytes)
    requires Pushable(pushed) && !PushedId(pushed) && at <= |s| && s[at..] == AddData(pushed) + back
    requires IdSpan(s, at).Ok? && s[IdSpan(s, at).value.start..IdSpan(s, at).value.end] == pushed
    ensures AllPushData1(pushed) && IdSpan(s, at) == Ok(Span(at + 1, at + 77))
    ensures |s| >= at + 78 && s[at + 77] == OP_PUSHDATA1 && s[at + 78..] == back
  {
    assert s[at] == s[at..][0] == AddData(pushed)[0];
    if Small(pushed) {
      SmallOpcode(pushed);
    } else if |pushed| >= 0x100 {
      LongOpcode(pushed);
    } else {
      LongIdLost(s, at, pushed, back);
    }
  }

  lemma NameLost(s: Bytes, op: byte, name: Bytes, tail: Bytes, c: ClaimRef)
    requires Pushable(name) && (Small(name) || |name| >= 0x100) && s == [op] + AddData(name) + tail && c.name == name
    ensures ParseClaimUpdate(s) != Ok(c) && ParseClaimSupport(s) != Ok(c)
  {
    BadName(s, op, name, tail);
  }

  /** A support printed without a value parses back exactly when its name and its claim id are pushed plainly. */
  lemma BareSupportRoundTrip(name: Bytes, pushed: Bytes, pubKeyScript: Bytes)
    requires Pushable(name) && Pushable(pushed)
    ensures var s := PrintBareSupport(name, pushed, pubKeyScript);
            var plain := !Small(name) && |name| < 0x100 && PushedId(pushed);
            && (ParseClaimSupport(s) == Ok(ClaimRef(name, pushed, [], pubKeyScript)) <==> plain)
            && (plain ==> PubKeyScriptOf(s) == Ok(pubKeyScript) && AfterId(s).Ok? && s[AfterId(s).value] == OP_2DROP)
  {
    if !Small(name) && |name| < 0x100 && PushedId(pushed) {
      BareReadBack(name, pushed, pubKeyScript);
    } else {
      BareLost(name, pushed, pubKeyScript);
    }
  }

  lemma BareLost(name: Bytes, pushed: Bytes, pubKeyScript: Bytes)
    requires Pushable(name) && Pushable(pushed) && (Small(name) || |name| >= 0x100 || !PushedId(pushed))
    ensures ParseClaimSupport(PrintBareSupport(name, pushed, pubKeyScript)) !=
            Ok(ClaimRef(name, pushed, [], pubKeyScript))
  {
    var s := PrintBareSupport(name, pushed, pubKeyScript);
    var back := [OP_2DROP, OP_DROP] + pubKeyScript;
    if Small(name) || |name| >= 0x100 {
      NameLost(s, OP_SUPPORT_CLAIM, name, AddData(pushed) + back, ClaimRef(name, pushed, [], pubKeyScript));
    } else {
      BareOdd(s, name, pushed, back, pubKeyScript);
    }
  }

  lemma BareOdd(s: Bytes, name: Bytes, pushed: Bytes, back: Bytes, pubKeyScript: Bytes)
    requires Pushable(name) && !Small(name) && |name| < 0x100 && Pushable(pushed) && !PushedId(pushed)
    requires s == [OP_SUPPORT_CLAIM] + AddData(name) + (AddData(pushed) + back) && |back| >= 2 && back[0] == OP_2DROP
    ensures ParseClaimSupport(s) != Ok(ClaimRef(name, pushed, [], pubKeyScript))
  {
    var a := FieldOf(name);
    FirstField(s, OP_SUPPORT_CLAIM, a, AddData(pushed) + back);
    NameSpanFinds(s, a);
    BareIdLost(s, SpanOf(1, a).end, pushed, back, name, pubKeyScript);
  }

  lemma SupportParsed(s: Bytes, c: ClaimRef)
    requires ParseClaimSupport(s) == Ok(c)
    ensures NameSpan(s).Ok? && IdSpan(s, NameSpan(s).value.end).Ok?
    ensures var id := IdSpan(s, NameSpan(s).value.end).value;
            && s[id.start..id.end] == c.pushedId && id.end < |s|
            && (s[id.end] != OP_2DROP ==>
                var v := ValueSpan(s, id.end); v.Ok? && |c.value| == v.value.end - v.value.start)
  {
  }

  lemma BareIdLost(s: Bytes, at: nat, pushed: Bytes, back: Bytes, name: Bytes, pubKeyScript: Bytes)
    requires Pushable(pushed) && !PushedId(pushed) && at <= |s| && s[at..] == AddData(pushed) + back
    requires NameSpan(s).Ok? && NameSpan(s).value.end == at && |back| >= 2 && back[0] == OP_2DROP
    ensures ParseClaimSupport(s) != Ok(ClaimRef(name, pushed, [], pubKeyScript))
  {
    if ParseClaimSupport(s) == Ok(ClaimRef(name, pushed, [], pubKeyScript)) {
      SupportParsed(s, ClaimRef(name, pushed, [], pubKeyScript));
      IdLost(s, at, pushed, back);
    }
  }

  lemma BareReadBack(name: Bytes, pushed: Bytes, pubKeyScript: Bytes)
    requires Pushable(name) && PushedId(pushed) && !Small(name) && |name| < 0x100
    ensures var s := PrintBareSupport(name, pushed, pubKeyScript);
            && ParseClaimSupport(s) == Ok(ClaimRef(name, pushed, [], pubKeyScript)) && s[0] == OP_SUPPORT_CLAIM
            && AfterId(s).Ok? && s[AfterId(s).value] == OP_2DROP
  {
    var s := PrintBareSupport(name, pushed, pubKeyScript);
    var drops := [OP_2DROP, OP_DROP];
    var a, b := FieldOf(name), FieldOf(pushed);
    TwoFieldsLaid(s, OP_SUPPORT_CLAIM, a, b, drops, pubKeyScript);
    BareFinds(s, ClaimRef(name, pushed, [], pubKeyScript), a, b, drops);
  }

  /** What printing with a value leaves in front of the value. */
  lemma RefFront(op: byte, a: Field, b: Field, s: Bytes, back: Bytes)
    requires a.IsName() && b.Valid() && b.form.Direct? && s == [op] + a.Bytes() + (b.Bytes() + back)
    ensures var at := SpanOf(SpanOf(1, a).end, b).end;
            && FieldAt(s, 1, a) && FieldAt(s, SpanOf(1, a).end, b)
            && AfterId(s) == Ok(at) && at <= |s| && s[at..] == back
            && NameSpan(s) == Ok(SpanOf(1, a)) && IdSpan(s, SpanOf(1, a).end) == Ok(SpanOf(SpanOf(1, a).end, b))
  {
    FirstField(s, op, a, b.Bytes() + back);
    SecondField(s, SpanOf(1, a).end, b, back);
    NameSpanFinds(s, a);
    IdSpanFinds(s, SpanOf(1, a).end, b);
  }

  lemma RefReadBack(op: byte, name: Bytes, pushed: Bytes, value: Bytes, pubKeyScript: Bytes)
    requires Pushable(name) && PushedId(pushed) && Pushable(value) && Faithful(name, value)
    ensures var s := PrintRef(op, name, pushed, value, pubKeyScript);
            && ParseClaimUpdate(s) == Ok(ClaimRef(name, pushed, value, pubKeyScript)) && s[0] == op
            && AfterId(s).Ok? && AfterId(s).value < |s| && s[AfterId(s).value] != OP_2DROP
  {
    var s := PrintRef(op, name, pushed, value, pubKeyScript);
    var a, b, v := FieldOf(name), FieldOf(pushed), FieldOf(value);
    var drops := [OP_2DROP, OP_2DROP];
    RefFront(op, a, b, s, v.Bytes() + (drops + pubKeyScript));
    var at := SpanOf(SpanOf(1, a).end, b).end;
    SecondField(s, at, v, drops + pubKeyScript);
    Tail(s, SpanOf(at, v).end, drops, pubKeyScript);
    RefFinds(s, ClaimRef(name, pushed, value, pubKeyScript), a, b, v, drops);
  }

  lemma ValueLost(s: Bytes, op: byte, a: Field, b: Field, value: Bytes, back: Bytes, c: ClaimRef)
    requires a.IsName() && b.Valid() && b.form.Direct? && Small(value) && c.value == value
    requires s == [op] + a.Bytes() + (b.Bytes() + (AddData(value) + back))
    ensures ParseClaimUpdate(s) != Ok(c) && ParseClaimSupport(s) != Ok(c)
    ensures AfterId(s).Ok? && AfterId(s).value < |s| && s[AfterId(s).value] != OP_2DROP
  {
    RefFront(op, a, b, s, AddData(value) + back);
    var at := SpanOf(SpanOf(1, a).end, b).end;
    BadValue(s, at, value, back);
    SupportIsUpdate(s, c);
  }

  /** The claim id comes back: it is a direct push, or 76 PUSHDATA1 bytes in front of a value that is a direct push. */
  predicate IdReadBack(pushed: Bytes, value: Bytes) {
    PushedId(pushed) || (AllPushData1(pushed) && |value| < 0x4c)
  }

  lemma OddIdFinds(s: Bytes, at: nat, pushed: Bytes, back: Bytes)
    requires AllPushData1(pushed) && at <= |s| && s[at..] == AddData(pushed) + back
    ensures IdSpan(s, at) == Ok(Span(at + 1, at + 77)) && s[at + 1..at + 77] == pushed
    ensures |s| == at + 78 + |back| && s[at + 77] == OP_PUSHDATA1 && s[at + 78..] == back
  {
    LongPush(pushed, back);
    Offset(s, at, 0, 1);
    Offset(s, at, 1, 77);
    Offset(s, at, 77, 78);
    Offset(s, at, 78, 78);
    assert [OP_PUSHDATA1] + pushed[..75] == pushed;
  }

  lemma DirectPush(value: Bytes, tail: Bytes)
    requires |value| < 0x4c && !Small(value)
    ensures var t := AddData(value) + tail;
            && |t| == 1 + |value| + |tail| && t[0] as nat == |value|
            && t[1..1 + |value|] == value && t[1 + |value|..] == tail
  {
    assert AddData(value) == [|value| as byte] + value;
  }

  lemma Data1Finds(s: Bytes, at: nat, t: Bytes, value: Bytes, tail: Bytes)
    requires at < |s| && s[at] == OP_PUSHDATA1 && s[at + 1..] == t && |value| < 0x4c
    requires |t| == 1 + |value| + |tail| && t[0] as nat == |value|
    requires t[1..1 + |value|] == value && t[1 + |value|..] == tail
    ensures var end := at + 2 + |value|;
            && |s| == end + |tail| && ValueSpan(s, at) == Ok(Span(at + 2, end))
            && s[at + 2..end] == value && s[end..] == tail
  {
    assert s[at + 1] == t[0];
    Offset(s, at + 1, 1, 1 + |value|);
  }

  /** A direct push behind a PUSHDATA1 byte reads as a push with that opcode. */
  lemma OddValueFinds(s: Bytes, at: nat, value: Bytes, tail: Bytes)
    requires |value| < 0x4c && !Small(value)
    requires at < |s| && s[at] == OP_PUSHDATA1 && s[at + 1..] == AddData(value) + tail
    ensures var end := at + 2 + |value|;
            && |s| == end + |tail| && ValueSpan(s, at) == Ok(Span(at + 2, end))
            && s[at + 2..end] == value && s[end..] == tail
  {
    DirectPush(value, tail);
    Data1Finds(s, at, AddData(value) + tail, value, tail);
  }

  /** The one misread id that comes back, since its last byte is taken for the opcode of the value's push. */
  lemma OddIdReadBack(s: Bytes, at: nat, c: ClaimRef, drops: Bytes)
    requires AllPushData1(c.pushedId) && |c.value| < 0x4c && !Small(c.value) && |drops| == 2
    requires at <= |s| && s[at..] == AddData(c.pushedId) + (AddData(c.value) + (drops + c.pubKeyScript))
    requires NameSpan(s).Ok? && NameSpan(s).value.end == at && s[NameSpan(s).value.start..at] == c.name
    ensures ParseClaimUpdate(s) == Ok(c) && AfterId(s) == Ok(at + 77) && at + 77 < |s| && s[at + 77] == OP_PUSHDATA1
  {
    OddIdFinds(s, at, c.pushedId, AddData(c.value) + (drops + c.pubKeyScript));
    OddValueFinds(s, at + 77, c.value, drops + c.pubKeyScript);
    Tail(s, at + 79 + |c.value|, drops, c.pubKeyScript);
  }

  /** Any other id that is not pushed directly is lost. */
  lemma RefIdLost(s: Bytes, at: nat, c: ClaimRef, drops: Bytes)
    requires Pushable(c.pushedId) && Pushable(c.value) && !PushedId(c.pushedId) && |drops| == 2
    requires at <= |s| && s[at..] == AddData(c.pushedId) + (AddData(c.value) + (drops + c.pubKeyScript))
    requires NameSpan(s).Ok? && NameSpan(s).value.end == at
    requires ParseClaimUpdate(s) == Ok(c)
    ensures AllPushData1(c.pushedId) && |c.value| < 0x4c && !Small(c.value)
  {
    var back := AddData(c.value) + (drops + c.pubKeyScript);
    IdLost(s, at, c.pushedId, back);
    assert s[at + 78] == s[at + 78..][0] == AddData(c.value)[0];
    assert |s| == at + 78 + |back|;
    if Small(c.value) {
      SmallOpcode(c.value);
    } else if |c.value| >= 0x100 {
      LongOpcode(c.value);
    }
  }

  lemma OddIdRoundTrip(s: Bytes, at: nat, c: ClaimRef, drops: Bytes)
    requires Pushable(c.pushedId) && Pushable(c.value) && !PushedId(c.pushedId) && |drops| == 2
    requires at <= |s| && s[at..] == AddData(c.pushedId) + (AddData(c.value) + (drops + c.pubKeyScript))
    requires NameSpan(s).Ok? && NameSpan(s).value.end == at && s[NameSpan(s).value.start..at] == c.name
    ensures ParseClaimUpdate(s) == Ok(c) <==> AllPushData1(c.pushedId) && |c.value| < 0x4c && !Small(c.value)
    ensures ParseClaimSupport(s) == Ok(c) <==> ParseClaimUpdate(s) == Ok(c)
  {
    if AllPushData1(c.pushedId) && |c.value| < 0x4c && !Small(c.value) {
      OddIdReadBack(s, at, c, drops);
      SupportIsUpdate(s, c);
    } else if ParseClaimUpdate(s) == Ok(c) {
      RefIdLost(s, at, c, drops);
    } else if ParseClaimSupport(s) == Ok(c) {
      OddSupport(s, at, c, drops);
    }
  }

  lemma OddSupport(s: Bytes, at: nat, c: ClaimRef, drops: Bytes)
    requires Pushable(c.pushedId) && Pushable(c.value) && !PushedId(c.pushedId)
    requires at <= |s| && s[at..] == AddData(c.pushedId) + (AddData(c.value) + (drops + c.pubKeyScript))
    requires NameSpan(s).Ok? && NameSpan(s).value.end == at && ParseClaimSupport(s) == Ok(c)
    ensures ParseClaimUpdate(s) == Ok(c)
  {
    IdLost(s, at, c.pushedId, AddData(c.value) + (drops + c.pubKeyScript));
    SupportIsUpdate(s, c);
  }

  /** Supports with a value, and updates, parse back exactly when name and value are pushed plainly and the claim
      id comes back. */
  lemma RefRoundTrip(op: byte, name: Bytes, pushed: Bytes, value: Bytes, pubKeyScript: Bytes)
    requires Pushable(name) && Pushable(value) && Pushable(pushed)
    ensures var s := PrintRef(op, name, pushed, value, pubKeyScript);
            var c := ClaimRef(name, pushed, value, pubKeyScript);
            && (ParseClaimSupport(s) == Ok(c) <==> Faithful(name, value) && IdReadBack(pushed, value))
            && (ParseClaimUpdate(s) == Ok(c) <==> Faithful(name, value) && IdReadBack(pushed, value))
            && (Faithful(name, value) && IdReadBack(pushed, value) && op in {OP_SUPPORT_CLAIM, OP_UPDATE_CLAIM} ==>
                  PubKeyScriptOf(s) == Ok(pubKeyScript))
            && (!Small(name) && |name| < 0x100 && PushedId(pushed) ==>
                AfterId(s).Ok? && s[AfterId(s).value] != OP_2DROP)
  {
    var s := PrintRef(op, name, pushed, value, pubKeyScript);
    var c := ClaimRef(name, pushed, value, pubKeyScript);
    var drops := [OP_2DROP, OP_2DROP];
    var back := drops + pubKeyScript;
    if Small(name) || |name| >= 0x100 {
      NameLost(s, op, name, AddData(pushed) + (AddData(value) + back), c);
    } else if !PushedId(pushed) {
      var a := FieldOf(name);
      FirstField(s, op, a, AddData(pushed) + (AddData(value) + back));
      NameSpanFinds(s, a);
      OddIdRoundTrip(s, SpanOf(1, a).end, c, drops);
    } else if Small(value) {
      ValueLost(s, op, FieldOf(name), FieldOf(pushed), value, back, c);
    } else {
      RefReadBack(op, name, pushed, value, pubKeyScript);
      SupportIsUpdate(s, c);
    }
  }

  /** Where the byte lies that is read as the one after a claim id that is not pushed directly. */
  function AfterLongId(pushed: Bytes): nat
    requires |pushed| >= 0x4c
    ensures AfterLongId(pushed) < |pushed|
  {
    if |pushed| < 0x1_0000 then 75 else 74
  }

  /** That byte of a claim id of more than 75 bytes is OP_2DROP, or, for a claim id of one small byte, the byte of
      the rest that its opcode leads to. */
  predicate HidesValue(pushed: Bytes, value: Bytes, pubKeyScript: Bytes)
    requires Pushable(pushed) && Pushable(value)
  {
    if Small(pushed) then
      var k, rest := AddData(pushed)[0] as nat, AddData(value) + ([OP_2DROP, OP_2DROP] + pubKeyScript);
      k + 1 < |rest| && rest[k] == OP_2DROP
    else
      |pushed| >= 0x4c && pushed[AfterLongId(pushed)] == OP_2DROP
  }

  /** The parser takes the script for a support without a value. */
  predicate TakenForBare(s: Bytes) {
    && ParseClaimSupport(s).Ok? && AfterId(s).Ok? && AfterId(s).value < |s| && s[AfterId(s).value] == OP_2DROP
    && ParseClaimSupport(s).value.value == []
  }

  lemma TakenForBareAt(s: Bytes, at: nat, tail: Bytes)
    requires NameSpan(s).Ok? && NameSpan(s).value.end == at <= |s| && s[at..] == tail && tail != []
    ensures TakenForBare(s) <==> tail[0] as nat + 2 < |tail| && tail[1 + tail[0] as nat] == OP_2DROP
  {
    Offset(s, at, 0, 0);
    if tail[0] as nat + 1 < |tail| { Offset(s, at, 1 + tail[0] as nat, 1 + tail[0] as nat); }
  }

  /** The bytes behind the header of a long push. */
  lemma AfterLong(pushed: Bytes, rest: Bytes)
    requires Pushable(pushed) && |pushed| >= 0x4c && |rest| >= 2
    ensures var tail := AddData(pushed) + rest;
            tail[0] as nat + 2 < |tail| && tail[1 + tail[0] as nat] == pushed[AfterLongId(pushed)]
  {
    var f := MinimalForm(|pushed|);
    assert AddData(pushed) == Header(f, |pushed|) + pushed;
  }

  /** A direct push is followed by the push of the value. */
  lemma AfterDirect(pushed: Bytes, value: Bytes, back: Bytes)
    requires PushedId(pushed) && Pushable(value) && |back| >= 2
    ensures var tail := AddData(pushed) + (AddData(value) + back);
            tail[0] as nat == |pushed| && |tail| > 2 + |pushed| && tail[1 + |pushed|] != OP_2DROP
  {
    DirectPush(pushed, AddData(value) + back);
    if Small(value) { SmallOpcode(value); }
  }

  lemma HidesIff(pushed: Bytes, value: Bytes, pubKeyScript: Bytes)
    requires Pushable(pushed) && Pushable(value)
    ensures var tail := AddData(pushed) + (AddData(value) + ([OP_2DROP, OP_2DROP] + pubKeyScript));
            HidesValue(pushed, value, pubKeyScript) <==>
            tail[0] as nat + 2 < |tail| && tail[1 + tail[0] as nat] == OP_2DROP
    ensures HidesValue(pushed, value, pubKeyScript) ==> !PushedId(pushed)
  {
    var back := [OP_2DROP, OP_2DROP] + pubKeyScript;
    if Small(pushed) {
      SmallOpcode(pushed);
    } else if |pushed| >= 0x4c {
      AfterLong(pushed, AddData(value) + back);
    } else {
      AfterDirect(pushed, value, back);
    }
  }

  /** A printed support with a value is taken for one without exactly if its claim id, which is then not pushed
      directly, hides the value. */
  lemma TakenForBareIff(name: Bytes, pushed: Bytes, value: Bytes, pubKeyScript: Bytes)
    requires Plainly(name) && |name| < 0x100 && Pushable(pushed) && Pushable(value)
    ensures TakenForBare(PrintRef(OP_SUPPORT_CLAIM, name, pushed, value, pubKeyScript)) <==>
            HidesValue(pushed, value, pubKeyScript)
    ensures HidesValue(pushed, value, pubKeyScript) ==> !PushedId(pushed)
  {
    var tail := AddData(pushed) + (AddData(value) + ([OP_2DROP, OP_2DROP] + pubKeyScript));
    BareFront(PrintRef(OP_SUPPORT_CLAIM, name, pushed, value, pubKeyScript), name, tail);
    HidesIff(pushed, value, pubKeyScript);
  }

  lemma BareFront(s: Bytes, name: Bytes, tail: Bytes)
    requires Plainly(name) && |name| < 0x100 && s == [OP_SUPPORT_CLAIM] + AddData(name) + tail && tail != []
    ensures TakenForBare(s) <==> tail[0] as nat + 2 < |tail| && tail[1 + tail[0] as nat] == OP_2DROP
  {
    var a := FieldOf(name);
    FirstField(s, OP_SUPPORT_CLAIM, a, tail);
    NameSpanFinds(s, a);
    TakenForBareAt(s, SpanOf(1, a).end, tail);
  }

  /** The parsers of supports and updates reject exactly the scripts whose name starts with an opcode above
      PUSHDATA1, and the parser of names none; what none accepts or rejects makes it panic. */
  lemma RejectsIff(s: Bytes)
    ensures ParseClaimSupport(s) == Err <==> |s| >= 2 && s[1] > 0x4c
    ensures ParseClaimUpdate(s) == Err <==> |s| >= 2 && s[1] > 0x4c
    ensures ParseClaimName(s) != Err
    ensures PubKeyScriptOf(s) == Err <==>
            s != [] && (s[0] !in {0xb5, 0xb6, 0xb7} || (s[0] != 0xb5 && |s| >= 2 && s[1] > 0x4c))
  {
  }

  /** Every non-empty script with another leading byte is rejected, and the empty script makes the first test panic. */
  lemma OnlyClaimScripts(s: Bytes)
    ensures s == [] ==> PubKeyScriptOf(s) == Panic
    ensures s != [] && s[0] !in {0xb5, 0xb6, 0xb7} ==> PubKeyScriptOf(s) == Err
  {
  }
}
