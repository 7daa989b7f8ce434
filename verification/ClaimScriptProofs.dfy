/** The offset parsers refine the push tokenizer, and what a successful parse says about the script. */
module ClaimScriptRefinement {
  import opened ByteStrings
  import opened ClaimScript
  import opened PushTokens

  datatype Field = Field(form: Form, data: Bytes) {
    predicate Valid() { Fits(form, |data|) }
    predicate Reads() { Readable(form, data) }
    /** The forms the name parser knows. */
    predicate IsName() { Reads() && (form.Direct? || form.Data1?) }
    /** The forms the value parser knows: it also takes an opcode above PUSHDATA4 as a length. */
    predicate IsValue() { Valid() && (form.Direct? ==> |data| !in {0x4c, 0x4d, 0x4e}) }
    /** A direct push of OP_2DROP many bytes, which the support parser takes for the absence of a value. */
    predicate LooksBare() { form.Direct? && |data| == OP_2DROP as nat }
    function Bytes(): Bytes requires Valid() { Encode(form, data) }
  }

  predicate AllValid(fields: seq<Field>) {
    forall f <- fields :: f.Valid()
  }

  predicate AllRead(fields: seq<Field>)
    ensures AllRead(fields) ==> AllValid(fields)
  {
    var ok := forall f <- fields :: f.Reads();
    assert ok ==> forall f <- fields :: f.Reads() && f.Valid();
    ok
  }

  lemma AllReadCons(fields: seq<Field>)
    requires fields != [] && fields[0].Reads() && AllRead(fields[1..])
    ensures AllRead(fields)
  {
    assert fields == [fields[0]] + fields[1..];
  }

  function Pushes(fields: seq<Field>): Bytes
    requires AllValid(fields)
  {
    if fields == [] then [] else fields[0].Bytes() + Pushes(fields[1..])
  }

  function PushTokensOf(fields: seq<Field>): (ts: seq<Token>)
    ensures |ts| == |fields|
  {
    if fields == [] then [] else [Push(fields[0].form, fields[0].data)] + PushTokensOf(fields[1..])
  }

  lemma PushesCons(fields: seq<Field>, drops: Bytes, rest: Bytes)
    requires fields != [] && AllValid(fields)
    ensures Pushes(fields) + drops + rest == fields[0].Bytes() + (Pushes(fields[1..]) + drops + rest)
  {
  }

  lemma TokensCons(fields: seq<Field>, last: seq<Token>)
    requires fields != []
    ensures PushTokensOf(fields) + last == [Push(fields[0].form, fields[0].data)] + (PushTokensOf(fields[1..]) + last)
  {
  }

  /** opcode, pushes, two drop bytes and the remaining public key script, with nothing in between. */
  function Script(op: byte, fields: seq<Field>, drops: Bytes, rest: Bytes): Bytes
    requires AllValid(fields)
  {
    [op] + Pushes(fields) + drops + rest
  }

  function TokensOf(op: byte, fields: seq<Field>, drops: Bytes): seq<Token>
    requires |drops| == 2
  {
    [Op(op)] + (PushTokensOf(fields) + [Op(drops[0]), Op(drops[1])])
  }

  /** The opcodes these scripts use that are not pushes. */
  predicate Plain(op: byte) { op > 0x60 }

  lemma TokenizeDrops(s: Bytes, drops: Bytes, rest: Bytes)
    requires |drops| == 2 && Plain(drops[0]) && Plain(drops[1])
    ensures Tokenize(s, 2) == Split([Op(drops[0]), Op(drops[1])], rest) <==> s == drops + rest
  {
    if s == drops + rest {
      assert s[1..][1..] == rest;
      assert Next(s) == Split([Op(drops[0])], s[1..]);
      assert Next(s[1..]) == Split([Op(drops[1])], rest);
      TokenizeCons(s[1..], Op(drops[1]), rest, 0);
      TokenizeCons(s, Op(drops[0]), s[1..], 1);
    }
    if Tokenize(s, 2) == Split([Op(drops[0]), Op(drops[1])], rest) {
      var a := Next(s);
      var b := Next(a.rest);
      TokenizeCons(s, a.tokens[0], a.rest, 1);
      TokenizeCons(a.rest, b.tokens[0], b.rest, 0);
      assert Tokenize(s, 2).tokens == [a.tokens[0], b.tokens[0]];
      assert [a.tokens[0], b.tokens[0]][0] == Op(drops[0]) && [a.tokens[0], b.tokens[0]][1] == Op(drops[1]);
      assert s == [s[0]] + a.rest && a.rest == [a.rest[0]] + b.rest;
    }
  }

  lemma {:induction false} TokenizesPushes(s: Bytes, fields: seq<Field>, drops: Bytes, rest: Bytes)
    requires |drops| == 2 && Plain(drops[0]) && Plain(drops[1])
    requires AllRead(fields) && s == Pushes(fields) + drops + rest
    ensures Tokenize(s, |fields| + 2) == Split(PushTokensOf(fields) + [Op(drops[0]), Op(drops[1])], rest)
    decreases fields
  {
    var last := [Op(drops[0]), Op(drops[1])];
    if fields == [] {
      TokenizeDrops(s, drops, rest);
      assert PushTokensOf(fields) + last == last;
      assert s == drops + rest;
    } else {
      var f, fs := fields[0], fields[1..];
      assert f in fields && f.Reads();
      var s' := Pushes(fs) + drops + rest;
      PushesCons(fields, drops, rest);
      NextPush(f.form, f.data, s');
      TokenizesPushes(s', fs, drops, rest);
      TokenizeCons(s, Push(f.form, f.data), s', |fs| + 2);
      TokensCons(fields, last);
    }
  }

  /** A split into k + 1 tokens is the first token followed by a split of what it leaves. */
  lemma TokenizeUncons(s: Bytes, t: Token, ts: seq<Token>, rest: Bytes) returns (mid: Bytes)
    requires Tokenize(s, |ts| + 1) == Split([t] + ts, rest)
    ensures Next(s) == Split([t], mid) && Tokenize(mid, |ts|) == Split(ts, rest)
  {
    var a := Next(s);
    mid := a.rest;
    var b := Tokenize(mid, |ts|);
    assert Tokenize(s, |ts| + 1) == Split(a.tokens + b.tokens, b.rest);
    assert (a.tokens + b.tokens)[0] == ([t] + ts)[0] && (a.tokens + b.tokens)[1..] == ([t] + ts)[1..];
    assert a.tokens == [t] && b.tokens == ts;
  }

  lemma {:induction false} PushesTokenized(s: Bytes, fields: seq<Field>, drops: Bytes, rest: Bytes)
    requires |drops| == 2 && Plain(drops[0]) && Plain(drops[1])
    requires Tokenize(s, |fields| + 2) == Split(PushTokensOf(fields) + [Op(drops[0]), Op(drops[1])], rest)
    ensures AllRead(fields) && s == Pushes(fields) + drops + rest
    decreases fields
  {
    var last := [Op(drops[0]), Op(drops[1])];
    if fields == [] {
      assert PushTokensOf(fields) + last == last;
      TokenizeDrops(s, drops, rest);
      assert Pushes(fields) + drops + rest == drops + rest;
    } else {
      var f, fs := fields[0], fields[1..];
      var more := PushTokensOf(fs) + last;
      TokensCons(fields, last);
      var mid := TokenizeUncons(s, Push(f.form, f.data), more, rest);
      NextIsEncoding(s, f.form, f.data, mid);
      PushesTokenized(mid, fs, drops, rest);
      AllReadCons(fields);
      PushesCons(fields, drops, rest);
    }
  }

  /** The tokenizer accepts exactly the scripts built from readable fields. */
  lemma TokenizeScript(s: Bytes, op: byte, fields: seq<Field>, drops: Bytes, rest: Bytes)
    requires Plain(op) && |drops| == 2 && Plain(drops[0]) && Plain(drops[1])
    ensures Tokenize(s, |fields| + 3) == Split(TokensOf(op, fields, drops), rest) <==>
            AllRead(fields) && s == Script(op, fields, drops, rest)
  {
    if AllRead(fields) && s == Script(op, fields, drops, rest) {
      ScriptTokenized(s, op, fields, drops, rest);
    }
    if Tokenize(s, |fields| + 3) == Split(TokensOf(op, fields, drops), rest) {
      TokenizedScript(s, op, fields, drops, rest);
    }
  }

  lemma TokenizedScript(s: Bytes, op: byte, fields: seq<Field>, drops: Bytes, rest: Bytes)
    requires Plain(op) && |drops| == 2 && Plain(drops[0]) && Plain(drops[1])
    requires Tokenize(s, |fields| + 3) == Split(TokensOf(op, fields, drops), rest)
    ensures AllRead(fields) && s == Script(op, fields, drops, rest)
  {
    var more := PushTokensOf(fields) + [Op(drops[0]), Op(drops[1])];
    var mid := TokenizeUncons(s, Op(op), more, rest);
    NextIsOpcode(s, op, mid);
    PushesTokenized(mid, fields, drops, rest);
    ScriptIs(op, fields, drops, rest);
  }

  lemma ScriptIs(op: byte, fields: seq<Field>, drops: Bytes, rest: Bytes)
    requires AllValid(fields)
    ensures [op] + (Pushes(fields) + drops + rest) == Script(op, fields, drops, rest)
  {
  }

  lemma ScriptTokenized(s: Bytes, op: byte, fields: seq<Field>, drops: Bytes, rest: Bytes)
    requires Plain(op) && |drops| == 2 && Plain(drops[0]) && Plain(drops[1])
    requires AllRead(fields) && s == Script(op, fields, drops, rest)
    ensures Tokenize(s, |fields| + 3) == Split(TokensOf(op, fields, drops), rest)
  {
    assert s[1..] == Pushes(fields) + drops + rest;
    TokenizesPushes(s[1..], fields, drops, rest);
    assert Next(s) == Split([Op(op)], s[1..]);
    TokenizeCons(s, Op(op), s[1..], |fields| + 2);
  }

  /** The span of a field whose header starts at offset at. */
  function SpanOf(at: nat, f: Field): Span {
    Span(at + HeaderSize(f.form), at + HeaderSize(f.form) + |f.data|)
  }

  /** The field f, header and data, lies in s from offset at. */
  ghost predicate FieldAt(s: Bytes, at: nat, f: Field) {
    var v := SpanOf(at, f);
    f.Valid() && v.end <= |s| && s[at..v.start] == Header(f.form, |f.data|) && s[v.start..v.end] == f.data
  }

  /** The fields lie in s one directly after the other, from offset at to offset end. */
  ghost predicate Laid(s: Bytes, at: nat, fields: seq<Field>, end: nat)
    decreases fields
  {
    if fields == [] then at == end
    else FieldAt(s, at, fields[0]) && Laid(s, SpanOf(at, fields[0]).end, fields[1..], end)
  }

  lemma {:induction false} LaidOrdered(s: Bytes, at: nat, fields: seq<Field>, end: nat)
    requires Laid(s, at, fields, end)
    ensures at <= end && AllValid(fields)
    decreases fields
  {
    if fields == [] {
    } else {
      LaidOrdered(s, SpanOf(at, fields[0]).end, fields[1..], end);
      assert fields == [fields[0]] + fields[1..];
    }
  }

  lemma FieldAtIff(s: Bytes, at: nat, f: Field)
    requires f.Valid() && SpanOf(at, f).end <= |s|
    ensures FieldAt(s, at, f) <==> s[at..SpanOf(at, f).end] == f.Bytes()
  {
    var v := SpanOf(at, f);
    var t := s[at..v.end];
    assert t == s[at..v.start] + s[v.start..v.end];
    assert t[..v.start - at] == s[at..v.start] && t[v.start - at..] == s[v.start..v.end];
    assert f.Bytes()[..v.start - at] == Header(f.form, |f.data|) && f.Bytes()[v.start - at..] == f.data;
  }

  lemma SlicesJoin(s: Bytes, at: nat, mid: nat, end: nat, x: Bytes, y: Bytes)
    requires at <= mid <= end <= |s| && |x| == mid - at
    ensures s[at..end] == x + y <==> s[at..mid] == x && s[mid..end] == y
  {
    assert s[at..end] == s[at..mid] + s[mid..end];
    if s[at..end] == x + y {
      assert s[at..mid] == (x + y)[..|x|] && s[mid..end] == (x + y)[|x|..];
    }
  }

  lemma {:induction false} LaidIff(s: Bytes, at: nat, fields: seq<Field>, end: nat)
    requires AllValid(fields) && at <= end <= |s|
    ensures Laid(s, at, fields, end) <==> s[at..end] == Pushes(fields)
    decreases fields
  {
    if fields == [] {
    } else {
      var f, fs := fields[0], fields[1..];
      var mid := SpanOf(at, f).end;
      assert f in fields && |f.Bytes()| == mid - at;
      if mid <= end {
        FieldAtIff(s, at, f);
        LaidIff(s, mid, fs, end);
        SlicesJoin(s, at, mid, end, f.Bytes(), Pushes(fs));
      } else if Laid(s, mid, fs, end) {
        LaidOrdered(s, mid, fs, end);
      }
    }
  }

  /** op, the fields, the two drop bytes and rest make up s, with no gap and no overlap. */
  ghost predicate Partition(s: Bytes, op: byte, fields: seq<Field>, drops: Bytes, rest: Bytes) {
    var end := |s| - |rest| - 2;
    1 <= end && s[0] == op && Laid(s, 1, fields, end) && s[end..end + 2] == drops && s[end + 2..] == rest
  }

  lemma PartitionIff(s: Bytes, op: byte, fields: seq<Field>, drops: Bytes, rest: Bytes)
    requires AllValid(fields) && |drops| == 2
    ensures Partition(s, op, fields, drops, rest) <==> s == Script(op, fields, drops, rest)
  {
    var end := |s| - |rest| - 2;
    if 1 <= end {
      LaidIff(s, 1, fields, end);
      Cuts(s, end);
      if s == Script(op, fields, drops, rest) {
        ScriptCuts(op, fields, drops, rest);
      }
    }
  }

  lemma Cuts(s: Bytes, end: nat)
    requires 1 <= end && end + 2 <= |s|
    ensures s == [s[0]] + s[1..end] + s[end..end + 2] + s[end + 2..]
  {
  }

  lemma ScriptCuts(op: byte, fields: seq<Field>, drops: Bytes, rest: Bytes)
    requires AllValid(fields) && |drops| == 2
    ensures var t := Script(op, fields, drops, rest); var end := |t| - |rest| - 2;
            1 <= end && t[0] == op && t[1..end] == Pushes(fields) && t[end..end + 2] == drops && t[end + 2..] == rest
  {
  }

  /** The tokenizer accepts exactly the scripts that readable fields make up. */
  lemma TokensIff(s: Bytes, op: byte, fields: seq<Field>, drops: Bytes, rest: Bytes)
    requires Plain(op) && |drops| == 2 && Plain(drops[0]) && Plain(drops[1])
    ensures Tokenize(s, |fields| + 3) == Split(TokensOf(op, fields, drops), rest) <==>
            AllRead(fields) && Partition(s, op, fields, drops, rest)
  {
    TokenizeScript(s, op, fields, drops, rest);
    if AllRead(fields) {
      PartitionIff(s, op, fields, drops, rest);
    }
  }

  ghost predicate Partition2(s: Bytes, op: byte, a: Field, b: Field, drops: Bytes, rest: Bytes) {
    var end := SpanOf(SpanOf(1, a).end, b).end;
    && FieldAt(s, 1, a) && FieldAt(s, SpanOf(1, a).end, b)
    && |s| == end + 2 + |rest| && s[0] == op && s[end..end + 2] == drops && s[end + 2..] == rest
  }

  ghost predicate Partition3(s: Bytes, op: byte, a: Field, b: Field, c: Field, drops: Bytes, rest: Bytes) {
    var mid := SpanOf(SpanOf(1, a).end, b).end;
    var end := SpanOf(mid, c).end;
    && FieldAt(s, 1, a) && FieldAt(s, SpanOf(1, a).end, b) && FieldAt(s, mid, c)
    && |s| == end + 2 + |rest| && s[0] == op && s[end..end + 2] == drops && s[end + 2..] == rest
  }

  lemma LaidOne(s: Bytes, at: nat, a: Field, end: nat)
    ensures Laid(s, at, [a], end) <==> FieldAt(s, at, a) && SpanOf(at, a).end == end
  {
    assert [a][1..] == [];
  }

  lemma LaidTwo(s: Bytes, at: nat, a: Field, b: Field, end: nat)
    ensures Laid(s, at, [a, b], end) <==>
            FieldAt(s, at, a) && FieldAt(s, SpanOf(at, a).end, b) && SpanOf(SpanOf(at, a).end, b).end == end
  {
    assert [a, b][1..] == [b];
    LaidOne(s, SpanOf(at, a).end, b, end);
  }

  lemma Partition2Iff(s: Bytes, op: byte, a: Field, b: Field, drops: Bytes, rest: Bytes)
    ensures Partition2(s, op, a, b, drops, rest) <==> Partition(s, op, [a, b], drops, rest)
  {
    var end := |s| - |rest| - 2;
    if 1 <= end {
      LaidTwo(s, 1, a, b, end);
    }
  }

  lemma Partition3Iff(s: Bytes, op: byte, a: Field, b: Field, c: Field, drops: Bytes, rest: Bytes)
    ensures Partition3(s, op, a, b, c, drops, rest) <==> Partition(s, op, [a, b, c], drops, rest)
  {
    var end := |s| - |rest| - 2;
    if 1 <= end {
      assert [a, b, c][1..] == [b, c];
      LaidTwo(s, SpanOf(1, a).end, b, c, end);
    }
  }

  lemma Tokens2Iff(s: Bytes, op: byte, a: Field, b: Field, drops: Bytes, rest: Bytes)
    requires Plain(op) && |drops| == 2 && Plain(drops[0]) && Plain(drops[1])
    ensures Tokenize(s, 5) == Split(TokensOf(op, [a, b], drops), rest) <==>
            a.Reads() && b.Reads() && Partition2(s, op, a, b, drops, rest)
  {
    TokensIff(s, op, [a, b], drops, rest);
    Partition2Iff(s, op, a, b, drops, rest);
    assert a in [a, b] && b in [a, b];
    assert a.Reads() && b.Reads() ==> AllRead([a, b]);
  }

  lemma Tokens3Iff(s: Bytes, op: byte, a: Field, b: Field, c: Field, drops: Bytes, rest: Bytes)
    requires Plain(op) && |drops| == 2 && Plain(drops[0]) && Plain(drops[1])
    ensures Tokenize(s, 6) == Split(TokensOf(op, [a, b, c], drops), rest) <==>
            a.Reads() && b.Reads() && c.Reads() && Partition3(s, op, a, b, c, drops, rest)
  {
    TokensIff(s, op, [a, b, c], drops, rest);
    Partition3Iff(s, op, a, b, c, drops, rest);
    assert a in [a, b, c] && b in [a, b, c] && c in [a, b, c];
    assert a.Reads() && b.Reads() && c.Reads() ==> AllRead([a, b, c]);
  }

  lemma ValueSpanFinds(s: Bytes, at: nat, f: Field)
    requires FieldAt(s, at, f) && f.IsValue()
    ensures ValueSpan(s, at) == Ok(SpanOf(at, f)) && (f.Reads() <==> s[at] < 0x4f)
    ensures s[at] == OP_2DROP <==> f.LooksBare()
  {
    var h := s[at..SpanOf(at, f).start];
    HeaderOpcode(f.form, |f.data|);
    assert s[at] == h[0];
    match f.form
    case Direct =>
    case Data1 => assert s[at + 1] == h[1];
    case Data2 => SubSlice(s, at, at + 3, 1, 3);
    case Data4 => SubSlice(s, at, at + 5, 1, 5);
  }

  lemma ValueSpanSound(s: Bytes, at: nat, v: Span) returns (f: Field)
    requires ValueSpan(s, at) == Ok(v)
    ensures FieldAt(s, at, f) && SpanOf(at, f) == v && f.IsValue() && f.data == s[v.start..v.end]
    ensures s[at] == OP_PUSHDATA1 || s[at] < OP_PUSHDATA1 ==> f.IsName()
    ensures f.Reads() <==> s[at] < 0x4f
  {
    var form := if s[at] == OP_PUSHDATA1 then Data1 else if s[at] == OP_PUSHDATA2 then Data2
    else if s[at] == OP_PUSHDATA4 then Data4 else Direct;
    f := Field(form, s[v.start..v.end]);
    match form {
      case Direct =>
      case Data1 =>
      case Data2 => SubSlice(s, at, at + 3, 1, 3);
      case Data4 => SubSlice(s, at, at + 5, 1, 5);
    }
    HeaderIff(form, s[at..v.start], |f.data|);
  }

  lemma NameSpanFinds(s: Bytes, f: Field)
    requires FieldAt(s, 1, f) && f.IsName()
    ensures NameSpan(s) == Ok(SpanOf(1, f))
  {
    ValueSpanFinds(s, 1, f);
    assert s[1] == s[1..SpanOf(1, f).start][0];
  }

  lemma NameSpanSound(s: Bytes, v: Span) returns (f: Field)
    requires NameSpan(s) == Ok(v)
    ensures FieldAt(s, 1, f) && SpanOf(1, f) == v && f.IsName() && f.data == s[v.start..v.end]
  {
    f := ValueSpanSound(s, 1, v);
  }

  lemma IdSpanFinds(s: Bytes, at: nat, f: Field)
    requires FieldAt(s, at, f) && f.form.Direct?
    ensures IdSpan(s, at) == Ok(SpanOf(at, f)) && (f.Reads() <==> s[at] < 0x4c)
  {
    assert s[at] == s[at..SpanOf(at, f).start][0];
  }

  lemma IdSpanSound(s: Bytes, at: nat, v: Span) returns (f: Field)
    requires IdSpan(s, at) == Ok(v)
    ensures FieldAt(s, at, f) && SpanOf(at, f) == v && f.form.Direct? && f.data == s[v.start..v.end]
  {
    f := Field(Direct, s[v.start..v.end]);
    assert s[at..v.start] == [s[at]] == Header(Direct, |f.data|);
  }

  /** The two bytes directly in front of the public key script. */
  predicate DropsBefore(s: Bytes, pubKeyScript: Bytes, drops: Bytes) {
    var at := |s| - |pubKeyScript| - 2;
    0 <= at && s[at..at + 2] == drops
  }

  // ---- claim names ----

  ghost predicate NameLayout(s: Bytes, c: NameClaim, name: Field, value: Field, drops: Bytes) {
    && name.IsName() && value.IsValue() && |drops| == 2
    && name.data == c.name && value.data == c.value
    && s != [] && Partition2(s, s[0], name, value, drops, c.pubKeyScript)
  }

  lemma NameParseFinds(s: Bytes, c: NameClaim, name: Field, value: Field, drops: Bytes)
    requires NameLayout(s, c, name, value, drops)
    ensures ParseClaimName(s) == Ok(c) && DropsBefore(s, c.pubKeyScript, drops)
    ensures value.Reads() <==> s[NameSpan(s).value.end] < 0x4f
  {
    NameSpanFinds(s, name);
    ValueSpanFinds(s, SpanOf(1, name).end, value);
  }

  lemma NameParseSound(s: Bytes, c: NameClaim) returns (name: Field, value: Field, drops: Bytes)
    requires ParseClaimName(s) == Ok(c)
    ensures NameLayout(s, c, name, value, drops)
  {
    var n := NameSpan(s).value;
    var v := ValueSpan(s, n.end).value;
    name := NameSpanSound(s, n);
    value := ValueSpanSound(s, n.end, v);
    drops := s[v.end..v.end + 2];
  }

  /** A script parses to c exactly when it is one byte, c.name pushed, c.value pushed, two bytes and c.pubKeyScript. */
  lemma NameParseIff(s: Bytes, c: NameClaim)
    ensures ParseClaimName(s) == Ok(c) <==> exists name, value, drops :: NameLayout(s, c, name, value, drops)
  {
    if ParseClaimName(s) == Ok(c) {
      var name, value, drops := NameParseSound(s, c);
    }
    if name, value, drops :| NameLayout(s, c, name, value, drops) {
      NameParseFinds(s, c, name, value, drops);
    }
  }

  /** The script splits into the tokens of a claim of c, with a name form the parser knows. */
  ghost predicate NameTokens(s: Bytes, c: NameClaim, nf: Form, vf: Form) {
    && (nf.Direct? || nf.Data1?)
    && Tokenize(s, 5) == Split(TokensOf(OP_CLAIM_NAME, [Field(nf, c.name), Field(vf, c.value)], [OP_2DROP, OP_DROP]),
                               c.pubKeyScript)
  }

  /** ParseClaimName refines the tokenizer: up to what it does not check, both accept the same scripts with the
      same fields. */
  lemma NameRefinesTokens(s: Bytes, c: NameClaim)
    ensures (exists nf, vf :: NameTokens(s, c, nf, vf)) <==>
            && ParseClaimName(s) == Ok(c) && s[0] == OP_CLAIM_NAME
            && s[NameSpan(s).value.end] < 0x4f
            && DropsBefore(s, c.pubKeyScript, [OP_2DROP, OP_DROP])
  {
    if nf, vf :| NameTokens(s, c, nf, vf) {
      var name, value := Field(nf, c.name), Field(vf, c.value);
      Tokens2Iff(s, OP_CLAIM_NAME, name, value, [OP_2DROP, OP_DROP], c.pubKeyScript);
      NameParseFinds(s, c, name, value, [OP_2DROP, OP_DROP]);
    }
    if && ParseClaimName(s) == Ok(c) && s[0] == OP_CLAIM_NAME && s[NameSpan(s).value.end] < 0x4f
       && DropsBefore(s, c.pubKeyScript, [OP_2DROP, OP_DROP])
    {
      var name, value, drops := NameParseSound(s, c);
      NameParseFinds(s, c, name, value, drops);
      Tokens2Iff(s, OP_CLAIM_NAME, name, value, drops, c.pubKeyScript);
      assert NameTokens(s, c, name.form, value.form);
    }
  }

  // ---- supports and updates ----

  ghost predicate RefLayout(s: Bytes, c: ClaimRef, name: Field, id: Field, value: Field, drops: Bytes) {
    && name.IsName() && id.form.Direct? && value.IsValue() && |drops| == 2
    && name.data == c.name && id.data == c.pushedId && value.data == c.value
    && s != [] && Partition3(s, s[0], name, id, value, drops, c.pubKeyScript)
  }

  ghost predicate BareLayout(s: Bytes, c: ClaimRef, name: Field, id: Field, drops: Bytes) {
    && name.IsName() && id.form.Direct? && |drops| == 2 && drops[0] == OP_2DROP
    && name.data == c.name && id.data == c.pushedId && c.value == []
    && s != [] && Partition2(s, s[0], name, id, drops, c.pubKeyScript)
  }

  ghost predicate IsBare(s: Bytes, c: ClaimRef) {
    exists name, id, drops :: BareLayout(s, c, name, id, drops)
  }

  ghost predicate HasValue(s: Bytes, c: ClaimRef) {
    exists name, id, value, drops :: RefLayout(s, c, name, id, value, drops) && !value.LooksBare()
  }

  /** The offset of the byte after the claim id. */
  function AfterId(s: Bytes): Outcome<nat> {
    match NameSpan(s)
    case Err => Err
    case Panic => Panic
    case Ok(n) => match IdSpan(s, n.end) { case Ok(i) => Ok(i.end) case _ => Panic }
  }

  lemma RefFinds(s: Bytes, c: ClaimRef, name: Field, id: Field, value: Field, drops: Bytes)
    requires RefLayout(s, c, name, id, value, drops)
    ensures ParseClaimUpdate(s) == Ok(c) && DropsBefore(s, c.pubKeyScript, drops)
    ensures AfterId(s).Ok? && AfterId(s).value < |s| && (s[AfterId(s).value] == OP_2DROP <==> value.LooksBare())
    ensures id.Reads() <==> s[NameSpan(s).value.end] < 0x4c
    ensures value.Reads() <==> s[AfterId(s).value] < 0x4f
  {
    NameSpanFinds(s, name);
    IdSpanFinds(s, SpanOf(1, name).end, id);
    ValueSpanFinds(s, SpanOf(SpanOf(1, name).end, id).end, value);
  }

  lemma BareFinds(s: Bytes, c: ClaimRef, name: Field, id: Field, drops: Bytes)
    requires BareLayout(s, c, name, id, drops)
    ensures ParseClaimSupport(s) == Ok(c) && DropsBefore(s, c.pubKeyScript, drops)
    ensures AfterId(s).Ok? && AfterId(s).value < |s| && s[AfterId(s).value] == OP_2DROP
    ensures id.Reads() <==> s[NameSpan(s).value.end] < 0x4c
  {
    NameSpanFinds(s, name);
    IdSpanFinds(s, SpanOf(1, name).end, id);
    var end := SpanOf(SpanOf(1, name).end, id).end;
    assert s[end] == s[end..end + 2][0];
  }

  lemma RefSound(s: Bytes, c: ClaimRef) returns (name: Field, id: Field, value: Field, drops: Bytes)
    requires ParseClaimUpdate(s) == Ok(c)
    ensures RefLayout(s, c, name, id, value, drops)
  {
    var n := NameSpan(s).value;
    var i := IdSpan(s, n.end).value;
    var v := ValueSpan(s, i.end).value;
    name := NameSpanSound(s, n);
    id := IdSpanSound(s, n.end, i);
    value := ValueSpanSound(s, i.end, v);
    drops := s[v.end..v.end + 2];
  }

  lemma BareSound(s: Bytes, c: ClaimRef) returns (name: Field, id: Field, drops: Bytes)
    requires ParseClaimSupport(s) == Ok(c) && s[AfterId(s).value] == OP_2DROP
    ensures BareLayout(s, c, name, id, drops)
  {
    var n := NameSpan(s).value;
    var i := IdSpan(s, n.end).value;
    name := NameSpanSound(s, n);
    id := IdSpanSound(s, n.end, i);
    drops := s[i.end..i.end + 2];
    assert s[i.end] == drops[0];
  }

  /** Away from OP_2DROP after the claim id, supports and updates are parsed alike. */
  lemma SupportIsUpdate(s: Bytes, c: ClaimRef)
    requires AfterId(s).Ok? && AfterId(s).value < |s| && s[AfterId(s).value] != OP_2DROP
    ensures ParseClaimSupport(s) == Ok(c) <==> ParseClaimUpdate(s) == Ok(c)
  {
  }

  /** An update parses to c exactly when the script is made up of the name, claim id and value of c. */
  lemma UpdateParseIff(s: Bytes, c: ClaimRef)
    ensures ParseClaimUpdate(s) == Ok(c) <==> exists name, id, value, drops :: RefLayout(s, c, name, id, value, drops)
  {
    if ParseClaimUpdate(s) == Ok(c) {
      var name, id, value, drops := RefSound(s, c);
    }
    if name, id, value, drops :| RefLayout(s, c, name, id, value, drops) {
      RefFinds(s, c, name, id, value, drops);
    }
  }

  /** A support parses to c exactly when it is made up without a value, or with a value that does not look bare. */
  lemma SupportParseIff(s: Bytes, c: ClaimRef)
    ensures ParseClaimSupport(s) == Ok(c) <==> IsBare(s, c) || HasValue(s, c)
  {
    if ParseClaimSupport(s) == Ok(c) {
      if s[AfterId(s).value] == OP_2DROP {
        var name, id, drops := BareSound(s, c);
      } else {
        SupportIsUpdate(s, c);
        var name, id, value, drops := RefSound(s, c);
        RefFinds(s, c, name, id, value, drops);
      }
    }
    if name, id, drops :| BareLayout(s, c, name, id, drops) {
      BareFinds(s, c, name, id, drops);
    }
    if name, id, value, drops :| RefLayout(s, c, name, id, value, drops) && !value.LooksBare() {
      RefFinds(s, c, name, id, value, drops);
      SupportIsUpdate(s, c);
    }
  }

  ghost predicate RefTokens(s: Bytes, op: byte, c: ClaimRef, nf: Form, id: Bytes, vf: Form) {
    && (nf.Direct? || nf.Data1?) && id == c.pushedId
    && Tokenize(s, 6) == Split(TokensOf(op, [Field(nf, c.name), Field(Direct, id), Field(vf, c.value)],
                                        [OP_2DROP, OP_2DROP]), c.pubKeyScript)
  }

  ghost predicate BareTokens(s: Bytes, c: ClaimRef, nf: Form, id: Bytes) {
    && (nf.Direct? || nf.Data1?) && id == c.pushedId && c.value == []
    && Tokenize(s, 5) == Split(TokensOf(OP_SUPPORT_CLAIM, [Field(nf, c.name), Field(Direct, id)],
                                        [OP_2DROP, OP_DROP]), c.pubKeyScript)
  }

  /** What the update parser does not check itself: its length bytes are push opcodes and two drops follow. */
  predicate Unchecked(s: Bytes, c: ClaimRef)
    requires AfterId(s).Ok? && AfterId(s).value < |s|
  {
    && s[NameSpan(s).value.end] < 0x4c && s[AfterId(s).value] < 0x4f
    && DropsBefore(s, c.pubKeyScript, [OP_2DROP, OP_2DROP])
  }

  lemma RefRefines(s: Bytes, op: byte, c: ClaimRef)
    requires Plain(op)
    ensures (exists nf, id, vf :: RefTokens(s, op, c, nf, id, vf)) <==>
            ParseClaimUpdate(s) == Ok(c) && s[0] == op && Unchecked(s, c)
  {
    if nf, id, vf :| RefTokens(s, op, c, nf, id, vf) {
      var name, i, value := Field(nf, c.name), Field(Direct, id), Field(vf, c.value);
      Tokens3Iff(s, op, name, i, value, [OP_2DROP, OP_2DROP], c.pubKeyScript);
      RefFinds(s, c, name, i, value, [OP_2DROP, OP_2DROP]);
    }
    if ParseClaimUpdate(s) == Ok(c) && s[0] == op && Unchecked(s, c) {
      var name, id, value, drops := RefSound(s, c);
      RefFinds(s, c, name, id, value, drops);
      Tokens3Iff(s, op, name, id, value, drops, c.pubKeyScript);
      assert RefTokens(s, op, c, name.form, id.data, value.form);
    }
  }

  /** ParseClaimUpdate refines the tokenizer. */
  lemma UpdateRefinesTokens(s: Bytes, c: ClaimRef)
    ensures (exists nf, id, vf :: RefTokens(s, OP_UPDATE_CLAIM, c, nf, id, vf)) <==>
            ParseClaimUpdate(s) == Ok(c) && s[0] == OP_UPDATE_CLAIM && Unchecked(s, c)
  {
    RefRefines(s, OP_UPDATE_CLAIM, c);
  }

  /** ParseClaimSupport refines the tokenizer on both layouts: the byte after the claim id tells them apart. */
  lemma SupportRefinesTokens(s: Bytes, c: ClaimRef)
    ensures (exists nf, id, vf :: RefTokens(s, OP_SUPPORT_CLAIM, c, nf, id, vf)) <==>
            && ParseClaimSupport(s) == Ok(c) && s[0] == OP_SUPPORT_CLAIM
            && s[AfterId(s).value] != OP_2DROP && Unchecked(s, c)
    ensures (exists nf, id :: BareTokens(s, c, nf, id)) <==>
            && ParseClaimSupport(s) == Ok(c) && s[0] == OP_SUPPORT_CLAIM
            && s[AfterId(s).value] == OP_2DROP && s[NameSpan(s).value.end] < 0x4c
            && DropsBefore(s, c.pubKeyScript, [OP_2DROP, OP_DROP])
  {
    RefRefines(s, OP_SUPPORT_CLAIM, c);
    if AfterId(s).Ok? && AfterId(s).value < |s| && s[AfterId(s).value] != OP_2DROP {
      SupportIsUpdate(s, c);
    }
    BareRefines(s, c);
  }

  lemma BareRefines(s: Bytes, c: ClaimRef)
    ensures (exists nf, id :: BareTokens(s, c, nf, id)) <==>
            && ParseClaimSupport(s) == Ok(c) && s[0] == OP_SUPPORT_CLAIM
            && s[AfterId(s).value] == OP_2DROP && s[NameSpan(s).value.end] < 0x4c
            && DropsBefore(s, c.pubKeyScript, [OP_2DROP, OP_DROP])
  {
    if nf, id :| BareTokens(s, c, nf, id) {
      var name, i := Field(nf, c.name), Field(Direct, id);
      Tokens2Iff(s, OP_SUPPORT_CLAIM, name, i, [OP_2DROP, OP_DROP], c.pubKeyScript);
      BareFinds(s, c, name, i, [OP_2DROP, OP_DROP]);
    }
    if && ParseClaimSupport(s) == Ok(c) && s[0] == OP_SUPPORT_CLAIM
       && s[AfterId(s).value] == OP_2DROP && s[NameSpan(s).value.end] < 0x4c
       && DropsBefore(s, c.pubKeyScript, [OP_2DROP, OP_DROP])
    {
      var name, id, drops := BareSound(s, c);
      BareFinds(s, c, name, id, drops);
      Tokens2Iff(s, OP_SUPPORT_CLAIM, name, id, drops, c.pubKeyScript);
      assert BareTokens(s, c, name.form, id.data);
    }
  }
}
