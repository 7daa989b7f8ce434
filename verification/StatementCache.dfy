/** The statement caches of model/block.go and the keys that model/boil_types.go makes for them. */
module StatementCache {
  import opened Collections

  type Column = string

  /** boil.Columns: a kind and a list of column names. */
  datatype Columns = Columns(kind: nat, cols: seq<Column>)

  /** insertCache and updateCache; an update leaves the second and the last part empty. */
  datatype Statement = Statement(query: string, retQuery: string, valueMapping: seq<nat>, retMapping: seq<nat>)

  // ---- keys ----

  function Itoa(n: nat): string {
    if n < 10 then ['0' + n as char] else Itoa(n / 10) + ['0' + (n % 10) as char]
  }

  function Concat(cols: seq<Column>): string
    decreases cols
  {
    if cols == [] then "" else cols[0] + Concat(cols[1..])
  }

  function Part(c: Columns): string {
    Itoa(c.kind) + Concat(c.cols)
  }

  function Key(c: Columns, nzDefaults: seq<Column>): string {
    Part(c) + if nzDefaults == [] then "" else "." + Concat(nzDefaults)
  }

  function UpsertKey(update: Columns, insert: Columns, nzDefaults: seq<Column>, nzUniques: seq<Column>): string {
    Part(update) + ("." + (Part(insert) + ("." + (Concat(nzDefaults) + ("." + Concat(nzUniques))))))
  }

  lemma {:induction false} ConcatSnoc(cols: seq<Column>, c: Column)
    ensures Concat(cols + [c]) == Concat(cols) + c
    decreases cols
  {
    if cols == [] {
      assert Concat([c]) == c + Concat([][..]);
    } else {
      assert (cols + [c])[1..] == cols[1..] + [c];
      ConcatSnoc(cols[1..], c);
    }
  }

  /** The loop that writes column names to the buffer. */
  method WriteAll(buf0: string, cols: seq<Column>) returns (buf: string)
    ensures buf == buf0 + Concat(cols)
  {
    buf := buf0;
    for k := 0 to |cols|
      invariant buf == buf0 + Concat(cols[..k])
    {
      ConcatSnoc(cols[..k], cols[k]);
      assert cols[..k + 1] == cols[..k] + [cols[k]];
      buf := buf + cols[k];
    }
    assert cols[..|cols|] == cols;
  }

  method MakeCacheKey(c: Columns, nzDefaults: seq<Column>) returns (key: string)
    ensures key == Key(c, nzDefaults)
  {
    key := WriteAll(Itoa(c.kind), c.cols);
    if |nzDefaults| != 0 {
      key := key + ".";
    }
    key := WriteAll(key, nzDefaults);
  }

  method MakeUpsertKey(update: Columns, insert: Columns, nzDefaults: seq<Column>, nzUniques: seq<Column>)
    returns (key: string)
    ensures key == UpsertKey(update, insert, nzDefaults, nzUniques)
  {
    key := WriteAll(Itoa(update.kind), update.cols);
    key := WriteAll(key + "." + Itoa(insert.kind), insert.cols);
    key := WriteAll(key + ".", nzDefaults);
    key := WriteAll(key + ".", nzUniques);
  }

  // ---- when keys can be read back ----

  predicate Digit(c: char) { '0' <= c <= '9' }

  /** No name is empty, starts with a digit or contains a dot. */
  predicate Plain(alphabet: set<Column>) {
    forall w :: w in alphabet ==> w != "" && !Digit(w[0]) && '.' !in w
  }

  predicate Over(cols: seq<Column>, alphabet: set<Column>) {
    forall w :: w in cols ==> w in alphabet
  }

  /** Lists of names can be read back from their concatenation. */
  ghost predicate Decodable(alphabet: set<Column>) {
    forall a, b :: Over(a, alphabet) && Over(b, alphabet) && Concat(a) == Concat(b) ==> a == b
  }

  /** No name starts with an underscore, and a name that extends another continues with one. */
  predicate Underscored(alphabet: set<Column>) {
    && (forall w :: w in alphabet ==> w != "" && w[0] != '_')
    && (forall v, w :: v in alphabet && w in alphabet && v < w ==> w[|v|] == '_')
  }

  lemma ConcatStart(cols: seq<Column>, alphabet: set<Column>)
    requires Over(cols, alphabet) && forall w :: w in alphabet ==> w != ""
    ensures Concat(cols) == "" <==> cols == []
    ensures cols != [] ==> cols[0] in alphabet && Concat(cols)[0] == cols[0][0]
  {
    if cols != [] {
      assert cols[0] in cols;
    }
  }

  lemma {:induction false} DecodesPair(alphabet: set<Column>, a: seq<Column>, b: seq<Column>)
    requires Underscored(alphabet) && Over(a, alphabet) && Over(b, alphabet) && Concat(a) == Concat(b)
    ensures a == b
    decreases a
  {
    ConcatStart(a, alphabet);
    ConcatStart(b, alphabet);
    if a == [] {
    } else {
      SameHead(alphabet, a, b);
      assert a == [a[0]] + a[1..] && b == [b[0]] + b[1..];
      assert Concat(a)[|a[0]|..] == Concat(a[1..]) && Concat(b)[|b[0]|..] == Concat(b[1..]);
      DecodesPair(alphabet, a[1..], b[1..]);
    }
  }

  lemma SameHead(alphabet: set<Column>, a: seq<Column>, b: seq<Column>)
    requires Underscored(alphabet) && Over(a, alphabet) && Over(b, alphabet) && a != [] && b != []
             && Concat(a) == Concat(b)
    ensures a[0] == b[0]
  {
    assert a[0] in a && b[0] in b;
    if |a[0]| < |b[0]| {
      NotShorter(alphabet, a, b);
    } else if |b[0]| < |a[0]| {
      NotShorter(alphabet, b, a);
    } else {
      assert a[0] == Concat(a)[..|a[0]|] && b[0] == Concat(b)[..|b[0]|];
    }
  }

  /** After the first name comes the start of another, or nothing. */
  lemma AfterHead(alphabet: set<Column>, a: seq<Column>)
    requires Underscored(alphabet) && Over(a, alphabet) && a != [] && |Concat(a)| > |a[0]|
    ensures Concat(a)[|a[0]|] != '_'
  {
    assert Over(a[1..], alphabet);
    ConcatStart(a[1..], alphabet);
    assert Concat(a)[|a[0]|] == Concat(a[1..])[0];
  }

  lemma NotShorter(alphabet: set<Column>, a: seq<Column>, b: seq<Column>)
    requires Underscored(alphabet) && Over(a, alphabet) && Over(b, alphabet) && a != [] && b != []
             && Concat(a) == Concat(b)
    ensures |a[0]| >= |b[0]|
  {
    var n := |a[0]|;
    assert a[0] in a && b[0] in b;
    if n < |b[0]| {
      assert a[0] == Concat(a)[..n] == b[0][..n];
      assert Concat(b)[n] == b[0][n];
      AfterHead(alphabet, a);
    }
  }

  lemma UnderscoredDecodes(alphabet: set<Column>)
    requires Underscored(alphabet)
    ensures Decodable(alphabet)
  {
    forall a, b | Over(a, alphabet) && Over(b, alphabet) && Concat(a) == Concat(b)
      ensures a == b
    {
      DecodesPair(alphabet, a, b);
    }
  }

  /** A string splits in one way only into characters with a property and a rest that does not start with one. */
  lemma {:induction false} SplitsOnce(p: char -> bool, a: string, x: string, b: string, y: string)
    requires (forall c :: c in a || c in b ==> p(c)) && (x == "" || !p(x[0])) && (y == "" || !p(y[0]))
    requires a + x == b + y
    ensures a == b && x == y
    decreases a
  {
    assert a != "" ==> a[0] in a;
    assert b != "" ==> b[0] in b;
    assert a != "" ==> (a + x)[0] == a[0];
    assert b != "" ==> (b + y)[0] == b[0];
    assert (a == "" ==> a + x == x) && (b == "" ==> b + y == y);
    if a != "" && b != "" {
      assert (a + x)[0] == (b + y)[0];
      assert (a + x)[1..] == a[1..] + x && (b + y)[1..] == b[1..] + y;
      SplitsOnce(p, a[1..], x, b[1..], y);
      assert a == [a[0]] + a[1..] && b == [b[0]] + b[1..];
    }
  }

  lemma {:induction false} ItoaDigits(n: nat)
    ensures Itoa(n) != "" && forall c :: c in Itoa(n) ==> Digit(c)
  {
    if n >= 10 {
      ItoaDigits(n / 10);
    }
  }

  lemma {:induction false} ItoaInjective(m: nat, n: nat)
    requires Itoa(m) == Itoa(n)
    ensures m == n
  {
    ItoaDigits(m / 10);
    ItoaDigits(n / 10);
    var s := Itoa(m);
    if m >= 10 && n >= 10 {
      assert s[..|s| - 1] == Itoa(m / 10) && s[..|s| - 1] == Itoa(n / 10);
      ItoaInjective(m / 10, n / 10);
      assert s[|s| - 1] == '0' + (m % 10) as char == '0' + (n % 10) as char;
    } else if m < 10 && n < 10 {
      assert s[0] == '0' + m as char == '0' + n as char;
    }
  }

  lemma {:induction false} ConcatPlain(cols: seq<Column>, alphabet: set<Column>)
    requires Plain(alphabet) && Over(cols, alphabet)
    ensures '.' !in Concat(cols) && (Concat(cols) != "" ==> !Digit(Concat(cols)[0]))
    decreases cols
  {
    if cols == [] {
    } else {
      assert cols[0] in cols;
      ConcatPlain(cols[1..], alphabet);
    }
  }

  /** A part of a key, up to a dot or the end, determines kind and columns. */
  lemma PartSplits(alphabet: set<Column>, c: Columns, x: string, d: Columns, y: string)
    requires Plain(alphabet) && Decodable(alphabet) && Over(c.cols, alphabet) && Over(d.cols, alphabet)
    requires (x == "" || x[0] == '.') && (y == "" || y[0] == '.')
    requires Part(c) + x == Part(d) + y
    ensures c == d && x == y
  {
    PartKind(alphabet, c, x, d, y);
    ListSplits(alphabet, c.cols, x, d.cols, y);
  }

  lemma PartKind(alphabet: set<Column>, c: Columns, x: string, d: Columns, y: string)
    requires Plain(alphabet) && Over(c.cols, alphabet) && Over(d.cols, alphabet)
    requires (x == "" || x[0] == '.') && (y == "" || y[0] == '.')
    requires Part(c) + x == Part(d) + y
    ensures c.kind == d.kind && Concat(c.cols) + x == Concat(d.cols) + y
  {
    RestOfPart(alphabet, c, x);
    RestOfPart(alphabet, d, y);
    SplitsOnce(Digit, Itoa(c.kind), Concat(c.cols) + x, Itoa(d.kind), Concat(d.cols) + y);
    ItoaInjective(c.kind, d.kind);
  }

  lemma RestOfPart(alphabet: set<Column>, c: Columns, x: string)
    requires Plain(alphabet) && Over(c.cols, alphabet) && (x == "" || x[0] == '.')
    ensures var rest := Concat(c.cols) + x; Part(c) + x == Itoa(c.kind) + rest && (rest == "" || !Digit(rest[0]))
    ensures forall ch :: ch in Itoa(c.kind) ==> Digit(ch)
  {
    ConcatPlain(c.cols, alphabet);
    ItoaDigits(c.kind);
  }

  lemma ListSplits(alphabet: set<Column>, a: seq<Column>, x: string, b: seq<Column>, y: string)
    requires Plain(alphabet) && Decodable(alphabet) && Over(a, alphabet) && Over(b, alphabet)
    requires (x == "" || x[0] == '.') && (y == "" || y[0] == '.')
    requires Concat(a) + x == Concat(b) + y
    ensures a == b && x == y
  {
    ConcatPlain(a, alphabet);
    ConcatPlain(b, alphabet);
    SplitsOnce(ch => ch != '.', Concat(a), x, Concat(b), y);
  }

  /** Two inserts share a key only if they agree on everything the statement is built from. */
  lemma KeyInjective(alphabet: set<Column>, c: Columns, nz: seq<Column>, d: Columns, nz': seq<Column>)
    requires Plain(alphabet) && Decodable(alphabet)
    requires Over(c.cols, alphabet) && Over(nz, alphabet) && Over(d.cols, alphabet) && Over(nz', alphabet)
    requires Key(c, nz) == Key(d, nz')
    ensures c == d && nz == nz'
  {
    var x := if nz == [] then "" else "." + Concat(nz);
    var y := if nz' == [] then "" else "." + Concat(nz');
    PartSplits(alphabet, c, x, d, y);
    if nz != [] {
      assert x[1..] == Concat(nz) && y[1..] == Concat(nz');
      ListSplits(alphabet, nz, "", nz', "");
    }
  }

  /** The same for upserts. */
  lemma UpsertKeyInjective(alphabet: set<Column>, u: Columns, i: Columns, nd: seq<Column>, nu: seq<Column>,
                           u': Columns, i': Columns, nd': seq<Column>, nu': seq<Column>)
    requires Plain(alphabet) && Decodable(alphabet)
    requires Over(u.cols, alphabet) && Over(i.cols, alphabet) && Over(nd, alphabet) && Over(nu, alphabet)
    requires Over(u'.cols, alphabet) && Over(i'.cols, alphabet) && Over(nd', alphabet) && Over(nu', alphabet)
    requires UpsertKey(u, i, nd, nu) == UpsertKey(u', i', nd', nu')
    ensures u == u' && i == i' && nd == nd' && nu == nu'
  {
    var z, z' := "." + Concat(nu), "." + Concat(nu');
    var y, y' := "." + (Concat(nd) + z), "." + (Concat(nd') + z');
    var x, x' := "." + (Part(i) + y), "." + (Part(i') + y');
    PartSplits(alphabet, u, x, u', x');
    assert x[1..] == Part(i) + y && x'[1..] == Part(i') + y';
    PartSplits(alphabet, i, y, i', y');
    assert y[1..] == Concat(nd) + z && y'[1..] == Concat(nd') + z';
    ListSplits(alphabet, nd, z, nd', z');
    assert z[1..] == Concat(nu) && z'[1..] == Concat(nu');
    ListSplits(alphabet, nu, "", nu', "");
  }

  // ---- the caches ----

  /** How a statement is built when it is not cached; None is one of the errors of doing so. */
  datatype Builder = Builder(
    insert: (Columns, seq<Column>) -> Option<Statement>,
    update: Columns -> Option<Statement>,
    upsert: (Columns, Columns, seq<Column>, seq<Column>) -> Option<Statement>)

  datatype Request =
    | Insert(c: Columns, nzDefaults: seq<Column>)
    | Update(c: Columns)
    | Upsert(update: Columns, insert: Columns, nzDefaults: seq<Column>, nzUniques: seq<Column>)

  datatype Caches = Caches(
    insert: map<string, Statement>,
    update: map<string, Statement>,
    upsert: map<string, Statement>)

  predicate RequestOver(r: Request, alphabet: set<Column>) {
    match r
    case Insert(c, nd) => Over(c.cols, alphabet) && Over(nd, alphabet)
    case Update(c) => Over(c.cols, alphabet)
    case Upsert(u, i, nd, nu) => Over(u.cols, alphabet) && Over(i.cols, alphabet) && Over(nd, alphabet)
                                 && Over(nu, alphabet)
  }

  /** The statement built afresh; an upsert needs a non-zero unique column. */
  function Fresh(b: Builder, r: Request): Option<Statement> {
    match r
    case Insert(c, nd) => b.insert(c, nd)
    case Update(c) => b.update(c)
    case Upsert(u, i, nd, nu) => if nu == [] then None else b.upsert(u, i, nd, nu)
  }

  function KeyOf(r: Request): string {
    match r
    case Insert(c, nd) => Key(c, nd)
    case Update(c) => Key(c, [])
    case Upsert(u, i, nd, nu) => UpsertKey(u, i, nd, nu)
  }

  function CacheOf(s: Caches, r: Request): map<string, Statement> {
    match r
    case Insert(_, _) => s.insert
    case Update(_) => s.update
    case Upsert(_, _, _, _) => s.upsert
  }

  function Put(s: Caches, r: Request, stmt: Statement): Caches {
    match r
    case Insert(_, _) => s.(insert := s.insert[KeyOf(r) := stmt])
    case Update(_) => s.(update := s.update[KeyOf(r) := stmt])
    case Upsert(_, _, _, _) => s.(upsert := s.upsert[KeyOf(r) := stmt])
  }

  /** The statement that is executed, and the caches afterwards; works says whether the database does its part. */
  function Answer(b: Builder, s: Caches, r: Request, works: bool): (Option<Statement>, Caches) {
    if r.Upsert? && r.nzUniques == [] then (None, s)
    else if KeyOf(r) in CacheOf(s, r) then (Some(CacheOf(s, r)[KeyOf(r)]), s)
    else
      var built := Fresh(b, r);
      (built, if built.Some? && works then Put(s, r, built.value) else s)
  }

  class Table {
    var insertCache: map<string, Statement>
    var updateCache: map<string, Statement>
    var upsertCache: map<string, Statement>

    ghost function State(): Caches
      reads this
    {
      Caches(insertCache, updateCache, upsertCache)
    }

    /** Insert; executes says whether the statement, and the query that reads default values back, succeed. */
    method DoInsert(b: Builder, c: Columns, nzDefaults: seq<Column>, executes: Statement -> bool)
      returns (stmt: Option<Statement>, ok: bool)
      modifies this`insertCache
      ensures ok == (stmt.Some? && executes(stmt.value))
      ensures (stmt, State()) == Answer(b, old(State()), Insert(c, nzDefaults), ok)
      ensures !ok ==> State() == old(State())
    {
      var key := MakeCacheKey(c, nzDefaults);
      var cached := key in insertCache;
      stmt := if cached then Some(insertCache[key]) else b.insert(c, nzDefaults);
      if stmt.None? || !executes(stmt.value) {
        return stmt, false;
      }
      if !cached {
        insertCache := insertCache[key := stmt.value];
      }
      ok := true;
    }

    method DoUpdate(b: Builder, c: Columns, executes: Statement -> bool) returns (stmt: Option<Statement>, ok: bool)
      modifies this`updateCache
      ensures ok == (stmt.Some? && executes(stmt.value))
      ensures (stmt, State()) == Answer(b, old(State()), Update(c), ok)
      ensures !ok ==> State() == old(State())
    {
      var key := MakeCacheKey(c, []);
      var cached := key in updateCache;
      stmt := if cached then Some(updateCache[key]) else b.update(c);
      if stmt.None? || !executes(stmt.value) {
        return stmt, false;
      }
      if !cached {
        updateCache := updateCache[key := stmt.value];
      }
      ok := true;
    }

    method DoUpsert(b: Builder, update: Columns, insert: Columns, nzDefaults: seq<Column>, nzUniques: seq<Column>,
                    executes: Statement -> bool)
      returns (stmt: Option<Statement>, ok: bool)
      modifies this`upsertCache
      ensures ok == (stmt.Some? && executes(stmt.value))
      ensures (stmt, State()) == Answer(b, old(State()), Upsert(update, insert, nzDefaults, nzUniques), ok)
      ensures !ok ==> State() == old(State())
      ensures nzUniques == [] ==> stmt.None? && !ok
    {
      if |nzUniques| == 0 {
        return None, false;
      }
      var key := MakeUpsertKey(update, insert, nzDefaults, nzUniques);
      var cached := key in upsertCache;
      stmt := if cached then Some(upsertCache[key]) else b.upsert(update, insert, nzDefaults, nzUniques);
      if stmt.None? || !executes(stmt.value) {
        return stmt, false;
      }
      if !cached {
        upsertCache := upsertCache[key := stmt.value];
      }
      ok := true;
    }
  }

  // ---- transparency ----

  predicate SameKind(r: Request, q: Request) {
    (r.Insert? && q.Insert?) || (r.Update? && q.Update?) || (r.Upsert? && q.Upsert?)
  }

  lemma SameRequest(alphabet: set<Column>, r: Request, q: Request)
    requires Plain(alphabet) && Decodable(alphabet) && RequestOver(r, alphabet) && RequestOver(q, alphabet)
    requires SameKind(r, q) && KeyOf(r) == KeyOf(q)
    ensures r == q
  {
    match r
    case Insert(c, nd) => KeyInjective(alphabet, c, nd, q.c, q.nzDefaults);
    case Update(c) => KeyInjective(alphabet, c, [], q.c, []);
    case Upsert(u, i, nd, nu) => UpsertKeyInjective(alphabet, u, i, nd, nu, q.update, q.insert, q.nzDefaults,
                                                    q.nzUniques);
  }

  /** Each cached statement is the one that would be built. */
  ghost predicate Faithful(b: Builder, alphabet: set<Column>, s: Caches) {
    forall r :: RequestOver(r, alphabet) && KeyOf(r) in CacheOf(s, r) ==>
                  (r.Upsert? && r.nzUniques == []) || Fresh(b, r) == Some(CacheOf(s, r)[KeyOf(r)])
  }

  lemma AnswerIsFresh(b: Builder, alphabet: set<Column>, s: Caches, r: Request, works: bool)
    requires Plain(alphabet) && Decodable(alphabet) && Faithful(b, alphabet, s) && RequestOver(r, alphabet)
    ensures Answer(b, s, r, works).0 == Fresh(b, r)
    ensures Faithful(b, alphabet, Answer(b, s, r, works).1)
  {
    var u := Answer(b, s, r, works).1;
    forall q | RequestOver(q, alphabet) && KeyOf(q) in CacheOf(u, q)
      ensures (q.Upsert? && q.nzUniques == []) || Fresh(b, q) == Some(CacheOf(u, q)[KeyOf(q)])
    {
      if SameKind(q, r) && KeyOf(q) == KeyOf(r) {
        SameRequest(alphabet, q, r);
      }
    }
  }

  /** The statements executed for a list of requests, each with what the database makes of it. */
  function Answers(b: Builder, s: Caches, rs: seq<(Request, bool)>): (r: seq<Option<Statement>>)
    ensures |r| == |rs|
    decreases |rs|
  {
    if rs == [] then []
    else
      var a := Answer(b, s, rs[0].0, rs[0].1);
      [a.0] + Answers(b, a.1, rs[1..])
  }

  /** The statements executed without caches. */
  function Built(b: Builder, rs: seq<(Request, bool)>): (r: seq<Option<Statement>>)
    ensures |r| == |rs|
    decreases |rs|
  {
    if rs == [] then [] else [Fresh(b, rs[0].0)] + Built(b, rs[1..])
  }

  predicate RequestsOver(rs: seq<(Request, bool)>, alphabet: set<Column>) {
    forall r :: r in rs ==> RequestOver(r.0, alphabet)
  }

  lemma {:induction false} AnswersAreBuilt(b: Builder, alphabet: set<Column>, s: Caches, rs: seq<(Request, bool)>)
    requires Plain(alphabet) && Decodable(alphabet) && Faithful(b, alphabet, s) && RequestsOver(rs, alphabet)
    ensures Answers(b, s, rs) == Built(b, rs)
    decreases |rs|
  {
    if rs == [] {
    } else {
      assert rs[0] in rs;
      AnswerIsFresh(b, alphabet, s, rs[0].0, rs[0].1);
      AnswersAreBuilt(b, alphabet, Answer(b, s, rs[0].0, rs[0].1).1, rs[1..]);
    }
  }

  const EMPTY := Caches(map[], map[], map[])

  /** No sequence of calls can tell that statements are cached. */
  ghost predicate Transparent(alphabet: set<Column>) {
    forall b, rs :: RequestsOver(rs, alphabet) ==> Answers(b, EMPTY, rs) == Built(b, rs)
  }

  /** The caches are transparent exactly when concatenated column names can be read back. */
  lemma TransparentIff(alphabet: set<Column>)
    requires Plain(alphabet)
    ensures Transparent(alphabet) <==> Decodable(alphabet)
  {
    if Decodable(alphabet) {
      forall b, rs | RequestsOver(rs, alphabet)
        ensures Answers(b, EMPTY, rs) == Built(b, rs)
      {
        AnswersAreBuilt(b, alphabet, EMPTY, rs);
      }
    }
    if Transparent(alphabet) {
      forall x, y | Over(x, alphabet) && Over(y, alphabet) && Concat(x) == Concat(y)
        ensures x == y
      {
        if x != y {
          StaleStatement(x, y);
        }
      }
    }
  }

  /** A builder that tells the two updates apart. */
  function Telling(x: seq<Column>): Builder {
    Builder((c, nd) => None, (c: Columns) => Some(Statement(if c.cols == x then "x" else "y", "", [], [])),
            (u, i, nd, nu) => None)
  }

  /** Two updates whose columns run together: the second is answered with the statement of the first. */
  lemma StaleStatement(x: seq<Column>, y: seq<Column>)
    requires x != y && Concat(x) == Concat(y)
    ensures var rs := [(Update(Columns(1, x)), true), (Update(Columns(1, y)), true)];
            Answers(Telling(x), EMPTY, rs) != Built(Telling(x), rs)
  {
    var b := Telling(x);
    var r, q := Update(Columns(1, x)), Update(Columns(1, y));
    var rs := [(r, true), (q, true)];
    assert rs[1..] == [(q, true)];
    var s := Answer(b, EMPTY, r, true).1;
    assert KeyOf(q) == KeyOf(r) && KeyOf(r) in CacheOf(s, q);
    assert Answers(b, EMPTY, rs)[1] == Answers(b, s, rs[1..])[0];
    assert Built(b, rs)[1] == Built(b, rs[1..])[0] == Fresh(b, q);
  }

  // ---- the block table ----

  const BLOCK_COLUMNS: set<Column> := {
    "id", "bits", "chainwork", "confirmations", "difficulty", "hash", "height", "merkle_root", "name_claim_root",
    "nonce",
    "previous_block_hash", "next_block_hash", "block_size", "block_time", "version", "version_hex", "tx_count",
    "processing_state", "created_at", "modified_at"
  }

  /** One name of the table extends another: version_hex. */
  lemma OnlyVersionHex(v: Column, w: Column)
    requires v in BLOCK_COLUMNS && w in BLOCK_COLUMNS && v < w
    ensures w[|v|] == '_'
  {
    assert v[0] == w[0] && v[1] == w[1];
    assert |v| > 2 ==> v[2] == w[2];
  }

  lemma BlockIsPlain(w: Column)
    requires w in BLOCK_COLUMNS
    ensures w != "" && !Digit(w[0]) && w[0] != '_' && '.' !in w
  {
  }

  /** The caches of the block table are transparent: its one name that extends another continues with an underscore. */
  lemma BlockCachesAreTransparent()
    ensures Transparent(BLOCK_COLUMNS)
  {
    forall w | w in BLOCK_COLUMNS
      ensures w != "" && !Digit(w[0]) && w[0] != '_' && '.' !in w
    {
      BlockIsPlain(w);
    }
    forall v, w | v in BLOCK_COLUMNS && w in BLOCK_COLUMNS && v < w
      ensures w[|v|] == '_'
    {
      OnlyVersionHex(v, w);
    }
    UnderscoredDecodes(BLOCK_COLUMNS);
    TransparentIff(BLOCK_COLUMNS);
  }
}
