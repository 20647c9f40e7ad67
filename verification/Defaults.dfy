/** Importing a column's native default as a BSL literal. */
module Defaults {
  import opened Wrappers
  import opened Digits
  import opened Ascii
  import opened Sequences
  import opened Quoting
  import opened Dialects

  // ---------- text helpers ----------------------------------------------------------

  predicate IsSpace(c: char) {
    || '\t' <= c <= '\r' || c == ' ' || c == '\U{85}' || c == '\U{A0}' || c == '\U{1680}'
    || '\U{2000}' <= c <= '\U{200A}' || c == '\U{2028}' || c == '\U{2029}' || c == '\U{202F}'
    || c == '\U{205F}' || c == '\U{3000}'
  }

  predicate AllSpace(s: string) { forall i | 0 <= i < |s| :: IsSpace(s[i]) }

  function TrimStart(s: string): (t: string)
    ensures |t| <= |s|
  {
    if s != "" && IsSpace(s[0]) then TrimStart(s[1..]) else s
  }

  function TrimEnd(s: string): (t: string)
    ensures |t| <= |s|
  {
    if s != "" && IsSpace(s[|s| - 1]) then TrimEnd(s[..|s| - 1]) else s
  }

  function Trim(s: string): string { TrimEnd(TrimStart(s)) }

  predicate Trimmed(s: string) { s != "" ==> !IsSpace(s[0]) && !IsSpace(s[|s| - 1]) }

  lemma {:induction false} TrimStartOf(a: string, core: string)
    requires AllSpace(a)
    ensures TrimStart(a + core) == TrimStart(core)
  {
    if a == "" {
      assert a + core == core;
    } else {
      assert (a + core)[1..] == a[1..] + core;
      TrimStartOf(a[1..], core);
    }
  }

  lemma {:induction false} TrimEndOf(core: string, b: string)
    requires AllSpace(b)
    ensures TrimEnd(core + b) == TrimEnd(core)
  {
    if b == "" {
      assert core + b == core;
    } else {
      assert (core + b)[..|core + b| - 1] == core + b[..|b| - 1];
      TrimEndOf(core, b[..|b| - 1]);
    }
  }

  lemma TrimPadded(a: string, core: string, b: string)
    requires AllSpace(a) && AllSpace(b) && Trimmed(core)
    ensures Trim(a + core + b) == core
  {
    assert a + core + b == a + (core + b);
    TrimStartOf(a, core + b);
    if core == "" {
      assert core + b == b + "";
      TrimStartOf(b, "");
    } else {
      TrimEndOf(core, b);
    }
  }

  lemma {:induction false} TrimStartSplits(s: string) returns (a: string)
    ensures AllSpace(a) && s == a + TrimStart(s) && (TrimStart(s) != "" ==> !IsSpace(TrimStart(s)[0]))
  {
    if s != "" && IsSpace(s[0]) {
      a := TrimStartSplits(s[1..]);
      a := [s[0]] + a;
    } else {
      a := "";
    }
  }

  lemma {:induction false} TrimEndSplits(s: string) returns (b: string)
    ensures AllSpace(b) && s == TrimEnd(s) + b && TrimEnd(s) <= s
    ensures TrimEnd(s) != "" ==> !IsSpace(TrimEnd(s)[|TrimEnd(s)| - 1])
  {
    hide IsSpace;
    if s != "" && IsSpace(s[|s| - 1]) {
      var init, last := s[..|s| - 1], s[|s| - 1];
      assert s == init + [last];
      b := TrimEndSplits(init);
      assert TrimEnd(init) + (b + [last]) == TrimEnd(init) + b + [last];
      b := b + [last];
    } else {
      b := "";
    }
  }

  /** Trimming only removes space from both ends, and leaves none there. */
  lemma TrimSplits(s: string) returns (a: string, b: string)
    ensures AllSpace(a) && AllSpace(b) && s == a + Trim(s) + b && Trimmed(Trim(s))
  {
    a := TrimStartSplits(s);
    b := TrimEndSplits(TrimStart(s));
  }

  // ---------- outer parentheses -----------------------------------------------------

  predicate Parenthesised(s: string) { s != "" && s[0] == '(' && s[|s| - 1] == ')' }

  function StripParentheses(s: string): string
    decreases |s|
  {
    if Parenthesised(s) then StripParentheses(Trim(s[1..|s| - 1])) else s
  }

  method StripOuter(source: string) returns (s: string)
    ensures s == StripParentheses(source)
  {
    s := source;
    while Parenthesised(s)
      invariant StripParentheses(s) == StripParentheses(source)
      decreases |s|
    {
      s := Trim(s[1..|s| - 1]);
    }
  }

  /** A text inside some layers of parentheses, with space inside each. */
  datatype Layers = Bare | Around(before: string, inside: Layers, after: string)
  {
    predicate Spaced() { Around? ==> AllSpace(before) && AllSpace(after) && inside.Spaced() }

    function Text(core: string): (s: string)
      ensures Around? ==> Parenthesised(s)
    {
      if Bare? then core else "(" + before + inside.Text(core) + after + ")"
    }
  }

  lemma ParensAreNotSpace(s: string)
    requires Parenthesised(s)
    ensures Trimmed(s)
  {
  }

  lemma {:induction false} StripRemovesLayers(w: Layers, core: string)
    requires w.Spaced() && Trimmed(core) && !Parenthesised(core)
    ensures StripParentheses(w.Text(core)) == core && Trimmed(w.Text(core))
  {
    hide IsSpace, Trim, Trimmed, AllSpace;
    if w.Around? {
      StripRemovesLayers(w.inside, core);
      var s := w.Text(core);
      ParensAreNotSpace(s);
      assert s[1..|s| - 1] == w.before + w.inside.Text(core) + w.after;
      TrimPadded(w.before, w.inside.Text(core), w.after);
    }
  }

  /** What is left after stripping was inside such layers, and nothing else was removed. */
  lemma {:induction false} StripIsLayers(s: string) returns (w: Layers)
    ensures w.Spaced() && s == w.Text(StripParentheses(s)) && !Parenthesised(StripParentheses(s))
    ensures Trimmed(s) ==> Trimmed(StripParentheses(s))
    decreases |s|
  {
    hide Trim, Trimmed, AllSpace, IsSpace;
    if Parenthesised(s) {
      var body := s[1..|s| - 1];
      var a, b := TrimSplits(body);
      var inside := StripIsLayers(Trim(body));
      w := Around(a, inside, b);
      assert s == "(" + body + ")";
    } else {
      w := Bare;
    }
  }

  // ---------- casts -----------------------------------------------------------------

  function StripSuffix(s: string, t: string): Option<string> {
    if HasSuffix(s, t) then Some(s[..|s| - |t|]) else None
  }

  function StripQuotes(s: string): Option<string> {
    if "'" <= s then StripSuffix(s[1..], "'") else None
  }

  predicate CastAt(s: string, i: int) { 0 <= i && i + 2 <= |s| && s[i] == ':' && s[i + 1] == ':' }

  /** Where the last `::` stands. */
  function LastCast(s: string): (i: Option<nat>)
    ensures i.Some? ==> CastAt(s, i.value) && forall j | i.value < j :: !CastAt(s, j)
    ensures i.None? ==> forall j :: !CastAt(s, j)
  {
    CastBefore(s, |s|)
  }

  function CastBefore(s: string, n: nat): (i: Option<nat>)
    requires n <= |s|
    ensures i.Some? ==> CastAt(s, i.value) && forall j | i.value < j <= n - 2 :: !CastAt(s, j)
    ensures i.None? ==> forall j | j <= n - 2 :: !CastAt(s, j)
  {
    if n < 2 then None
    else if CastAt(s, n - 2) then Some(n - 2)
    else CastBefore(s, n - 1)
  }

  const NUMERIC_CASTS: set<string> := {"smallint", "integer", "bigint", "numeric", "real", "double precision"}

  function NumericCastBody(s: string): Option<string> {
    match LastCast(s)
    case None => None
    case Some(i) => if s[i + 2..] in NUMERIC_CASTS then StripQuotes(s[..i]) else None
  }

  predicate IsDecimalType(ty: string) { "decimal(" <= ty }

  /** The literal itself, out of whatever the dialect's catalog puts around it. */
  function Core(default: string, ty: string, d: Dialect): string {
    var s := Trim(default);
    if d == Sqlite then StripParentheses(s)
    else if d == Postgres && ty == "text" then
      (match StripSuffix(s, "::text")
       case Some(body) => body
       case None => match StripSuffix(s, "::character varying") case Some(body) => body case None => s)
    else if d == Postgres && (ty == "int" || ty == "float" || IsDecimalType(ty)) then
      (match NumericCastBody(s) case Some(body) => body case None => s)
    else s
  }

  // ---------- literals --------------------------------------------------------------

  function Unsigned(s: string): string { if "-" <= s then s[1..] else s }

  predicate IsDigits(s: string) { s != "" && AllDigits(s) }

  predicate IsDecimal(s: string) {
    var u := Unsigned(s);
    var at := IndexOf(u, '.');
    at < |u| && IsDigits(u[..at]) && IsDigits(u[at + 1..])
  }

  /** The number a signed digit string spells. */
  function Signed(s: string): int
    requires IsDigits(Unsigned(s))
  {
    if "-" <= s then 0 - Digits.Value(s[1..]) else Digits.Value(s)
  }

  predicate FitsI64(n: int) { -0x8000_0000_0000_0000 <= n < 0x8000_0000_0000_0000 }

  /** The body of an SQL string: each inner quote must be doubled. */
  function Decoded(body: string): Option<string> {
    if body == "" then Some("")
    else if body[0] == '\'' then
      (if |body| == 1 || body[1] != '\'' then None
       else Prepend("'", Decoded(body[2..])))
    else Prepend([body[0]], Decoded(body[1..]))
  }

  function Prepend(v: string, rest: Option<string>): Option<string> {
    if rest.None? then None else Some(v + rest.value)
  }

  function Literal(s: string, ty: string, d: Dialect): Option<string> {
    if Lower(s) == "null" then Some("null")
    else if ty == "bool" && (Lower(s) == "true" || Lower(s) == "false") then Some(Lower(s))
    else if ty == "int" && IsDigits(Unsigned(s)) && FitsI64(Signed(s)) then Some(s)
    else if (ty == "float" || IsDecimalType(ty)) && IsDecimal(s) then Some(s)
    else if ty != "text" then None
    else match StripQuotes(s)
      case None => None
      case Some(body) =>
        if BACKSLASH in body && d != Sqlite then None
        else match Decoded(body) case None => None case Some(v) => Some(Quote(v))
  }

  lemma PrependNothing(rest: Option<string>)
    ensures Prepend("", rest) == rest
  {
    if rest.Some? {
      assert "" + rest.value == rest.value;
    }
  }

  lemma PrependTwice(a: string, b: string, rest: Option<string>)
    ensures Prepend(a, Prepend(b, rest)) == Prepend(a + b, rest)
  {
    if rest.Some? {
      assert a + (b + rest.value) == a + b + rest.value;
    }
  }

  method Decode(body: string) returns (decoded: Option<string>)
    ensures decoded == Decoded(body)
  {
    var out := "";
    var i := 0;
    assert body[0..] == body;
    PrependNothing(Decoded(body));
    while i < |body|
      invariant i <= |body|
      invariant Decoded(body) == Prepend(out, Decoded(body[i..]))
    {
      var c := body[i];
      i := i + 1;
      if c == '\'' {
        if i == |body| || body[i] != '\'' {
          return None;
        }
        assert body[i - 1..][2..] == body[i + 1..];
        PrependTwice(out, [c], Decoded(body[i + 1..]));
        i := i + 1;
      } else {
        assert body[i - 1..][1..] == body[i..];
        PrependTwice(out, [c], Decoded(body[i..]));
      }
      out := out + [c];
    }
    assert body[i..] == "";
    assert out + "" == out;
    return Some(out);
  }

  /** The import of one column's default, and whether it is reported as unsupported. */
  method Render(default: Option<string>, ty: string, d: Dialect) returns (value: Option<string>, reported: bool)
    ensures value == match default case None => None case Some(s) => Literal(Core(s, ty, d), ty, d)
    ensures reported == (default.Some? && value.None?)
  {
    if default.None? {
      return None, false;
    }
    var source := Trim(default.value);
    if d == Sqlite {
      source := StripOuter(source);
    } else {
      source := Core(default.value, ty, d);
    }
    value := Literal(source, ty, d);
    var body := StripQuotes(source);
    if ty == "text" && Lower(source) != "null" && body.Some? && !(BACKSLASH in body.value && d != Sqlite) {
      var decoded := Decode(body.value);
      value := match decoded case None => None case Some(v) => Some(Quote(v));
    }
    reported := value.None?;
  }

  // ---------- SQL string literals ---------------------------------------------------

  /** A value as an SQL string literal: quotes doubled. */
  function SqlLiteral(v: string): string { "'" + Replace(v, '\'', "''") + "'" }

  lemma {:induction false} DecodedDoubled(v: string)
    ensures Decoded(Replace(v, '\'', "''")) == Some(v)
  {
    if v != "" {
      var body := Replace(v, '\'', "''");
      var rest := Replace(v[1..], '\'', "''");
      DecodedDoubled(v[1..]);
      if v[0] == '\'' {
        assert body == "''" + rest;
        assert body[2..] == rest;
      } else {
        assert body[1..] == rest;
      }
      assert v == [v[0]] + v[1..];
    }
  }

  lemma {:induction false} DecodedIsDoubled(body: string)
    requires Decoded(body).Some?
    ensures body == Replace(Decoded(body).value, '\'', "''")
    decreases |body|
  {
    if body != "" {
      var v := Decoded(body).value;
      if body[0] == '\'' {
        DecodedIsDoubled(body[2..]);
        assert body == "''" + body[2..];
        assert v[1..] == Decoded(body[2..]).value;
      } else {
        DecodedIsDoubled(body[1..]);
        assert body == [body[0]] + body[1..];
        assert v[1..] == Decoded(body[1..]).value;
      }
    }
  }

  lemma {:induction false} DoublingKeepsOthers(v: string, c: char)
    requires c != '\''
    ensures c in Replace(v, '\'', "''") <==> c in v
  {
    if v != "" {
      DoublingKeepsOthers(v[1..], c);
    }
  }

  lemma QuotedBody(s: string, body: string)
    ensures StripQuotes(s) == Some(body) <==> s == "'" + body + "'"
  {
    if StripQuotes(s).Some? {
      assert s == "'" + s[1..];
      assert s[1..] == s[1..][..|s[1..]| - 1] + "'";
    }
    if s == "'" + body + "'" {
      assert s[1..] == body + "'";
      assert s[1..][..|s[1..]| - 1] == body;
    }
  }

  /** A body is a value's doubled spelling exactly when it decodes to it. */
  lemma DecodedIff(body: string, v: string)
    ensures Decoded(body) == Some(v) <==> body == Replace(v, '\'', "''")
  {
    DecodedDoubled(v);
    if Decoded(body).Some? {
      DecodedIsDoubled(body);
    }
  }

  lemma TextIsNotDecimal()
    ensures !IsDecimalType("text")
  {
    assert "decimal("[0] != "text"[0];
  }

  /** The literals a text column accepts: SQL strings, with backslashes only where they are plain. */
  ghost predicate SpellsText(s: string, d: Dialect, v: string) {
    s == SqlLiteral(v) && (BACKSLASH in v ==> d == Sqlite)
  }

  /** A text column accepts exactly these and `null`. */
  lemma TextLiterals(s: string, d: Dialect)
    requires Lower(s) != "null"
    ensures forall v :: SpellsText(s, d, v) ==> Literal(s, "text", d) == Some(Quote(v))
    ensures Literal(s, "text", d).Some? ==> exists v :: SpellsText(s, d, v)
  {
    TextIsNotDecimal();
    hide Quote, Replace, Decoded, Lower;
    if Literal(s, "text", d).Some? {
      var body := StripQuotes(s).value;
      QuotedBody(s, body);
      DecodedIff(body, Decoded(body).value);
      DoublingKeepsOthers(Decoded(body).value, BACKSLASH);
      assert SpellsText(s, d, Decoded(body).value);
    }
    forall v | SpellsText(s, d, v)
      ensures Literal(s, "text", d) == Some(Quote(v))
    {
      var body := Replace(v, '\'', "''");
      QuotedBody(s, body);
      DecodedIff(body, v);
      DoublingKeepsOthers(v, BACKSLASH);
    }
  }
}
