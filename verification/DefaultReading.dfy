/** What an imported default means: the SQL value it spells, and the literal the BSL grammar reads back. */
module DefaultReading {
  import opened Wrappers
  import opened Digits
  import opened Ascii
  import opened Sequences
  import opened Quoting
  import opened Defaults
  import opened Dialects

  datatype Lit = Null | Bool(b: bool) | Int(n: int) | Decimal(text: string) | Str(s: string)

  // ---------- reading a literal -----------------------------------------------------

  function DigitRun(s: string): (n: nat)
    ensures n <= |s| && AllDigits(s[..n]) && (n < |s| ==> !Digits.IsDigit(s[n]))
  {
    if s != "" && Digits.IsDigit(s[0]) then 1 + DigitRun(s[1..]) else 0
  }

  predicate IsWordChar(c: char) { IsAlnum(c) || c == '_' }

  function WordRun(s: string): (n: nat)
    ensures n <= |s| && (forall i | 0 <= i < n :: IsWordChar(s[i])) && (n < |s| ==> !IsWordChar(s[n]))
  {
    if s != "" && IsWordChar(s[0]) then 1 + WordRun(s[1..]) else 0
  }

  /** The length of the fractional number a text starts with, 0 when it starts with none. */
  function FloatRun(s: string): (n: nat)
    ensures n <= |s|
  {
    var w := DigitRun(s);
    if 0 < w < |s| && s[w] == '.' && DigitRun(s[w + 1..]) > 0 then w + 1 + DigitRun(s[w + 1..]) else 0
  }

  ghost function ReadStr(t: string): Option<(Lit, string)> {
    if exists n :: 0 <= n <= |t| && IsStr(t[..n]) then
      var n :| 0 <= n <= |t| && IsStr(t[..n]);
      Some((Str(Unescape(t[1..n - 1])), t[n..]))
    else None
  }

  /** A literal and what is left after it: the longest token at each place, a sign only before a number. */
  ghost function ReadLiteral(s: string): Option<(Lit, string)> {
    var negative := |s| >= 2 && s[0] == '-' && Digits.IsDigit(s[1]);
    var t := if negative then s[1..] else s;
    var sign := if negative then "-" else "";
    if t == "" then None
    else if Digits.IsDigit(t[0]) then
      (var f := FloatRun(t);
       if f > 0 then Some((Decimal(sign + t[..f]), t[f..]))
       else var n := Digits.Value(t[..DigitRun(t)]);
            var value := if negative then 0 - n else n;
            if FitsI64(value) then Some((Int(value), t[DigitRun(t)..])) else None)
    else if t[0] == QUOTE then
      ReadStr(t)
    else
      var word := t[..WordRun(t)];
      var rest := t[WordRun(t)..];
      if word == "true" then Some((Bool(true), rest))
      else if word == "false" then Some((Bool(false), rest))
      else if word == "null" then Some((Null, rest))
      else None
  }

  /** What follows does not continue a word or a number. */
  predicate Terminated(rest: string) {
    rest != "" ==> !IsWordChar(rest[0]) && rest[0] != '.'
  }

  // ---------- what the SQL text means -----------------------------------------------

  /** A decimal: an optional sign, digits, a point, digits. */
  ghost predicate SpellsDecimal(s: string, sign: string, whole: string, fraction: string) {
    s == sign + (whole + "." + fraction) && (sign == "" || sign == "-") && IsDigits(whole) && IsDigits(fraction)
  }

  /** The word's letters, each small or capital. */
  predicate SpellsWord(s: string, word: string) {
    |s| == |word| && forall i | 0 <= i < |s| :: s[i] == word[i] || s[i] == UpperChar(word[i])
  }

  /** An integer: digits with that value, and a sign if it is taken negative. */
  ghost predicate SpellsInt(s: string, sign: string, digits: string, n: int) {
    s == sign + digits && IsDigits(digits) && ((sign == "" && n == Digits.Value(digits)) || (sign == "-" && n == 0 - Digits.Value(digits)))
  }

  ghost predicate SpelledInt(s: string, n: int) { exists sign, digits :: SpellsInt(s, sign, digits, n) }

  ghost predicate Denotes(s: string, ty: string, d: Dialect, lit: Lit) {
    match lit
    case Null => SpellsWord(s, "null")
    case Bool(b) => ty == "bool" && SpellsWord(s, if b then "true" else "false")
    case Int(n) => ty == "int" && SpelledInt(s, n) && FitsI64(n)
    case Decimal(text) => (ty == "float" || IsDecimalType(ty)) && text == s && SpelledDecimal(s)
    case Str(v) => ty == "text" && SpellsText(s, d, v)
  }

  // ---------- numbers ---------------------------------------------------------------

  lemma {:induction false} DigitRunOf(digits: string, rest: string)
    requires AllDigits(digits) && (rest != "" ==> !Digits.IsDigit(rest[0]))
    ensures DigitRun(digits + rest) == |digits|
  {
    if digits == "" {
      assert digits + rest == rest;
    } else {
      assert (digits + rest)[1..] == digits[1..] + rest;
      DigitRunOf(digits[1..], rest);
    }
  }

  lemma FloatRunOf(whole: string, fraction: string, rest: string)
    requires IsDigits(whole) && IsDigits(fraction) && (rest != "" ==> !Digits.IsDigit(rest[0]))
    ensures FloatRun(whole + "." + fraction + rest) == |whole| + 1 + |fraction|
  {
    var t := whole + "." + fraction + rest;
    var tail := "." + (fraction + rest);
    assert t == whole + tail by {
      Regroup(whole, ".", fraction);
      Regroup(whole, "." + fraction, rest);
      Regroup(".", fraction, rest);
    }
    DigitRunOf(whole, tail);
    DigitRunOf(fraction, rest);
    Splits(whole, tail);
    assert t[|whole|..][0] == '.' && t[|whole| + 1..] == t[|whole|..][1..] == fraction + rest;
    hide DigitRun;
  }

  ghost predicate SpelledDecimal(s: string) {
    exists sign, whole, fraction :: SpellsDecimal(s, sign, whole, fraction)
  }

  lemma DecimalsAreSpelled(s: string)
    ensures IsDecimal(s) <==> SpelledDecimal(s)
  {
    if IsDecimal(s) {
      DecimalIsSpelled(s);
    }
    forall sign, whole, fraction | SpellsDecimal(s, sign, whole, fraction)
      ensures IsDecimal(s)
    {
      SpelledIsDecimal(s, sign, whole, fraction);
    }
  }

  lemma DecimalIsSpelled(s: string)
    requires IsDecimal(s)
    ensures SpelledDecimal(s)
  {
    hide IsDigits, Unsigned, IndexOf;
    var u := Unsigned(s);
    var at := IndexOf(u, '.');
    var sign := if "-" <= s then "-" else "";
    assert s == sign + u by {
      UnsignedSplits(s);
    }
    assert u == u[..at] + "." + u[at + 1..] by {
      CutAt(u, at);
    }
    assert SpellsDecimal(s, sign, u[..at], u[at + 1..]);
  }

  lemma UnsignedSplits(s: string)
    ensures s == (if "-" <= s then "-" else "") + Unsigned(s)
  {
  }

  lemma CutAt(u: string, at: nat)
    requires at < |u| && u[at] == '.'
    ensures u == u[..at] + "." + u[at + 1..]
  {
  }

  lemma SpelledIsDecimal(s: string, sign: string, whole: string, fraction: string)
    requires SpellsDecimal(s, sign, whole, fraction)
    ensures IsDecimal(s)
  {
    var number := whole + "." + fraction;
    assert Unsigned(s) == number by {
      SignedNumber(sign, whole, fraction);
    }
    assert IndexOf(number, '.') == |whole| by {
      IndexOfAfter(whole, '.', fraction);
    }
    assert number[..|whole|] == whole by {
      Regroup(whole, ".", fraction);
      Splits(whole, "." + fraction);
    }
    assert number[|whole| + 1..] == fraction by {
      Splits(whole + ".", fraction);
    }
  }

  lemma SignedNumber(sign: string, whole: string, fraction: string)
    requires (sign == "" || sign == "-") && IsDigits(whole)
    ensures Unsigned(sign + (whole + "." + fraction)) == whole + "." + fraction
  {
    var number := whole + "." + fraction;
    assert number[0] == whole[0];
    Splits(sign, number);
    assert sign + number == if sign == "" then number else "-" + number;
  }

  lemma DecimalReadsBack(s: string, sign: string, whole: string, fraction: string, rest: string)
    requires SpellsDecimal(s, sign, whole, fraction) && Terminated(rest)
    ensures ReadLiteral(s + rest) == Some((Decimal(s), rest))
  {
    hide ReadLiteral, FloatRun, IsWordChar;
    var number := whole + "." + fraction;
    var t := number + rest;
    assert FloatRun(t) == |number| by {
      assert rest != "" ==> !Digits.IsDigit(rest[0]) by {
        WordCharsHoldDigits(rest);
      }
      FloatRunOf(whole, fraction, rest);
    }
    Splits(number, rest);
    Regroup(sign, number, rest);
    assert t[0] == whole[0];
    ReadsDecimal(s + rest, sign, t);
  }

  lemma WordCharsHoldDigits(rest: string)
    requires Terminated(rest)
    ensures rest != "" ==> !Digits.IsDigit(rest[0])
  {
  }

  lemma ReadsDecimal(s: string, sign: string, t: string)
    requires (sign == "" || sign == "-") && s == sign + t && t != "" && Digits.IsDigit(t[0]) && FloatRun(t) > 0
    ensures ReadLiteral(s) == Some((Decimal(sign + t[..FloatRun(t)]), t[FloatRun(t)..]))
  {
    hide FloatRun, IsStr;
    if sign == "-" {
      assert s[1..] == t && s[1] == t[0];
    } else {
      assert s == t;
    }
  }

  lemma IntsAreSpelled(s: string, n: int)
    ensures IsDigits(Unsigned(s)) && n == Signed(s) <==> SpelledInt(s, n)
  {
    if IsDigits(Unsigned(s)) && n == Signed(s) {
      UnsignedSplits(s);
      assert SpellsInt(s, if "-" <= s then "-" else "", Unsigned(s), n);
    }
    forall sign, digits | SpellsInt(s, sign, digits, n)
      ensures IsDigits(Unsigned(s)) && n == Signed(s)
    {
      assert Unsigned(s) == digits by {
        assert Digits.IsDigit(digits[0]);
        Splits(sign, digits);
        assert sign == "" ==> s == digits;
      }
    }
  }

  lemma IntReadsBack(s: string, rest: string)
    requires IsDigits(Unsigned(s)) && FitsI64(Signed(s)) && Terminated(rest)
    ensures ReadLiteral(s + rest) == Some((Int(Signed(s)), rest))
  {
    var digits := Unsigned(s);
    var t := digits + rest;
    DigitRunOf(digits, rest);
    assert t[..|digits|] == digits && t[|digits|..] == rest;
    if "-" <= s {
      assert (s + rest)[1..] == t;
    } else {
      assert s + rest == t;
    }
  }

  // ---------- words -----------------------------------------------------------------

  lemma WordsAreSpelled(s: string, word: string)
    requires forall i | 0 <= i < |word| :: IsLower(word[i])
    ensures Lower(s) == word <==> SpellsWord(s, word)
  {
    if Lower(s) == word {
      assert forall i | 0 <= i < |s| :: Lower(s)[i] == word[i];
    }
    if SpellsWord(s, word) {
      assert Lower(s) == word;
    }
  }

  lemma TheWords(s: string)
    ensures Lower(s) == "null" <==> SpellsWord(s, "null")
    ensures Lower(s) == "true" <==> SpellsWord(s, "true")
    ensures Lower(s) == "false" <==> SpellsWord(s, "false")
  {
    WordsAreSpelled(s, "null");
    WordsAreSpelled(s, "true");
    WordsAreSpelled(s, "false");
  }

  lemma {:induction false} WordRunOf(word: string, rest: string)
    requires forall i | 0 <= i < |word| :: IsWordChar(word[i])
    requires Terminated(rest)
    ensures WordRun(word + rest) == |word|
  {
    if word == "" {
      assert word + rest == rest;
    } else {
      assert (word + rest)[1..] == word[1..] + rest;
      WordRunOf(word[1..], rest);
    }
  }

  lemma WordReadsBack(word: string, rest: string)
    requires (word == "true" || word == "false" || word == "null") && Terminated(rest)
    ensures ReadLiteral(word + rest) == Some((if word == "null" then Null else Bool(word == "true"), rest))
  {
    WordRunOf(word, rest);
    var t := word + rest;
    assert t[0] == word[0];
    assert t[..|word|] == word && t[|word|..] == rest;
  }

  lemma StrReadsBack(v: string, rest: string)
    ensures ReadLiteral(Quote(v) + rest) == Some((Str(v), rest))
  {
    var t := Quote(v) + rest;
    QuotedReadsBack(v, rest);
    var n := |Quote(v)|;
    assert t[0] == QUOTE;
    assert IsStr(t[..n]);
    Splits(Quote(v), rest);
    assert t[1..n - 1] == Quote(v)[1..n - 1];
    ReadsStr(t, n);
  }

  lemma ReadsStr(t: string, n: nat)
    requires n <= |t| && IsStr(t[..n])
    requires forall m | 0 <= m <= |t| :: IsStr(t[..m]) ==> m == n
    ensures n >= 2 && ReadStr(t) == Some((Str(Unescape(t[1..n - 1])), t[n..]))
  {
    assert |t[..n]| >= 2;
    hide IsStr, Unescape;
  }

  // ---------- the import keeps the value --------------------------------------------

  /** A default is accepted exactly when it spells a value of its type. */
  lemma AcceptedIffDenotes(s: string, ty: string, d: Dialect)
    ensures Literal(s, ty, d).Some? <==> exists lit :: Denotes(s, ty, d, lit)
  {
    hide Denotes, Literal, ReadLiteral;
    if Literal(s, ty, d).Some? {
      var lit := AcceptedDenotes(s, ty, d);
    }
    forall lit | Denotes(s, ty, d, lit)
      ensures Literal(s, ty, d).Some?
    {
      AcceptedReadsBack(s, ty, d, lit, "");
    }
  }

  lemma AcceptedDenotes(s: string, ty: string, d: Dialect) returns (lit: Lit)
    requires Literal(s, ty, d).Some?
    ensures Denotes(s, ty, d, lit)
  {
    hide Lower, Quote, Decoded, Replace, IsDecimal, IsDigits, Unsigned, SpellsWord, SpelledInt, SpelledDecimal;
    TheWords(s);
    if Lower(s) == "null" {
      lit := Null;
    } else if ty == "bool" {
      lit := Bool(Lower(s) == "true");
    } else if ty == "int" {
      IntsAreSpelled(s, Signed(s));
      lit := Int(Signed(s));
    } else if ty == "text" {
      TextLiterals(s, d);
      var v :| SpellsText(s, d, v);
      lit := Str(v);
    } else {
      DecimalsAreSpelled(s);
      lit := Decimal(s);
    }
  }

  /** Whatever is accepted is read back by the BSL grammar as one literal with the SQL text's value. */
  lemma AcceptedReadsBack(s: string, ty: string, d: Dialect, lit: Lit, rest: string)
    requires Denotes(s, ty, d, lit) && Terminated(rest)
    ensures Literal(s, ty, d).Some? && ReadLiteral(Literal(s, ty, d).value + rest) == Some((lit, rest))
  {
    TheWords(s);
    match lit
    case Null => WordReadsBack("null", rest);
    case Bool(b) => WordReadsBack(if b then "true" else "false", rest);
    case Int(n) =>
      IntsAreSpelled(s, n);
      NumbersAreNotWords(s);
      IntReadsBack(s, rest);
    case Decimal(text) =>
      DecimalsAreSpelled(s);
      var sign, whole, fraction :| SpellsDecimal(s, sign, whole, fraction);
      NumbersAreNotWords(s);
      assert ty != "int" && ty != "bool";
      DecimalReadsBack(s, sign, whole, fraction, rest);
    case Str(v) =>
      assert s[0] == '\'' && Lower(s)[0] == '\'';
      TextLiterals(s, d);
      StrReadsBack(v, rest);
  }

  /** A text denotes one value at most. */
  lemma DenotesOne(s: string, ty: string, d: Dialect, a: Lit, b: Lit)
    requires Denotes(s, ty, d, a) && Denotes(s, ty, d, b)
    ensures a == b
  {
    hide Denotes, Literal, ReadLiteral;
    AcceptedReadsBack(s, ty, d, a, "");
    AcceptedReadsBack(s, ty, d, b, "");
  }

  lemma NumbersAreNotWords(s: string)
    requires s != "" && (s[0] == '-' || Digits.IsDigit(s[0]))
    ensures Lower(s) != "null" && Lower(s) != "true" && Lower(s) != "false"
  {
    assert Lower(s)[0] == s[0];
  }

  // ---------- what the catalog puts around the literal ------------------------------

  /** The casts PostgreSQL puts after a text constant. */
  predicate IsTextCast(cast: string, d: Dialect) {
    cast == "" || (d == Postgres && (cast == "::text" || cast == "::character varying"))
  }

  /** A literal as the catalog shows it: space around, on SQLite in parentheses, on PostgreSQL with a cast. */
  datatype Shown = Shown(before: string, layers: Layers, cast: string, after: string)
  {
    predicate Ok(d: Dialect) {
      && AllSpace(before) && AllSpace(after) && layers.Spaced() && IsTextCast(cast, d)
      && (d != Sqlite ==> layers == Bare)
    }

    function Text(core: string): string { before + layers.Text(core + cast) + after }
  }

  lemma SqlLiteralEnds(v: string)
    ensures |SqlLiteral(v)| >= 2 && SqlLiteral(v)[0] == '\'' && SqlLiteral(v)[|SqlLiteral(v)| - 1] == '\''
  {
  }

  lemma SuffixStripped(s: string, cast: string)
    ensures HasSuffix(s + cast, cast) && StripSuffix(s + cast, cast) == Some(s)
  {
    Splits(s, cast);
  }

  /** The last characters decide which cast was shown. */
  lemma CastRemoved(core: string, cast: string, d: Dialect)
    requires IsTextCast(cast, d) && |core| >= 2 && core[0] == '\'' && core[|core| - 1] == '\''
    ensures Trimmed(core + cast) && !Parenthesised(core + cast)
    ensures d != Sqlite ==> Core(core + cast, "text", d) == core
    ensures d == Sqlite ==> cast == ""
  {
    var s := core + cast;
    var last := if cast == "" then '\'' else if cast == "::text" then 't' else 'g';
    assert s[|s| - 1] == last by {
      assert cast != "" ==> s[|s| - 1] == cast[|cast| - 1];
    }
    assert "" + s + "" == s;
    TrimPadded("", s, "");
    LastDecidesSuffix(s);
    if cast == "" {
      assert s == core;
    } else {
      SuffixStripped(core, cast);
    }
  }

  lemma LastDecidesSuffix(s: string)
    requires s != ""
    ensures HasSuffix(s, "::text") ==> s[|s| - 1] == 't'
    ensures HasSuffix(s, "::character varying") ==> s[|s| - 1] == 'g'
  {
    if HasSuffix(s, "::text") {
      assert s[|s| - |"::text"|..][5] == 't';
    }
    if HasSuffix(s, "::character varying") {
      assert s[|s| - |"::character varying"|..][18] == 'g';
    }
  }

  lemma CoreTrims(s: string, ty: string, d: Dialect, a: string, b: string)
    requires AllSpace(a) && AllSpace(b) && Trimmed(s)
    ensures Core(a + s + b, ty, d) == Core(s, ty, d)
  {
    TrimPadded(a, s, b);
    assert "" + s + "" == s;
    TrimPadded("", s, "");
  }

  lemma ShownCore(shown: Shown, v: string, d: Dialect)
    requires shown.Ok(d)
    ensures Core(shown.Text(SqlLiteral(v)), "text", d) == SqlLiteral(v)
  {
    var core := SqlLiteral(v);
    SqlLiteralEnds(v);
    CastRemoved(core, shown.cast, d);
    hide SqlLiteral, AllSpace, IsSpace;
    StripRemovesLayers(shown.layers, core + shown.cast);
    var s := shown.layers.Text(core + shown.cast);
    CoreTrims(s, "text", d, shown.before, shown.after);
    if d == Sqlite {
      assert core + "" == core;
      assert "" + s + "" == s;
      TrimsItself(s);
    }
  }

  lemma TrimsItself(s: string)
    requires Trimmed(s)
    ensures Trim(s) == s
  {
    assert "" + s + "" == s;
    TrimPadded("", s, "");
  }

  /** However the catalog shows a text default, the import keeps its value, and the grammar reads it back. */
  lemma TextDefaultSurvives(shown: Shown, v: string, d: Dialect, rest: string)
    requires shown.Ok(d) && (BACKSLASH in v ==> d == Sqlite)
    ensures Literal(Core(shown.Text(SqlLiteral(v)), "text", d), "text", d) == Some(Quote(v))
    ensures ReadLiteral(Quote(v) + rest) == Some((Str(v), rest))
  {
    ShownCore(shown, v, d);
    SqlLiteralEnds(v);
    assert Lower(SqlLiteral(v))[0] == '\'';
    TextLiterals(SqlLiteral(v), d);
    assert SpellsText(SqlLiteral(v), d, v);
    StrReadsBack(v, rest);
  }

  /** A text default that is accepted, and is not null, was shown as one SQL string with the imported value. */
  lemma AcceptedTextDefault(default: string, d: Dialect) returns (shown: Shown, v: string)
    requires Literal(Core(default, "text", d), "text", d).Some? && Lower(Core(default, "text", d)) != "null"
    ensures shown.Ok(d) && default == shown.Text(SqlLiteral(v)) && (BACKSLASH in v ==> d == Sqlite)
    ensures Literal(Core(default, "text", d), "text", d) == Some(Quote(v))
  {
    var core := Core(default, "text", d);
    TextLiterals(core, d);
    v :| SpellsText(core, d, v);
    shown := CoreShown(default, d);
  }

  /** What the import strips from a text default is space, parentheses or a cast. */
  lemma CoreShown(default: string, d: Dialect) returns (shown: Shown)
    ensures shown.Ok(d) && default == shown.Text(Core(default, "text", d))
  {
    hide IsSpace, AllSpace, Trim, StripParentheses;
    var s := Trim(default);
    var core := Core(default, "text", d);
    var before, after := TrimSplits(default);
    if d == Sqlite {
      var layers := StripIsLayers(s);
      shown := Shown(before, layers, "", after);
      assert core + "" == core;
    } else {
      TrimsItself(s);
      var cast := CastStripped(s, d);
      shown := Shown(before, Bare, cast, after);
    }
  }

  lemma CastStripped(s: string, d: Dialect) returns (cast: string)
    requires Trim(s) == s && d != Sqlite
    ensures IsTextCast(cast, d) && s == Core(s, "text", d) + cast
  {
    var core := Core(s, "text", d);
    cast := s[|core|..];
    assert s == core + cast;
  }

  /** A negative constant comes quoted and cast from PostgreSQL; the import sees the bare constant. */
  lemma SignedConstant(n: string, cast: string, ty: string)
    requires cast in NUMERIC_CASTS && ':' !in n && (ty == "int" || ty == "float" || IsDecimalType(ty))
    ensures Core("'" + n + "'::" + cast, ty, Postgres) == n
  {
    var quoted := "'" + n + "'";
    var s := quoted + "::" + cast;
    assert s == "'" + n + "'::" + cast;
    assert ':' !in cast && cast != "" && !IsSpace(cast[|cast| - 1]);
    assert s[|s| - 1] == cast[|cast| - 1];
    TrimsItself(s);
    assert CastAt(s, |quoted|);
    forall j | |quoted| < j
      ensures !CastAt(s, j)
    {
      if j + 2 <= |s| && j > |quoted| + 1 {
        assert s[j] == cast[j - |quoted| - 2];
      } else if j == |quoted| + 1 && j + 2 <= |s| {
        assert s[j + 1] == cast[0];
      }
    }
    assert LastCast(s) == Some(|quoted|);
    assert s[|quoted| + 2..] == cast && s[..|quoted|] == quoted;
    QuotedBody(quoted, n);
  }
}
