/** A text walk key as the cursor's SQL literal, and what the server reads it as. */
module KeyLiteral {
  import opened Wrappers
  import opened Quoting
  import opened Defaults
  import opened Dialects

  // ---------- what a server reads ---------------------------------------------------

  /** What MySQL and MariaDB take `\\c` for, in their default mode. */
  function Escaped(c: char): string {
    match c
    case '0' => [0 as char]
    case 'b' => [8 as char]
    case 'n' => "\n"
    case 'r' => "\r"
    case 't' => "\t"
    case 'Z' => [26 as char]
    case '%' => "\\%"
    case '_' => "\\_"
    case _ => [c]
  }

  /** The rest of a string after its opening quote, when nothing follows its closing one. */
  function ReadBody(s: string, escapes: bool): Option<string> {
    if s == "" then None
    else if s[0] == '\'' then
      if |s| == 1 then Some("")
      else if s[1] == '\'' then Joined("'", ReadBody(s[2..], escapes))
      else None
    else if s[0] == BACKSLASH && escapes then
      if |s| == 1 then None else Joined(Escaped(s[1]), ReadBody(s[2..], escapes))
    else Joined([s[0]], ReadBody(s[1..], escapes))
  }

  function Joined(first: string, rest: Option<string>): Option<string> {
    match rest case None => None case Some(s) => Some(first + s)
  }

  /** The value of a string literal; backslashes are plain outside the MySQL family. */
  function ReadLiteral(s: string, d: Dialect): Option<string> {
    if s == "" || s[0] != '\'' then None else ReadBody(s[1..], d.IsMySqlFamily())
  }

  // ---------- when it is the key ----------------------------------------------------

  /** Every backslash stands before a `%` or a `_`, where the server keeps it. */
  predicate PlainBackslashes(v: string) {
    forall i | 0 <= i < |v| && v[i] == BACKSLASH :: i + 1 < |v| && (v[i + 1] == '%' || v[i + 1] == '_')
  }

  function Body(v: string): string { Replace(v, '\'', "''") + "'" }

  lemma BodyCons(v: string)
    requires v != ""
    ensures Body(v) == (if v[0] == '\'' then "''" else [v[0]]) + Body(v[1..])
  {
  }

  /** A quote that an escape has left alone is never closed. */
  lemma {:induction false} LoneQuote(v: string, escapes: bool)
    ensures ReadBody("'" + Body(v), escapes) == None
  {
    if v != "" {
      BodyCons(v);
      var s := "'" + Body(v);
      if v[0] == '\'' {
        assert s[2..] == "'" + Body(v[1..]);
        LoneQuote(v[1..], escapes);
      } else {
        assert s[1] == v[0];
      }
    } else {
      assert ("'" + Body(v))[2..] == "";
    }
  }

  /** The body's first character, read. */
  lemma BodyStep(v: string, escapes: bool)
    requires v != "" && !(escapes && v[0] == BACKSLASH)
    ensures ReadBody(Body(v), escapes) == Joined([v[0]], ReadBody(Body(v[1..]), escapes))
  {
    BodyCons(v);
    if v[0] == '\'' {
      assert Body(v)[2..] == Body(v[1..]);
    } else {
      assert Body(v)[1..] == Body(v[1..]);
    }
  }

  lemma EscapeStep(v: string)
    requires v != "" && v[0] == BACKSLASH
    ensures |v| == 1 || v[1] == '\'' ==> ReadBody(Body(v), true) == None
    ensures |v| > 1 && v[1] != '\'' ==> ReadBody(Body(v), true) == Joined(Escaped(v[1]), ReadBody(Body(v[2..]), true))
  {
    BodyCons(v);
    var s := Body(v);
    assert s[1..] == Body(v[1..]);
    if |v| == 1 {
      assert s == "\\'" && s[2..] == "";
    } else {
      BodyCons(v[1..]);
      assert v[1..][1..] == v[2..] && s[1] == v[1];
      if v[1] == '\'' {
        assert s[2..] == "'" + Body(v[2..]);
        LoneQuote(v[2..], true);
      } else {
        assert s[2..] == Body(v[2..]);
      }
    }
  }

  /** Reading never lengthens a value. */
  lemma {:induction false} ReadIsNoLonger(v: string)
    ensures ReadBody(Body(v), true).Some? ==> |ReadBody(Body(v), true).value| <= |v|
    decreases |v|
  {
    if v != "" {
      if v[0] != BACKSLASH {
        BodyStep(v, true);
        ReadIsNoLonger(v[1..]);
      } else {
        EscapeStep(v);
        if |v| > 1 {
          ReadIsNoLonger(v[2..]);
        }
      }
    }
  }

  lemma {:induction false} PlainReadsBack(v: string)
    ensures ReadBody(Body(v), false) == Some(v)
  {
    if v != "" {
      BodyStep(v, false);
      PlainReadsBack(v[1..]);
      assert v == [v[0]] + v[1..];
    }
  }

  lemma PlainStep(v: string)
    requires v != ""
    ensures v[0] != BACKSLASH ==> (PlainBackslashes(v) <==> PlainBackslashes(v[1..]))
    ensures v[0] == BACKSLASH ==>
              (PlainBackslashes(v) <==> |v| > 1 && (v[1] == '%' || v[1] == '_') && PlainBackslashes(v[2..]))
  {
    if v[0] != BACKSLASH {
      assert forall i | 1 <= i < |v| :: v[1..][i - 1] == v[i];
    } else if |v| > 1 {
      assert forall i | 2 <= i < |v| :: v[2..][i - 2] == v[i];
    }
  }

  lemma JoinedIs(first: string, value: string, rest: Option<string>)
    ensures Joined(first, rest) == Some(first + value) <==> rest == Some(value)
  {
    if Joined(first, rest) == Some(first + value) {
      assert (first + rest.value)[|first|..] == rest.value && (first + value)[|first|..] == value;
    }
  }

  lemma {:induction false} EscapedReadsBack(v: string)
    ensures ReadBody(Body(v), true) == Some(v) <==> PlainBackslashes(v)
    decreases |v|
  {
    if v == "" {
      assert Body(v) == "'";
    } else {
      PlainStep(v);
      hide ReadBody, PlainBackslashes;
      if v[0] != BACKSLASH {
        BodyStep(v, true);
        EscapedReadsBack(v[1..]);
        assert v == [v[0]] + v[1..];
        JoinedIs([v[0]], v[1..], ReadBody(Body(v[1..]), true));
      } else {
        EscapeStep(v);
        if |v| > 1 && v[1] != '\'' {
          EscapedReadsBack(v[2..]);
          if v[1] == '%' || v[1] == '_' {
            assert Escaped(v[1]) == v[..2] && v == v[..2] + v[2..];
            JoinedIs(v[..2], v[2..], ReadBody(Body(v[2..]), true));
          } else {
            ReadIsNoLonger(v[2..]);
            assert |Escaped(v[1])| == 1;
          }
        }
      }
    }
  }

  /** The cursor's literal means the fetched key exactly when the server takes backslashes for plain
      characters, or each of the key's stands before a `%` or a `_`. */
  lemma KeyReadsBackExactly(v: string, d: Dialect)
    ensures ReadLiteral(SqlLiteral(v), d) == Some(v) <==> !d.IsMySqlFamily() || PlainBackslashes(v)
  {
    assert SqlLiteral(v)[1..] == Body(v);
    if d.IsMySqlFamily() {
      EscapedReadsBack(v);
    } else {
      PlainReadsBack(v);
    }
  }

  /** A path as a key: the MySQL family reads a tab in it. */
  lemma PathIsMisread(d: Dialect)
    requires d.IsMySqlFamily()
    ensures ReadLiteral(SqlLiteral("C:\\temp"), d) == Some("C:\temp")
  {
    hide ReadBody, Replace;
    TailIsMisread();
    BodyStep(":\\temp", true);
    BodyStep("C:\\temp", true);
    assert ":\\temp"[1..] == "\\temp" && "C:\\temp"[1..] == ":\\temp";
    assert ":" + "\temp" == ":\temp" && "C" + ":\temp" == "C:\temp";
    assert SqlLiteral("C:\\temp")[1..] == Body("C:\\temp");
  }

  lemma TailIsMisread()
    ensures ReadBody(Body("\\temp"), true) == Some("\temp")
  {
    hide ReadBody, Replace;
    EscapeStep("\\temp");
    assert "\\temp"[2..] == "emp" && PlainBackslashes("emp");
    EscapedReadsBack("emp");
    assert Escaped('t') + "emp" == "\temp";
  }
}
