/** BSL string literals: how they are quoted, which text the lexer reads as one, and what they mean. */
module Quoting {
  import opened Sequences

  const QUOTE := '"'
  const BACKSLASH := '\\'

  /** Every occurrence of `c` replaced. */
  function Replace(s: string, c: char, by_: string): string {
    if s == "" then "" else (if s[0] == c then by_ else [s[0]]) + Replace(s[1..], c, by_)
  }

  function Quote(v: string): string {
    "\"" + Replace(Replace(v, BACKSLASH, "\\\\"), QUOTE, "\\\"") + "\""
  }

  /** The text between the quotes: plain characters and backslash pairs; a pair may not end a line. */
  predicate IsBody(s: string) {
    || s == ""
    || (s[0] != QUOTE && s[0] != BACKSLASH && IsBody(s[1..]))
    || (|s| >= 2 && s[0] == BACKSLASH && s[1] != '\n' && IsBody(s[2..]))
  }

  /** The lexer's rule for a string token. */
  predicate IsStr(s: string) {
    |s| >= 2 && s[0] == QUOTE && s[|s| - 1] == QUOTE && IsBody(s[1..|s| - 1])
  }

  /** What a body means: a backslash pair is its second character, a lone backslash itself. */
  function Unescape(s: string): string {
    if s == "" then ""
    else if s[0] == BACKSLASH then (if |s| == 1 then [BACKSLASH] else [s[1]] + Unescape(s[2..]))
    else [s[0]] + Unescape(s[1..])
  }

  /** The quotes stripped and the pairs decoded, one character at a time. */
  method Unquote(s: string) returns (out: string)
    requires |s| >= 2
    ensures out == Unescape(s[1..|s| - 1])
  {
    hide Unescape;
    var inner := s[1..|s| - 1];
    out := "";
    var i := 0;
    assert inner[0..] == inner;
    while i < |inner|
      invariant i <= |inner| && Unescape(inner) == out + Unescape(inner[i..])
    {
      UnescapeNext(inner, i);
      var c := inner[i];
      i := i + 1;
      if c == BACKSLASH && i < |inner| {
        c := inner[i];
        i := i + 1;
      }
      Regroup(out, [c], Unescape(inner[i..]));
      out := out + [c];
    }
    UnescapeEnds(inner);
  }

  lemma UnescapeEnds(s: string)
    ensures Unescape(s[|s|..]) == ""
  {
    assert s[|s|..] == "";
  }

  lemma UnescapeNext(s: string, i: nat)
    requires i < |s|
    ensures s[i] != BACKSLASH ==> Unescape(s[i..]) == [s[i]] + Unescape(s[i + 1..])
    ensures s[i] == BACKSLASH && i + 1 < |s| ==> Unescape(s[i..]) == [s[i + 1]] + Unescape(s[i + 2..])
    ensures s[i] == BACKSLASH && i + 1 == |s| ==> Unescape(s[i..]) == [BACKSLASH] + Unescape(s[i + 1..])
  {
    assert s[i..][1..] == s[i + 1..];
    if i + 1 < |s| {
      assert s[i..][2..] == s[i + 2..];
    } else {
      assert s[i + 1..] == "";
    }
  }

  // ---------- quoting, character by character ---------------------------------------

  function Escape(v: string): string {
    if v == "" then ""
    else (if v[0] == BACKSLASH || v[0] == QUOTE then [BACKSLASH, v[0]] else [v[0]]) + Escape(v[1..])
  }

  /** Escaping backslashes first keeps the backslashes that the second pass adds single. */
  lemma {:induction false} QuoteEscapes(v: string)
    ensures Replace(Replace(v, BACKSLASH, "\\\\"), QUOTE, "\\\"") == Escape(v)
  {
    if v != "" {
      var rest := Replace(v[1..], BACKSLASH, "\\\\");
      QuoteEscapes(v[1..]);
      if v[0] == BACKSLASH {
        var s := "\\\\" + rest;
        assert Replace(v, BACKSLASH, "\\\\") == s;
        assert s[1..][1..] == rest;
        assert Replace(s, QUOTE, "\\\"") == "\\" + ("\\" + Replace(rest, QUOTE, "\\\""));
      } else {
        var s := [v[0]] + rest;
        assert Replace(v, BACKSLASH, "\\\\") == s;
        assert s[1..] == rest;
      }
    }
  }

  lemma {:induction false} EscapeIsBody(v: string)
    ensures IsBody(Escape(v)) && Unescape(Escape(v)) == v
  {
    if v != "" {
      var rest := Escape(v[1..]);
      EscapeIsBody(v[1..]);
      if v[0] == BACKSLASH || v[0] == QUOTE {
        assert Escape(v)[2..] == rest;
      } else {
        assert Escape(v)[1..] == rest;
      }
    }
  }

  // ---------- the token ends where the literal does ---------------------------------

  /** A body followed by a quote is never the start of a longer body. */
  lemma {:induction false} BodyStopsAtQuote(a: string, rest: string)
    requires IsBody(a)
    ensures !IsBody(a + [QUOTE] + rest)
    decreases |a|
  {
    var s := a + [QUOTE] + rest;
    if a != "" {
      if a[0] == BACKSLASH {
        BodyStopsAtQuote(a[2..], rest);
        assert s[2..] == a[2..] + [QUOTE] + rest;
      } else {
        BodyStopsAtQuote(a[1..], rest);
        assert s[1..] == a[1..] + [QUOTE] + rest;
      }
    }
  }

  /** No string token is the start of another: the lexer has no choice where a string ends. */
  lemma TokenEndIsForced(text: string, m: nat, n: nat)
    requires m <= |text| && n <= |text| && IsStr(text[..m]) && IsStr(text[..n])
    ensures m == n
  {
    if m < n {
      LongerIsNoToken(text, m, n);
    } else if n < m {
      LongerIsNoToken(text, n, m);
    }
  }

  lemma LongerIsNoToken(text: string, m: nat, n: nat)
    requires m < n <= |text| && IsStr(text[..m])
    ensures !IsStr(text[..n])
  {
    var body := text[..m][1..m - 1];
    assert text[..m][m - 1] == text[m - 1] == QUOTE;
    if IsStr(text[..n]) {
      assert text[..n][1..n - 1] == body + [QUOTE] + text[m..n - 1];
      BodyStopsAtQuote(body, text[m..n - 1]);
    }
  }

  /** A quoted value is read as exactly one token, whatever follows it, and means that value. */
  lemma QuotedReadsBack(v: string, rest: string)
    ensures forall n | 0 <= n <= |Quote(v) + rest| :: IsStr((Quote(v) + rest)[..n]) <==> n == |Quote(v)|
    ensures Unescape(Quote(v)[1..|Quote(v)| - 1]) == v
  {
    var q := Quote(v);
    QuoteEscapes(v);
    EscapeIsBody(v);
    assert q[1..|q| - 1] == Escape(v);
    var text := q + rest;
    assert text[..|q|] == q;
    forall n | 0 <= n <= |text|
      ensures IsStr(text[..n]) <==> n == |q|
    {
      if IsStr(text[..n]) {
        TokenEndIsForced(text, n, |q|);
      }
    }
  }

  lemma QuoteIsInjective(v: string, w: string)
    requires Quote(v) == Quote(w)
    ensures v == w
  {
    QuotedReadsBack(v, "");
    QuotedReadsBack(w, "");
  }

  /** A token is the quoted spelling of what it means exactly when it escapes only quotes and backslashes. */
  lemma {:induction false} OnlyNeededEscapes(body: string)
    requires IsBody(body)
    ensures Escape(Unescape(body)) == body <==> NeededEscapesOnly(body)
    decreases |body|
  {
    if body != "" {
      if body[0] == BACKSLASH {
        var rest := Unescape(body[2..]);
        OnlyNeededEscapes(body[2..]);
        assert Unescape(body)[1..] == rest;
        assert body == body[..2] + body[2..];
        if body[1] == QUOTE || body[1] == BACKSLASH {
          assert Escape(Unescape(body)) == [BACKSLASH, body[1]] + Escape(rest);
          assert Escape(Unescape(body))[2..] == Escape(rest);
        }
      } else {
        var rest := Unescape(body[1..]);
        OnlyNeededEscapes(body[1..]);
        assert Unescape(body)[1..] == rest;
        assert Escape(Unescape(body)) == [body[0]] + Escape(rest);
        assert Escape(Unescape(body))[1..] == Escape(rest);
      }
    }
  }

  predicate NeededEscapesOnly(s: string) {
    || s == ""
    || (s[0] != BACKSLASH && NeededEscapesOnly(s[1..]))
    || (|s| >= 2 && s[0] == BACKSLASH && (s[1] == QUOTE || s[1] == BACKSLASH) && NeededEscapesOnly(s[2..]))
  }
}
