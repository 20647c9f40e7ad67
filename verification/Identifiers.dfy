/** BSL spellings for physical names: splitting a name into words and joining them as the lexer wants. */
module Identifiers {
  import opened Digits
  import opened Sequences
  import opened Ascii

  // ---------- words -----------------------------------------------------------------

  function HexText(n: nat): (s: string)
    ensures s != "" && Clean(s)
  {
    var last := [HexChar(n % 16)];
    if n < 16 then last else HexText(n / 16) + last
  }

  predicate IsCleanChar(c: char) { IsLower(c) || IsDigit(c) }

  /** Small letters and digits only. */
  predicate Clean(s: string) { forall i | 0 <= i < |s| :: IsCleanChar(s[i]) }

  predicate CleanWords(ws: seq<string>) { forall i | 0 <= i < |ws| :: ws[i] != "" && Clean(ws[i]) }

  /** A new word starts at a capital after a small letter or digit, or before a small letter in a run of capitals. */
  predicate StartsWord(name: string, i: nat)
    requires i < |name|
  {
    && IsUpper(name[i]) && i > 0
    && (IsCleanChar(name[i - 1]) || (IsUpper(name[i - 1]) && i + 1 < |name| && IsLower(name[i + 1])))
  }

  function Flushed(word: string): seq<string> { if word == "" then [] else [Lower(word)] }

  function CodeWord(c: char): seq<string> { if c as int < 128 then [] else ["u" + HexText(c as int)] }

  /** The words that end before or at a character, a word being under way. */
  function Ended(name: string, i: nat, word: string): seq<string>
    requires i < |name|
  {
    if !IsAlnum(name[i]) then Flushed(word) + CodeWord(name[i])
    else if word != "" && StartsWord(name, i) then Flushed(word)
    else []
  }

  /** The word under way after a character. */
  function Carried(name: string, i: nat, word: string): string
    requires i < |name|
  {
    if !IsAlnum(name[i]) then "" else if word != "" && StartsWord(name, i) then [name[i]] else word + [name[i]]
  }

  /** The words of a name from a position on, a word being under way. */
  function WordsFrom(name: string, i: nat, word: string): seq<string>
    requires i <= |name|
    decreases |name| - i
  {
    if i == |name| then Flushed(word)
    else Ended(name, i, word) + WordsFrom(name, i + 1, Carried(name, i, word))
  }

  function Words(name: string): seq<string> { WordsFrom(name, 0, "") }

  method SplitWords(name: string) returns (words: seq<string>)
    ensures words == Words(name)
  {
    hide WordsFrom, Lower, HexText, IsAlnum, StartsWord;
    words := [];
    var word := "";
    var i := 0;
    while i < |name|
      invariant i <= |name| && words + WordsFrom(name, i, word) == Words(name)
    {
      ghost var rest := WordsFrom(name, i + 1, Carried(name, i, word));
      Unfold(name, i, word);
      Regroup(words, Ended(name, i, word), rest);
      ghost var before, under := words, word;
      if IsAlnum(name[i]) {
        if word != "" && StartsWord(name, i) {
          words := words + [Lower(word)];
          word := "";
        }
        word := word + [name[i]];
      } else {
        if word != "" {
          words := words + [Lower(word)];
          word := "";
        }
        if name[i] as int >= 128 {
          words := words + ["u" + HexText(name[i] as int)];
        }
      }
      assert words == before + Ended(name, i, under) && word == Carried(name, i, under);
      i := i + 1;
    }
    Unfolded(name, word);
    if word != "" {
      words := words + [Lower(word)];
    }
  }

  lemma Unfolded(name: string, word: string)
    ensures WordsFrom(name, |name|, word) == Flushed(word)
  {
  }

  lemma Unfold(name: string, i: nat, word: string)
    requires i < |name|
    ensures WordsFrom(name, i, word) == Ended(name, i, word) + WordsFrom(name, i + 1, Carried(name, i, word))
  {
  }

  predicate AllAlnum(s: string) { forall i | 0 <= i < |s| :: IsAlnum(s[i]) }

  lemma FlushedIsClean(word: string)
    requires AllAlnum(word)
    ensures CleanWords(Flushed(word))
  {
  }

  lemma CodeIsClean(c: char)
    ensures CleanWords(CodeWord(c))
  {
  }

  lemma EndedIsClean(name: string, i: nat, word: string)
    requires i < |name| && AllAlnum(word)
    ensures CleanWords(Ended(name, i, word)) && AllAlnum(Carried(name, i, word))
  {
    FlushedIsClean(word);
    CodeIsClean(name[i]);
    hide Lower, Flushed, CodeWord, Clean, StartsWord;
  }

  lemma {:induction false} WordsAreClean(name: string, i: nat, word: string)
    requires i <= |name| && AllAlnum(word)
    ensures CleanWords(WordsFrom(name, i, word))
    decreases |name| - i
  {
    hide Ended, Carried, Clean, AllAlnum;
    if i == |name| {
      FlushedIsClean(word);
    } else {
      EndedIsClean(name, i, word);
      WordsAreClean(name, i + 1, Carried(name, i, word));
    }
  }

  function Join(ws: seq<string>, separator: string): string {
    if ws == [] then "" else if |ws| == 1 then ws[0] else ws[0] + separator + Join(ws[1..], separator)
  }

  /** What a name spells: its letters and digits made small, and the code of every other non-ASCII character. */
  function Letters(name: string): string {
    if name == "" then ""
    else (if IsAlnum(name[0]) then [LowerChar(name[0])] else Join(CodeWord(name[0]), "")) + Letters(name[1..])
  }

  lemma {:induction false} JoinAppends(a: seq<string>, b: seq<string>)
    ensures Join(a + b, "") == Join(a, "") + Join(b, "")
  {
    if a == [] {
      assert a + b == b;
    } else {
      assert (a + b)[1..] == a[1..] + b;
      JoinAppends(a[1..], b);
      if |a| == 1 && b != [] {
        assert (a + b)[1..] == b;
      }
    }
  }

  /** What one character adds to the spelling. */
  lemma OneCharacter(name: string, i: nat, word: string)
    requires i < |name|
    ensures Join(Ended(name, i, word), "") + Lower(Carried(name, i, word)) == Lower(word) + Letters([name[i]])
  {
    var c := name[i];
    hide StartsWord, HexText;
    JoinAppends(Flushed(word), CodeWord(c));
    assert [c][1..] == "" && Lower([c]) == [LowerChar(c)] && Lower("") == "";
    LowerJoins(word, [c]);
  }

  lemma {:induction false} LettersAppend(a: string, b: string)
    ensures Letters(a + b) == Letters(a) + Letters(b)
  {
    hide CodeWord;
    if a == "" {
      assert a + b == b;
    } else {
      assert (a + b)[1..] == a[1..] + b;
      LettersAppend(a[1..], b);
    }
  }

  /** Splitting loses no letter and adds none: the words, put together, spell the name. */
  lemma {:induction false} WordsSpellTheName(name: string, i: nat, word: string)
    requires i <= |name|
    ensures Join(WordsFrom(name, i, word), "") == Lower(word) + Letters(name[i..])
    decreases |name| - i
  {
    hide Ended, Carried, Lower, Join, Letters, WordsFrom;
    if i == |name| {
      SpellingEnds(name, word);
    } else {
      var carried := Carried(name, i, word);
      var ended := Ended(name, i, word);
      OneCharacter(name, i, word);
      Unfold(name, i, word);
      JoinAppends(ended, WordsFrom(name, i + 1, carried));
      LettersFirst(name, i);
      WordsSpellTheName(name, i + 1, carried);
      Chain(Join(ended, ""), Lower(carried), Letters(name[i + 1..]), Lower(word), Letters([name[i]]));
    }
  }

  lemma LettersFirst(name: string, i: nat)
    requires i < |name|
    ensures Letters(name[i..]) == Letters([name[i]]) + Letters(name[i + 1..])
  {
    hide Letters;
    assert name[i..] == [name[i]] + name[i + 1..];
    LettersAppend([name[i]], name[i + 1..]);
  }

  lemma SpellingEnds(name: string, word: string)
    ensures Join(WordsFrom(name, |name|, word), "") == Lower(word) + Letters(name[|name|..])
  {
    assert name[|name|..] == "";
  }

  lemma Chain(a: string, b: string, c: string, d: string, e: string)
    requires a + b == d + e
    ensures a + (b + c) == d + (e + c)
  {
    assert a + (b + c) == (a + b) + c;
    assert d + (e + c) == (d + e) + c;
  }

  // ---------- model and field names -------------------------------------------------

  const RESERVED: set<string> := {
    "id", "text", "int", "float", "decimal", "bool", "timestamp", "date", "time", "json", "bytes", "uuid", "ulid",
    "serial", "query", "mutation", "shape", "scope", "enum", "filter", "from", "where", "list", "get", "create",
    "update", "delete", "true", "false", "null", "raw", "default", "unique", "column"
  }

  predicate Reserved(name: string) { Lower(name) in RESERVED }

  predicate NeedsPrefix(name: string) { name == "" || IsDigit(name[0]) || Reserved(name) }

  function Capital(word: string): string { if word == "" then "" else [UpperChar(word[0])] + word[1..] }

  function Capitals(ws: seq<string>): string {
    if ws == [] then "" else Capital(ws[0]) + Capitals(ws[1..])
  }

  function Model(name: string): string {
    var base := Capitals(Words(name));
    if NeedsPrefix(base) then "Imported" + base else base
  }

  function Field(name: string): string {
    var base := Join(Words(name), "_");
    if NeedsPrefix(base) then "imported_" + base else base
  }

  /** The lexer's two identifier rules. */
  predicate IsUpperIdent(s: string) { s != "" && IsUpper(s[0]) && AllAlnum(s) }

  predicate IsLowerIdent(s: string) {
    s != "" && (IsLower(s[0]) || s[0] == '_') && forall i | 0 <= i < |s| :: IsAlnum(s[i]) || s[i] == '_'
  }

  lemma {:induction false} CapitalsAreAlnum(ws: seq<string>)
    requires CleanWords(ws)
    ensures AllAlnum(Capitals(ws))
    ensures ws != [] ==> Capitals(ws) != "" && (IsUpper(Capitals(ws)[0]) || IsDigit(Capitals(ws)[0]))
  {
    if ws != [] {
      CapitalsAreAlnum(ws[1..]);
    }
  }

  predicate IsFieldText(s: string) { forall i | 0 <= i < |s| :: IsCleanChar(s[i]) || s[i] == '_' }

  lemma {:induction false} JoinIsFieldText(ws: seq<string>)
    requires CleanWords(ws)
    ensures IsFieldText(Join(ws, "_"))
    ensures ws != [] ==> Join(ws, "_") != "" && IsCleanChar(Join(ws, "_")[0])
  {
    if |ws| > 1 {
      JoinIsFieldText(ws[1..]);
    }
  }

  /** No reserved word starts as the prefixes do, or holds a digit. */
  lemma ReservedShapes(s: string)
    requires Reserved(s)
    ensures |s| >= 2 && !(LowerChar(s[0]) == 'i' && LowerChar(s[1]) == 'm')
    ensures !IsDigit(s[|s| - 1])
  {
    var l := Lower(s);
    assert l[0] == LowerChar(s[0]) && l[|s| - 1] == LowerChar(s[|s| - 1]);
  }

  lemma PrefixedIsNotReserved(s: string)
    requires |s| >= 2 && LowerChar(s[0]) == 'i' && LowerChar(s[1]) == 'm'
    ensures !Reserved(s)
  {
    if Reserved(s) {
      ReservedShapes(s);
    }
  }

  /** Every model name is one upper-case identifier token and not a word of the language. */
  lemma ModelIsUpperIdent(name: string)
    ensures IsUpperIdent(Model(name)) && !Reserved(Model(name))
  {
    hide Reserved, Words, Capitals;
    NamesMadeOfWords(name);
    var base := Capitals(Words(name));
    if NeedsPrefix(base) {
      PrefixedIsNotReserved("Imported" + base);
    }
  }

  lemma NamesMadeOfWords(name: string)
    ensures var base := Capitals(Words(name)); AllAlnum(base) && (base != "" ==> IsUpper(base[0]) || IsDigit(base[0]))
    ensures var base := Join(Words(name), "_"); IsFieldText(base) && (base != "" ==> IsCleanChar(base[0]))
  {
    WordsAreClean(name, 0, "");
    CapitalsAreAlnum(Words(name));
    JoinIsFieldText(Words(name));
    hide Words, CleanWords, AllAlnum, IsFieldText;
  }

  /** Every field name is one lower-case identifier token and not a word of the language. */
  lemma FieldIsLowerIdent(name: string)
    ensures IsLowerIdent(Field(name)) && !Reserved(Field(name))
  {
    hide Reserved, Words, Join, IsLowerIdent, IsFieldText;
    NamesMadeOfWords(name);
    var base := Join(Words(name), "_");
    if NeedsPrefix(base) {
      PrefixedIsNotReserved("imported_" + base);
      PrefixedIsLowerIdent(base);
    } else {
      FieldTextIsLowerIdent(base);
    }
  }

  lemma PrefixedIsLowerIdent(base: string)
    requires IsFieldText(base)
    ensures IsLowerIdent("imported_" + base)
  {
    assert IsFieldText("imported_");
  }

  lemma FieldTextIsLowerIdent(base: string)
    requires IsFieldText(base) && base != "" && IsCleanChar(base[0]) && !IsDigit(base[0])
    ensures IsLowerIdent(base)
  {
  }

  // ---------- naming a name again ---------------------------------------------------

  /** Splitting at underscores alone. */
  function SplitAt(s: string, word: string): seq<string> {
    if s == "" then Flushed(word)
    else if s[0] == '_' then Flushed(word) + SplitAt(s[1..], "")
    else SplitAt(s[1..], word + [s[0]])
  }

  lemma {:induction false} FieldTextSplits(s: string, i: nat, word: string)
    requires i <= |s| && IsFieldText(s)
    ensures WordsFrom(s, i, word) == SplitAt(s[i..], word)
    decreases |s| - i
  {
    if i < |s| {
      assert s[i..][1..] == s[i + 1..];
      if IsCleanChar(s[i]) {
        FieldTextSplits(s, i + 1, word + [s[i]]);
        assert Ended(s, i, word) == [];
      } else {
        FieldTextSplits(s, i + 1, "");
        assert Ended(s, i, word) == Flushed(word);
      }
    }
  }

  lemma {:induction false} SplitTakesWord(w: string, rest: string, word: string)
    requires Clean(w)
    ensures SplitAt(w + rest, word) == SplitAt(rest, word + w)
  {
    if w == "" {
      assert w + rest == rest && word + w == word;
    } else {
      assert (w + rest)[1..] == w[1..] + rest;
      SplitTakesWord(w[1..], rest, word + [w[0]]);
      assert word + [w[0]] + w[1..] == word + w;
    }
  }

  lemma {:induction false} SplitUndoesJoin(ws: seq<string>)
    requires CleanWords(ws)
    ensures SplitAt(Join(ws, "_"), "") == ws
  {
    if ws != [] {
      var w := ws[0];
      var rest := if |ws| == 1 then "" else "_" + Join(ws[1..], "_");
      assert SplitAt(Join(ws, "_"), "") == SplitAt(rest, w) by {
        JoinFirst(ws);
        SplitTakesWord(w, rest, "");
        assert "" + w == w;
      }
      assert Flushed(w) == [w] by {
        LowerClean(w);
      }
      if |ws| > 1 {
        SplitUndoesJoin(ws[1..]);
        assert rest[1..] == Join(ws[1..], "_");
      }
      assert ws == [w] + ws[1..];
    }
  }

  lemma JoinFirst(ws: seq<string>)
    requires ws != []
    ensures Join(ws, "_") == ws[0] + if |ws| == 1 then "" else "_" + Join(ws[1..], "_")
  {
  }

  lemma LowerClean(w: string)
    requires Clean(w)
    ensures Lower(w) == w
  {
  }

  /** Splitting what was joined gives the words back. */
  lemma WordsOfJoined(ws: seq<string>)
    requires CleanWords(ws)
    ensures Words(Join(ws, "_")) == ws
  {
    var s := Join(ws, "_");
    JoinIsFieldText(ws);
    FieldTextSplits(s, 0, "");
    assert s[0..] == s;
    SplitUndoesJoin(ws);
  }

  lemma WordsOfPrefixed(ws: seq<string>)
    requires CleanWords(ws) && ws != []
    ensures Words("imported_" + Join(ws, "_")) == ["imported"] + ws
    ensures Join(["imported"] + ws, "_") == "imported_" + Join(ws, "_")
  {
    var all := ["imported"] + ws;
    assert all[1..] == ws;
    JoinFirst(all);
    assert "imported" + "_" == "imported_";
    WordsOfJoined(all);
    hide Words, Join;
  }

  lemma FieldNeedsNoPrefix(name: string)
    ensures !NeedsPrefix(Field(name))
  {
    hide Reserved, Field;
    FieldIsLowerIdent(name);
  }

  lemma NamelessField(name: string)
    requires Words(name) == []
    ensures Field(name) == "imported_"
  {
    hide Words, Reserved;
    assert "imported_" + "" == "imported_";
  }

  lemma WordsClean(name: string)
    ensures CleanWords(Words(name))
  {
    WordsAreClean(name, 0, "");
    hide CleanWords;
  }

  /** Naming a field name again changes nothing, except for a name without a single word. */
  lemma FieldIsIdempotent(name: string)
    ensures Field(Field(name)) == Field(name) <==> Words(name) != []
  {
    hide Words, NeedsPrefix, Join;
    var ws := Words(name);
    WordsClean(name);
    FieldNeedsNoPrefix(name);
    if ws == [] {
      NamelessField(name);
      NoWordsNames();
    } else if NeedsPrefix(Join(ws, "_")) {
      WordsOfPrefixed(ws);
    } else {
      WordsOfJoined(ws);
    }
  }

  lemma WordBeforeUnderscore(w: string)
    requires Clean(w) && w != ""
    ensures Words(w + "_") == [w]
  {
    FieldTextSplits(w + "_", 0, "");
    assert (w + "_")[0..] == w + "_";
    SplitTakesWord(w, "_", "");
    assert "" + w == w && Lower(w) == w && "_"[1..] == "";
  }

  /** The prefix alone loses its underscore. */
  lemma NoWordsNames()
    ensures Field("imported_") == "imported" != "imported_"
  {
    hide Words, Reserved, Join;
    assert "imported" + "_" == "imported_";
    WordBeforeUnderscore("imported");
    JoinFirst(["imported"]);
    assert "imported" + "" == "imported";
    PrefixedIsNotReserved("imported");
  }
}
