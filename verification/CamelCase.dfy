/** Where names written in capitals are cut into words: splitting undoes writing words with capital
    letters, except where a capital stands alone. */
module CamelCase {
  import opened Sequences
  import opened Ascii
  import opened Identifiers

  /** Words that each begin with a letter. */
  predicate LetterWords(ws: seq<string>) { forall i | 0 <= i < |ws| :: LetterWord(ws[i]) }

  predicate LetterWord(w: string) { w != "" && Clean(w) && IsLower(w[0]) }

  /** Between the words a cut can be seen: small letters or digits end the first one, or a small
      letter follows the capital of the second. */
  predicate Apart(last: string, next: string) { |last| > 1 || (|next| > 1 && IsLower(next[1])) }

  predicate AllApart(ws: seq<string>) { forall i | 0 <= i < |ws| - 1 :: Apart(ws[i], ws[i + 1]) }

  /** The words as they are told apart, `word` under way and `last` its last piece. */
  function Told(word: string, last: string, rest: seq<string>): seq<string>
    decreases |rest|
  {
    if rest == [] then [word]
    else if Apart(last, rest[0]) then [word] + Told(rest[0], rest[0], rest[1..])
    else Told(word + rest[0], rest[0], rest[1..])
  }

  /** Small letters and digits go on with the word under way. */
  lemma {:induction false} CleanGoesOn(name: string, i: nat, k: nat, word: string)
    requires i + k <= |name| && word != "" && forall j | i <= j < i + k :: IsCleanChar(name[j])
    ensures WordsFrom(name, i, word) == WordsFrom(name, i + k, word + name[i..i + k])
    decreases k
  {
    hide WordsFrom;
    if k == 0 {
      assert word + name[i..i] == word;
    } else {
      Unfold(name, i, word);
      CleanCarried(name, i, word);
      hide Ended, Carried, IsCleanChar;
      CleanGoesOn(name, i + 1, k - 1, word + [name[i]]);
      assert word + [name[i]] + name[i + 1..i + k] == word + name[i..i + k];
    }
  }

  lemma CleanCarried(name: string, i: nat, word: string)
    requires i < |name| && IsCleanChar(name[i])
    ensures Ended(name, i, word) == [] && Carried(name, i, word) == word + [name[i]]
  {
  }

  lemma LowerUpper(c: char)
    ensures IsLower(c) ==> IsUpper(UpperChar(c)) && LowerChar(UpperChar(c)) == c
    ensures IsCleanChar(c) ==> LowerChar(c) == c
  {
  }

  lemma LowerCapital(w: string)
    requires LetterWord(w)
    ensures |Capital(w)| == |w| && IsUpper(Capital(w)[0]) && Lower(Capital(w)) == w
    ensures forall j | 1 <= j < |w| :: Capital(w)[j] == w[j]
  {
    LowerUpper(w[0]);
    hide LowerChar, UpperChar, IsLower, IsCleanChar;
    var l := Lower(Capital(w));
    forall j | 0 <= j < |w|
      ensures l[j] == w[j]
    {
      LowerUpper(w[j]);
    }
    assert l == w;
  }

  /** The character before the next word's capital. */
  predicate EndsWith(c: char, last: string)
    requires last != ""
  {
    if |last| == 1 then IsUpper(c) else IsCleanChar(c)
  }

  /** The text of the remaining words, and its second character. */
  lemma SecondCharacter(rest: seq<string>)
    requires rest != [] && LetterWords(rest)
    ensures |Capitals(rest)| >= |rest[0]| >= 1 && IsUpper(Capitals(rest)[0])
    ensures Capitals(rest)[..|rest[0]|] == Capital(rest[0]) && Capitals(rest)[|rest[0]|..] == Capitals(rest[1..])
    ensures |Capitals(rest)| > 1 && IsLower(Capitals(rest)[1]) <==> |rest[0]| > 1 && IsLower(rest[0][1])
  {
    var next := rest[0];
    assert LetterWord(next);
    LowerCapital(next);
    Behind(Capital(next), Capitals(rest[1..]));
    if |next| == 1 && |rest| > 1 {
      assert LetterWord(rest[1]) && rest[1..][0] == rest[1];
      LowerCapital(rest[1]);
      assert Capitals(rest)[1] == Capitals(rest[1..])[0] == Capital(rest[1])[0];
    }
  }

  lemma CutHere(name: string, i: nat, last: string, rest: seq<string>)
    requires 0 < i < |name| && rest != [] && LetterWords(rest) && name[i..] == Capitals(rest)
    requires last != "" && EndsWith(name[i - 1], last)
    ensures StartsWord(name, i) <==> Apart(last, rest[0])
    ensures IsUpper(name[i]) && name[i..][..|rest[0]|] == Capital(rest[0]) && |rest[0]| <= |name| - i
    ensures name[i + |rest[0]|..] == Capitals(rest[1..])
  {
    SecondCharacter(rest);
    hide Capitals, Capital, LetterWords;
    assert name[i] == name[i..][0];
    assert i + 1 < |name| ==> name[i + 1] == name[i..][1];
    assert name[i + |rest[0]|..] == name[i..][|rest[0]|..];
  }

  lemma Behind(a: string, b: string)
    ensures (a + b)[..|a|] == a && (a + b)[|a|..] == b
  {
  }

  lemma {:induction false} ToldFrom(name: string, i: nat, word: string, last: string, rest: seq<string>)
    requires 0 < i <= |name| && LetterWords(rest) && name[i..] == Capitals(rest)
    requires word != "" && last != "" && EndsWith(name[i - 1], last)
    ensures WordsFrom(name, i, word) == Told(Lower(word), last, rest)
    decreases |rest|
  {
    if rest == [] {
      assert i == |name|;
    } else {
      var next := rest[0];
      CutHere2(name, i, last, rest);
      CutHere(name, i, last, rest);
      PieceGoesOn(name, i, word, last, next);
      assert LetterWords(rest[1..]);
      hide WordsFrom, StartsWord, Capitals, Lower;
      ToldFrom(name, i + |next|, if Apart(last, next) then Capital(next) else word + Capital(next), next, rest[1..]);
    }
  }

  /** One capital word of the name, started anew or taken into the word under way. */
  lemma PieceGoesOn(name: string, i: nat, word: string, last: string, next: string)
    requires i < |name| && LetterWord(next) && |next| <= |name| - i && name[i..][..|next|] == Capital(next) && word != ""
    requires StartsWord(name, i) <==> Apart(last, next)
    ensures var whole := if Apart(last, next) then Capital(next) else word + Capital(next);
            && whole != "" && Lower(whole) == (if Apart(last, next) then next else Lower(word) + next)
            && WordsFrom(name, i, word) == (if Apart(last, next) then [Lower(word)] else []) + WordsFrom(name, i + |next|, whole)
    ensures EndsWith(name[i + |next| - 1], next)
  {
    hide WordsFrom, StartsWord, Lower, Ended, Carried, IsCleanChar, Capital;
    LowerCapital(next);
    LowerJoins(word, Capital(next));
    Unfold(name, i, word);
    PieceAt(name, i, next);
    CapitalCarried(name, i, word);
    var carried := if Apart(last, next) then [name[i]] else word + [name[i]];
    CleanGoesOn(name, i + 1, |next| - 1, carried);
    assert [name[i]] + name[i + 1..i + |next|] == Capital(next);
    assert word + [name[i]] + name[i + 1..i + |next|] == word + Capital(next);
  }

  /** The piece's own characters. */
  lemma PieceAt(name: string, i: nat, next: string)
    requires i < |name| && LetterWord(next) && |next| <= |name| - i && name[i..][..|next|] == Capital(next)
    ensures IsUpper(name[i]) && name[i..i + |next|] == Capital(next)
    ensures forall j | i < j < i + |next| :: IsCleanChar(name[j])
    ensures EndsWith(name[i + |next| - 1], next)
  {
    LowerCapital(next);
    hide Lower, Capital, LowerChar;
    assert name[i..i + |next|] == Capital(next);
    forall j | i <= j < i + |next|
      ensures name[j] == Capital(next)[j - i]
    {
      assert name[j] == name[i..i + |next|][j - i];
    }
  }

  lemma CapitalCarried(name: string, i: nat, word: string)
    requires i < |name| && IsUpper(name[i]) && word != ""
    ensures Carried(name, i, word) == if StartsWord(name, i) then [name[i]] else word + [name[i]]
    ensures Ended(name, i, word) == if StartsWord(name, i) then [Lower(word)] else []
  {
    hide StartsWord, Lower;
  }

  lemma CutHere2(name: string, i: nat, last: string, rest: seq<string>)
    requires i <= |name| && rest != [] && LetterWords(rest) && name[i..] == Capitals(rest)
    ensures i < |name|
  {
    assert LetterWord(rest[0]);
    LowerCapital(rest[0]);
  }

  /** Splitting words written with capitals: they come back as they can be told apart. */
  lemma WordsOfCamel(ws: seq<string>)
    requires LetterWords(ws) && ws != []
    ensures Words(Capitals(ws)) == Told(ws[0], ws[0], ws[1..])
  {
    var name, w := Capitals(ws), ws[0];
    assert LetterWord(w) && LetterWords(ws[1..]);
    LowerCapital(w);
    Behind(Capital(w), Capitals(ws[1..]));
    assert name[0..] == name && name[0..][..|w|] == Capital(w);
    PieceAt(name, 0, w);
    hide WordsFrom, Lower, Capital, Capitals, IsCleanChar;
    Unfold(name, 0, "");
    FirstCarried(name);
    CleanGoesOn(name, 1, |w| - 1, [name[0]]);
    assert [name[0]] + name[1..|w|] == name[0..|w|];
    ToldFrom(name, |w|, Capital(w), w, ws[1..]);
  }

  lemma FirstCarried(name: string)
    requires name != "" && IsUpper(name[0])
    ensures Ended(name, 0, "") == [] && Carried(name, 0, "") == [name[0]]
  {
  }

  lemma {:induction false} ToldCount(word: string, last: string, rest: seq<string>)
    ensures |Told(word, last, rest)| <= 1 + |rest|
    ensures |Told(word, last, rest)| == 1 + |rest| <==> AllApart([last] + rest)
    ensures AllApart([last] + rest) ==> Told(word, last, rest) == [word] + rest
    decreases |rest|
  {
    var ws := [last] + rest;
    if rest != [] {
      ToldCount(if Apart(last, rest[0]) then rest[0] else word + rest[0], rest[0], rest[1..]);
      assert [rest[0]] + rest[1..] == rest;
      assert AllApart(ws) <==> Apart(last, rest[0]) && AllApart(rest) by {
        ApartCons(last, rest);
      }
    }
  }

  lemma ApartCons(last: string, rest: seq<string>)
    requires rest != []
    ensures AllApart([last] + rest) <==> Apart(last, rest[0]) && AllApart(rest)
  {
    var ws := [last] + rest;
    if AllApart(ws) {
      assert Apart(ws[0], ws[1]);
      forall i | 0 <= i < |rest| - 1
        ensures Apart(rest[i], rest[i + 1])
      {
        assert Apart(ws[i + 1], ws[i + 2]);
      }
    }
    if Apart(last, rest[0]) && AllApart(rest) {
      forall i | 0 <= i < |ws| - 1
        ensures Apart(ws[i], ws[i + 1])
      {
        assert i > 0 ==> Apart(rest[i - 1], rest[i]);
      }
    }
  }

  /** Splitting undoes writing words with capitals exactly when each can be told from the next. */
  lemma CamelSplitsExactly(ws: seq<string>)
    requires LetterWords(ws) && ws != []
    ensures Words(Capitals(ws)) == ws <==> AllApart(ws)
  {
    WordsOfCamel(ws);
    ToldCount(ws[0], ws[0], ws[1..]);
    assert ws == [ws[0]] + ws[1..];
  }

  /** A run of capitals is a word of its own, up to the last of them when a small letter follows. */
  lemma AcronymThenWord(run: string, next: string)
    requires run != "" && (forall i | 0 <= i < |run| :: IsLower(run[i])) && LetterWord(next) && |next| > 1 && IsLower(next[1])
    ensures Words(Capitals(Singles(run) + [next])) == [run, next]
    ensures Capitals(Singles(run)) == seq(|run|, i requires 0 <= i < |run| => UpperChar(run[i]))
  {
    var ws := Singles(run) + [next];
    assert LetterWords(ws) && ws[0] == [run[0]];
    WordsOfCamel(ws);
    assert ws[1..] == Singles(run[1..]) + [next];
    SinglesFuse([run[0]], [run[0]], run[1..], next);
    assert [run[0]] + run[1..] == run;
    SinglesCapitals(run);
  }

  function Singles(run: string): seq<string> { seq(|run|, i requires 0 <= i < |run| => [run[i]]) }

  lemma {:induction false} SinglesFuse(word: string, last: string, run: string, next: string)
    requires |last| == 1 && |next| > 1 && IsLower(next[1])
    ensures Told(word, last, Singles(run) + [next]) == [word + run, next]
    decreases |run|
  {
    var rest := Singles(run) + [next];
    if run == "" {
      assert rest == [next] && word + run == word;
      assert Told(next, next, []) == [next];
    } else {
      assert rest[0] == [run[0]] && rest[1..] == Singles(run[1..]) + [next];
      SinglesFuse(word + [run[0]], [run[0]], run[1..], next);
      assert word + [run[0]] + run[1..] == word + run;
    }
  }

  lemma {:induction false} SinglesCapitals(run: string)
    ensures Capitals(Singles(run)) == seq(|run|, i requires 0 <= i < |run| => UpperChar(run[i]))
  {
    if run != "" {
      assert Singles(run)[1..] == Singles(run[1..]);
      SinglesCapitals(run[1..]);
      assert Capital([run[0]]) == [UpperChar(run[0])];
    }
  }
}
