/** Every tree the parser can produce is one the printer can print, and no token sequence shorter
    than the printed one parses to the same tree. */
module ExprShortest {
  import opened Wrappers
  import opened ExprTree
  import opened ExprParser
  import opened ExprRoundTrip

  /** The lexer's number tokens carry no sign. */
  predicate Lexed(toks: Tokens) { forall i | 0 <= i < |toks| && toks[i].Float? :: toks[i].text == "" || toks[i].text[0] != '-' }

  /** What is left is the end of what there was. */
  predicate Suffix(rest: Tokens, toks: Tokens) { |rest| <= |toks| && rest == toks[|toks| - |rest|..] }

  lemma SuffixTrans(a: Tokens, b: Tokens, c: Tokens)
    requires Suffix(a, b) && Suffix(b, c)
    ensures Suffix(a, c)
  {
  }

  lemma SuffixLexed(rest: Tokens, toks: Tokens)
    requires Suffix(rest, toks) && Lexed(toks)
    ensures Lexed(rest)
  {
  }

  /** What is left after the first token, and after a closing token. */
  lemma Later(rest: Tokens, toks: Tokens)
    requires toks != [] && Suffix(rest, toks[1..])
    ensures Suffix(rest, toks)
    ensures rest != [] ==> Suffix(rest[1..], toks)
  {
  }

  lemma Drop(rest: Tokens, toks: Tokens)
    requires rest != [] && Suffix(rest, toks)
    ensures Suffix(rest[1..], toks)
  {
  }

  // ---------- values ----------------------------------------------------------------

  lemma {:induction false} FieldsCost(acc: Path, toks: Tokens)
    requires Fields(acc, toks).Ok?
    ensures var r := Fields(acc, toks);
            && acc <= r.value && Suffix(r.rest, toks)
            && |toks| - |r.rest| == 2 * (|r.value| - |acc|)
    decreases |toks|
  {
    if At(toks, Dot) {
      FieldsCost(acc + [toks[1].text], toks[2..]);
    }
  }

  lemma {:induction false} FieldsLength(fields: Path)
    ensures |FieldsT(fields)| == 2 * |fields|
    decreases |fields|
  {
    if fields != [] {
      FieldsLength(fields[1..]);
    }
  }

  predicate ValueCosts(toks: Tokens, v: Value, rest: Tokens) {
    && GoodValue(v) && Suffix(rest, toks) && |ValueT(v)| <= |toks| - |rest|
    && (Operand(toks) ==> Operand(ValueT(v)))
    && (AtKw(ValueT(v), "case") ==> AtKw(toks, "case"))
  }

  lemma ParamCost(toks: Tokens)
    requires ParseValue(toks).Ok? && toks[0].Dollar?
    ensures ValueCosts(toks, ParseValue(toks).value, ParseValue(toks).rest)
  {
    hide Fields, FieldsT;
    FieldsCost([], toks[2..]);
    var fields := Fields([], toks[2..]);
    FieldsLength(fields.value);
    assert Suffix(fields.rest, toks);
  }

  lemma PathCost(toks: Tokens)
    requires ParseValue(toks).Ok? && toks[0].Lower? && !Keyword(toks[0].text) && !At(toks[1..], LParen)
    ensures ValueCosts(toks, ParseValue(toks).value, ParseValue(toks).rest)
  {
    hide Fields, FieldsT;
    FieldsCost([toks[0].text], toks[1..]);
    var path := Fields([toks[0].text], toks[1..]);
    FieldsLength(path.value[1..]);
    assert path.value[0] == toks[0].text;
    assert Suffix(path.rest, toks);
  }

  lemma FuncCost(toks: Tokens)
    requires ParseValue(toks).Ok? && toks[0].Lower? && !Keyword(toks[0].text) && At(toks[1..], LParen)
    requires var r := CallArgs(toks[1..]);
             r.Ok? && GoodList(r.value) && Suffix(r.rest, toks[1..]) && |ListT(r.value)| + 2 <= |toks[1..]| - |r.rest|
    ensures ValueCosts(toks, ParseValue(toks).value, ParseValue(toks).rest)
  {
    hide CallArgs, ListT;
    assert Suffix(toks[1..], toks);
  }

  lemma {:induction false} ValueCost(toks: Tokens)
    requires ParseValue(toks).Ok? && Lexed(toks)
    ensures ValueCosts(toks, ParseValue(toks).value, ParseValue(toks).rest)
    decreases |toks|, 0
  {
    match toks[0]
    case Dollar => ParamCost(toks);
    case Lower(name) =>
      if !Keyword(name) {
        if At(toks[1..], LParen) {
          ArgsCost(toks[1..]);
          FuncCost(toks);
        } else {
          PathCost(toks);
        }
      }
    case _ =>
  }

  lemma {:induction false} ArgsCost(toks: Tokens)
    requires CallArgs(toks).Ok? && Lexed(toks)
    ensures var r := CallArgs(toks);
            GoodList(r.value) && Suffix(r.rest, toks) && |ListT(r.value)| + 2 <= |toks| - |r.rest|
    decreases |toks|, 1
  {
    if At(toks[1..], RParen) {
      NoArgs(toks);
    } else {
      hide ValueList, Suffix, Lexed, ListT, GoodList;
      DropLexed(toks);
      NoneYet();
      ListCost([], toks[1..]);
      var r := ValueList([], toks[1..]);
      assert r.value[0..] == r.value;
      Later(r.rest, toks);
    }
  }

  lemma NoArgs(toks: Tokens)
    requires |toks| >= 2
    ensures Suffix(toks[2..], toks) && |ListT([])| == 0 && GoodList([])
  {
  }

  lemma NoneYet()
    ensures GoodList([])
  {
  }

  lemma {:induction false} ListCost(acc: seq<Value>, toks: Tokens)
    requires ValueList(acc, toks).Ok? && Lexed(toks) && GoodList(acc)
    ensures var r := ValueList(acc, toks);
            && GoodList(r.value) && |r.value| > |acc| && acc <= r.value
            && Suffix(r.rest, toks) && |ListT(r.value[|acc|..])| <= |toks| - |r.rest|
    decreases |toks|, 1
  {
    hide ParseValue, ValueT;
    ValueCost(toks);
    var first := ParseValue(toks);
    var r := ValueList(acc, toks);
    if At(first.rest, Comma) {
      ListCost(acc + [first.value], first.rest[1..]);
      var tail := r.value[|acc|..];
      assert tail[0] == first.value && tail[1..] == r.value[|acc| + 1..];
      assert ListT(tail) == ValueT(tail[0]) + [Comma] + ListT(tail[1..]);
      assert Suffix(first.rest[1..], first.rest);
    } else {
      assert r.value[|acc|..] == [first.value];
    }
  }

  // ---------- predicates ------------------------------------------------------------

  /** `p` was read from `toks`, leaving `rest`, in a position of precedence `level`. */
  predicate PredCosts(toks: Tokens, p: Predicate, rest: Tokens, level: nat) {
    GoodPred(p, if level == 4 then 4 else 1) && Suffix(rest, toks) && |PredT(p, level)| <= |toks| - |rest|
  }

  lemma GoodAnywhere(p: Predicate, level: nat)
    requires GoodPred(p, 1)
    ensures GoodPred(p, level)
  {
  }

  lemma PredLengths(p: Predicate)
    ensures |PredBody(p)| <= |PredT(p, 0)| <= |PredT(p, 1)| <= |PredT(p, 2)| <= |PredT(p, 3)| <= |PredT(p, 4)| <= |PredBody(p)| + 2
    ensures |PredT(p, 1)| == |PredBody(p)|
  {
    hide PredBody;
  }

  lemma {:induction false} OrCost(toks: Tokens)
    requires OrExpr(toks).Ok? && Lexed(toks)
    ensures PredCosts(toks, OrExpr(toks).value, OrExpr(toks).rest, 1)
    decreases |toks|, 4
  {
    hide AndExpr, GoodPred, PredT;
    AndCost(toks);
    var lhs := AndExpr(toks);
    SuffixLexed(lhs.rest, toks);
    PredLengths(lhs.value);
    OrTailCost(lhs.value, lhs.rest);
  }

  lemma {:induction false} OrTailCost(lhs: Predicate, toks: Tokens)
    requires OrTail(lhs, toks).Ok? && Lexed(toks) && GoodPred(lhs, 1)
    ensures var r := OrTail(lhs, toks);
            GoodPred(r.value, 1) && Suffix(r.rest, toks) && |PredT(r.value, 1)| <= |PredT(lhs, 1)| + |toks| - |r.rest|
    decreases |toks|, 5
  {
    hide AndExpr;
    if AtKw(toks, "or") {
      AndCost(toks[1..]);
      var rhs := AndExpr(toks[1..]);
      assert Suffix(rhs.rest, toks);
      GoodAnywhere(rhs.value, 2);
      var both := Or(lhs, rhs.value);
      assert PredT(both, 1) == PredT(lhs, 1) + [Lower("or")] + PredT(rhs.value, 2);
      OrTailCost(both, rhs.rest);
    }
  }

  lemma {:induction false} AndCost(toks: Tokens)
    requires AndExpr(toks).Ok? && Lexed(toks)
    ensures PredCosts(toks, AndExpr(toks).value, AndExpr(toks).rest, 2)
    decreases |toks|, 2
  {
    hide NotExpr, GoodPred, PredT;
    NotCost(toks);
    var lhs := NotExpr(toks);
    SuffixLexed(lhs.rest, toks);
    PredLengths(lhs.value);
    AndTailCost(lhs.value, lhs.rest);
  }

  lemma {:induction false} AndTailCost(lhs: Predicate, toks: Tokens)
    requires AndTail(lhs, toks).Ok? && Lexed(toks) && GoodPred(lhs, 1)
    ensures var r := AndTail(lhs, toks);
            GoodPred(r.value, 1) && Suffix(r.rest, toks) && |PredT(r.value, 2)| <= |PredT(lhs, 2)| + |toks| - |r.rest|
    decreases |toks|, 3
  {
    hide NotExpr;
    if AtKw(toks, "and") {
      NotCost(toks[1..]);
      var rhs := NotExpr(toks[1..]);
      assert Suffix(rhs.rest, toks);
      GoodAnywhere(lhs, 2);
      GoodAnywhere(rhs.value, 3);
      var both := And(lhs, rhs.value);
      assert PredT(both, 2) == PredT(lhs, 2) + [Lower("and")] + PredT(rhs.value, 3);
      AndTailCost(both, rhs.rest);
    }
  }

  lemma {:induction false} NotCost(toks: Tokens)
    requires NotExpr(toks).Ok? && Lexed(toks)
    ensures PredCosts(toks, NotExpr(toks).value, NotExpr(toks).rest, 3)
    decreases |toks|, 1
  {
    hide Atom;
    if AtKw(toks, "not") {
      AtomCost(toks[1..]);
      var p := Atom(toks[1..]);
      assert PredT(Not(p.value), 3) == [Lower("not")] + PredT(p.value, 4);
    } else {
      AtomCost(toks);
      PredLengths(Atom(toks).value);
    }
  }

  lemma {:induction false} AtomCost(toks: Tokens)
    requires Atom(toks).Ok? && Lexed(toks)
    ensures PredCosts(toks, Atom(toks).value, Atom(toks).rest, 4)
    ensures !AtKw(toks, "not") ==> GoodPred(Atom(toks).value, 1)
    decreases |toks|, 0
  {
    if At(toks, LParen) {
      hide OrExpr, GoodPred, PredT;
      OrCost(toks[1..]);
      var p := OrExpr(toks[1..]);
      PredLengths(p.value);
      GoodAnywhere(p.value, 4);
      assert Suffix(p.rest[1..], toks);
    } else if AtKw(toks, "raw") && |toks| > 1 && toks[1].RawSql? {
    } else if At(toks[1..], LParen) {
      CallCost(toks);
    } else {
      PathAtomCost(toks);
    }
  }

  lemma CallCost(toks: Tokens)
    requires Atom(toks).Ok? && Lexed(toks) && LowerAt(toks, 0) && At(toks[1..], LParen)
    ensures PredCosts(toks, Atom(toks).value, Atom(toks).rest, 4)
    ensures !AtKw(toks, "not") ==> GoodPred(Atom(toks).value, 1)
  {
    hide CallArgs, ListT, GoodList;
    ArgsCost(toks[1..]);
    var r := CallArgs(toks[1..]);
    assert Suffix(toks[1..], toks);
    SuffixTrans(r.rest, toks[1..], toks);
    assert Atom(toks) == Ok(FilterCall(toks[0].text, r.value), r.rest);
    assert PredT(FilterCall(toks[0].text, r.value), 4) == [Lower(toks[0].text), LParen] + ListT(r.value) + [RParen];
  }

  /** An atom that starts with a path. */
  lemma PathAtom(toks: Tokens)
    requires Atom(toks).Ok? && LowerAt(toks, 0) && !At(toks[1..], LParen)
    requires !(AtKw(toks, "raw") && |toks| > 1 && toks[1].RawSql?)
    ensures var r := Fields([toks[0].text], toks[1..]);
            && r.Ok?
            && Atom(toks) ==
               if |r.value| > 1 && r.value[|r.value| - 1] == "any" && At(r.rest, LParen) then RelationAny(r.value[..|r.value| - 1], r.rest[1..])
               else if AtOp(r.rest) then Comparison(r.value, r.rest)
               else Ok(Bare(r.value), r.rest)
  {
    hide Fields, RelationAny, Comparison, AtOp;
  }

  /** The path an atom starts with, and what it took to read. */
  lemma PathRead(toks: Tokens)
    requires LowerAt(toks, 0) && Lexed(toks) && Fields([toks[0].text], toks[1..]).Ok?
    ensures var r := Fields([toks[0].text], toks[1..]);
            && r.value != [] && r.value[0] == toks[0].text && Suffix(r.rest, toks) && Lexed(r.rest)
            && |toks| - |r.rest| == |PathT(r.value)| == 2 * |r.value| - 1
  {
    hide Fields, PathT;
    FieldsCost([toks[0].text], toks[1..]);
    var r := Fields([toks[0].text], toks[1..]);
    assert [toks[0].text][0] == toks[0].text;
    Later(r.rest, toks);
    SuffixLexed(r.rest, toks);
    PathLength(r.value);
  }

  lemma {:induction false} PathAtomCost(toks: Tokens)
    requires Atom(toks).Ok? && Lexed(toks) && LowerAt(toks, 0) && !At(toks[1..], LParen)
    requires !(AtKw(toks, "raw") && |toks| > 1 && toks[1].RawSql?)
    ensures PredCosts(toks, Atom(toks).value, Atom(toks).rest, 4)
    ensures !AtKw(toks, "not") ==> GoodPred(Atom(toks).value, 1)
    decreases |toks|, 0, 0
  {
    hide Fields, FieldsT, PathT, Comparison, RelationAny, GoodPred, PredT, AtOp, Atom, Suffix, Lexed;
    PathAtom(toks);
    PathRead(toks);
    var r := Fields([toks[0].text], toks[1..]);
    var path := r.value;
    if |path| > 1 && path[|path| - 1] == "any" && At(r.rest, LParen) {
      PathLength(path[..|path| - 1]);
      DropLexed(r.rest);
      Drop(r.rest, toks);
      AnyCost(path[..|path| - 1], r.rest[1..]);
      SuffixTrans(Atom(toks).rest, r.rest[1..], toks);
    } else if AtOp(r.rest) {
      ComparisonCost(path, r.rest);
      SuffixTrans(Atom(toks).rest, r.rest, toks);
    } else {
      BareCost(path);
    }
  }

  lemma DropLexed(toks: Tokens)
    requires toks != [] && Lexed(toks)
    ensures Lexed(toks[1..])
  {
  }

  lemma BareCost(path: Path)
    requires path != []
    ensures GoodPred(Bare(path), 4) && (path[0] != "not" ==> GoodPred(Bare(path), 1)) && |PredT(Bare(path), 4)| == |PathT(path)|
  {
  }

  lemma PathLength(path: Path)
    requires path != []
    ensures |PathT(path)| == 2 * |path| - 1
  {
    FieldsLength(path[1..]);
  }

  lemma ComparisonCost(path: Path, toks: Tokens)
    requires path != [] && AtOp(toks) && Comparison(path, toks).Ok? && Lexed(toks)
    ensures var r := Comparison(path, toks);
            && GoodPred(r.value, 4) && (path[0] != "not" ==> GoodPred(r.value, 1))
            && Suffix(r.rest, toks) && |PredT(r.value, 4)| <= |PathT(path)| + |toks| - |r.rest|
  {
    hide ParseValue, ValueList, ValueT, ListT, PathT, ParseOp, Suffix, Lexed;
    var (op, rest) := ParseOp(toks);
    OpCost(toks);
    SuffixLexed(rest, toks);
    if op == In && At(rest, LParen) {
      DropLexed(rest);
      ListCost([], rest[1..]);
      var values := ValueList([], rest[1..]);
      assert values.value[0..] == values.value;
      Later(values.rest, rest);
      SuffixTrans(values.rest[1..], rest, toks);
    } else {
      ValueCost(rest);
      SuffixTrans(ParseValue(rest).rest, rest, toks);
    }
  }

  lemma OpCost(toks: Tokens)
    requires AtOp(toks)
    ensures var (op, rest) := ParseOp(toks);
            && Suffix(rest, toks) && |OpT(op)| == |toks| - |rest|
            && (op.LikeAll? || op.LikeAny? ==> Operand(rest))
  {
  }

  lemma AfterBy(after: Tokens, toks: Tokens)
    requires after == toks || (|toks| >= 2 && after == toks[2..]) || (|toks| >= 3 && after == toks[3..])
    ensures Suffix(after, toks)
  {
  }

  lemma {:induction false} AnyLength(path: Path, column: Option<Ident>, pred: Option<Predicate>)
    requires path != [] && (pred.Some? ==> GoodPred(pred.value, 1))
    ensures var p := Any(path, column, pred);
            && GoodPred(p, 4) && (path[0] != "not" ==> GoodPred(p, 1))
            && |PredT(p, 4)| == |PathT(path)| + 4 + (if column.None? then 0 else if pred.None? then 2 else 3) + (if pred.None? then 0 else |PredT(pred.value, 0)|)
  {
    hide PathT;
    if pred.Some? {
      GoodAnywhere(pred.value, 0);
    }
  }

  lemma {:induction false} AnyCost(path: Path, toks: Tokens)
    requires path != [] && RelationAny(path, toks).Ok? && Lexed(toks)
    ensures var r := RelationAny(path, toks);
            && GoodPred(r.value, 4) && (path[0] != "not" ==> GoodPred(r.value, 1))
            && Suffix(r.rest, toks) && |PredT(r.value, 4)| <= |PathT(path)| + 3 + |toks| - |r.rest|
    decreases |toks|, 6
  {
    hide OrExpr, PathT, PredT, GoodPred, Suffix, Lexed;
    var column := if AtBy(toks) then Some(toks[1].text) else None;
    var after := if column.None? then toks else if toks[2].Comma? then toks[3..] else toks[2..];
    AfterBy(after, toks);
    if At(after, RParen) {
      Drop(after, toks);
      AnyLength(path, column, None);
    } else {
      SuffixLexed(after, toks);
      OrCost(after);
      var q := OrExpr(after);
      PredLengths(q.value);
      Drop(q.rest, after);
      SuffixTrans(q.rest[1..], after, toks);
      AnyLength(path, column, Some(q.value));
    }
  }

  // ---------- computed expressions --------------------------------------------------

  predicate ExprCosts(toks: Tokens, e: ShapeExpr, rest: Tokens, level: nat) {
    GoodExpr(e) && Suffix(rest, toks) && |ExprT(e, level)| <= |toks| - |rest|
  }

  lemma ExprLengths(e: ShapeExpr)
    ensures |ExprBody(e)| <= |ExprT(e, 0)| <= |ExprT(e, 1)| <= |ExprT(e, 2)| <= |ExprT(e, 3)| <= |ExprT(e, 4)| <= |ExprBody(e)| + 2
    ensures |ExprT(e, 1)| == |ExprBody(e)|
  {
    hide ExprBody;
  }

  lemma {:induction false} ConcatCost(toks: Tokens)
    requires ConcatExpr(toks).Ok? && Lexed(toks)
    ensures ExprCosts(toks, ConcatExpr(toks).value, ConcatExpr(toks).rest, 1)
    decreases |toks|, 4
  {
    hide AddExpr, GoodExpr, ExprT;
    AddCost(toks);
    var lhs := AddExpr(toks);
    SuffixLexed(lhs.rest, toks);
    ExprLengths(lhs.value);
    ConcatTailCost(lhs.value, lhs.rest);
  }

  lemma AllIsSuffix(toks: Tokens)
    ensures Suffix(toks, toks)
  {
  }

  /** An operation takes its operands' tokens and one more. */
  lemma {:induction false} BothLength(e: ShapeExpr)
    ensures e.Concat? ==> |ExprT(e, 1)| == |ExprT(e.l, 1)| + 1 + |ExprT(e.r, 2)|
    ensures e.Arith? && OpPrec(e.op) == 2 ==> |ExprT(e, 2)| == |ExprT(e.l, 2)| + 1 + |ExprT(e.r, 3)|
    ensures e.Arith? && OpPrec(e.op) == 3 ==> |ExprT(e, 3)| == |ExprT(e.l, 3)| + 1 + |ExprT(e.r, 4)|
  {
  }

  lemma {:induction false} ConcatTailCost(lhs: ShapeExpr, toks: Tokens)
    requires ConcatTail(lhs, toks).Ok? && Lexed(toks) && GoodExpr(lhs)
    ensures var r := ConcatTail(lhs, toks);
            GoodExpr(r.value) && Suffix(r.rest, toks) && |ExprT(r.value, 1)| <= |ExprT(lhs, 1)| + |toks| - |r.rest|
    decreases |toks|, 5
  {
    hide AddExpr, Suffix, Lexed, ExprT;
    if At(toks, PipePipe) {
      DropLexed(toks);
      AddCost(toks[1..]);
      var rhs := AddExpr(toks[1..]);
      Later(rhs.rest, toks);
      SuffixLexed(rhs.rest, toks);
      var both := Concat(lhs, rhs.value);
      BothLength(both);
      ConcatTailCost(both, rhs.rest);
      SuffixTrans(ConcatTail(lhs, toks).rest, rhs.rest, toks);
    } else {
      AllIsSuffix(toks);
    }
  }

  lemma {:induction false} AddCost(toks: Tokens)
    requires AddExpr(toks).Ok? && Lexed(toks)
    ensures ExprCosts(toks, AddExpr(toks).value, AddExpr(toks).rest, 2)
    decreases |toks|, 2
  {
    hide MulExpr, GoodExpr, ExprT;
    MulCost(toks);
    var lhs := MulExpr(toks);
    SuffixLexed(lhs.rest, toks);
    ExprLengths(lhs.value);
    AddTailCost(lhs.value, lhs.rest);
  }

  lemma {:induction false} AddTailCost(lhs: ShapeExpr, toks: Tokens)
    requires AddTail(lhs, toks).Ok? && Lexed(toks) && GoodExpr(lhs)
    ensures var r := AddTail(lhs, toks);
            GoodExpr(r.value) && Suffix(r.rest, toks) && |ExprT(r.value, 2)| <= |ExprT(lhs, 2)| + |toks| - |r.rest|
    decreases |toks|, 3
  {
    hide MulExpr, Suffix, Lexed, ExprT;
    if At(toks, Plus) || At(toks, Minus) {
      DropLexed(toks);
      MulCost(toks[1..]);
      var rhs := MulExpr(toks[1..]);
      Later(rhs.rest, toks);
      SuffixLexed(rhs.rest, toks);
      var both := Arith(lhs, if At(toks, Plus) then Add else Sub, rhs.value);
      BothLength(both);
      AddTailCost(both, rhs.rest);
      SuffixTrans(AddTail(lhs, toks).rest, rhs.rest, toks);
    } else {
      AllIsSuffix(toks);
    }
  }

  lemma {:induction false} MulCost(toks: Tokens)
    requires MulExpr(toks).Ok? && Lexed(toks)
    ensures ExprCosts(toks, MulExpr(toks).value, MulExpr(toks).rest, 3)
    decreases |toks|, 1
  {
    hide Primary, GoodExpr, ExprT;
    PrimaryCost(toks);
    var lhs := Primary(toks);
    SuffixLexed(lhs.rest, toks);
    ExprLengths(lhs.value);
    MulTailCost(lhs.value, lhs.rest);
  }

  lemma {:induction false} MulTailCost(lhs: ShapeExpr, toks: Tokens)
    requires MulTail(lhs, toks).Ok? && Lexed(toks) && GoodExpr(lhs)
    ensures var r := MulTail(lhs, toks);
            GoodExpr(r.value) && Suffix(r.rest, toks) && |ExprT(r.value, 3)| <= |ExprT(lhs, 3)| + |toks| - |r.rest|
    decreases |toks|, 1
  {
    hide Primary, Suffix, Lexed, ExprT;
    if At(toks, Star) || At(toks, Slash) {
      DropLexed(toks);
      PrimaryCost(toks[1..]);
      var rhs := Primary(toks[1..]);
      Later(rhs.rest, toks);
      SuffixLexed(rhs.rest, toks);
      var both := Arith(lhs, if At(toks, Star) then Mul else Div, rhs.value);
      BothLength(both);
      MulTailCost(both, rhs.rest);
      SuffixTrans(MulTail(lhs, toks).rest, rhs.rest, toks);
    } else {
      AllIsSuffix(toks);
    }
  }

  lemma {:induction false} PrimaryCost(toks: Tokens)
    requires Primary(toks).Ok? && Lexed(toks)
    ensures ExprCosts(toks, Primary(toks).value, Primary(toks).rest, 4)
    decreases |toks|, 0
  {
    hide ConcatExpr, CaseExpr, ParseValue, ExprCosts, Primary, Closed;
    if At(toks, LParen) {
      PrimaryParens(toks);
      DropLexed(toks);
      ConcatCost(toks[1..]);
      ParenCosts(toks);
    } else if AtKw(toks, "case") {
      PrimaryCase(toks);
      DropLexed(toks);
      CaseCost(toks[1..]);
      CaseCosts(toks);
    } else {
      LeafCosts(toks);
    }
  }

  lemma PrimaryParens(toks: Tokens)
    requires At(toks, LParen) && Primary(toks).Ok?
    ensures ConcatExpr(toks[1..]).Ok? && ConcatExpr(toks[1..]).rest != []
    ensures Primary(toks) == Ok(ConcatExpr(toks[1..]).value, ConcatExpr(toks[1..]).rest[1..])
  {
    hide ConcatExpr;
  }

  lemma ParenCosts(toks: Tokens)
    requires At(toks, LParen) && Primary(toks).Ok? && ConcatExpr(toks[1..]).Ok?
    requires ExprCosts(toks[1..], ConcatExpr(toks[1..]).value, ConcatExpr(toks[1..]).rest, 1)
    ensures ExprCosts(toks, Primary(toks).value, Primary(toks).rest, 4)
  {
    PrimaryParens(toks);
    hide ConcatExpr, Primary, GoodExpr, ExprT, Suffix;
    var e := ConcatExpr(toks[1..]);
    ExprLengths(e.value);
    Later(e.rest, toks);
  }

  lemma PrimaryCase(toks: Tokens)
    requires !At(toks, LParen) && AtKw(toks, "case") && Primary(toks).Ok?
    ensures Primary(toks) == CaseExpr(toks[1..])
  {
    hide CaseExpr;
  }

  lemma CaseCosts(toks: Tokens)
    requires AtKw(toks, "case") && CaseExpr(toks[1..]).Ok? && Primary(toks) == CaseExpr(toks[1..])
    requires var r := CaseExpr(toks[1..]);
             GoodExpr(r.value) && Suffix(r.rest, toks[1..]) && |ExprT(r.value, 4)| <= |toks[1..]| + 1 - |r.rest|
    ensures ExprCosts(toks, Primary(toks).value, Primary(toks).rest, 4)
  {
    hide CaseExpr, Primary, GoodExpr, ExprT, Suffix;
    Later(CaseExpr(toks[1..]).rest, toks);
  }

  lemma LeafCosts(toks: Tokens)
    requires !At(toks, LParen) && !AtKw(toks, "case") && Primary(toks).Ok? && Lexed(toks)
    ensures ExprCosts(toks, Primary(toks).value, Primary(toks).rest, 4)
  {
    hide ParseValue, ValueT;
    ValueCost(toks);
    var v := ParseValue(toks);
    assert Primary(toks) == Ok(Leaf(v.value), v.rest);
    assert ExprT(Leaf(v.value), 4) == ValueT(v.value);
  }

  lemma {:induction false} CaseCost(toks: Tokens)
    requires CaseExpr(toks).Ok? && Lexed(toks)
    ensures var r := CaseExpr(toks);
            GoodExpr(r.value) && Suffix(r.rest, toks) && |ExprT(r.value, 4)| <= 1 + |toks| - |r.rest|
    decreases |toks|, 7
  {
    hide Arms, ConcatExpr, GoodPred, ArmsT;
    ArmsCost([], toks);
    var arms := Arms([], toks);
    assert arms.value[0..] == arms.value;
    SuffixLexed(arms.rest, toks);
    assert Suffix(arms.rest[1..], arms.rest);
    ConcatCost(arms.rest[1..]);
    var otherwise := ConcatExpr(arms.rest[1..]);
    ExprLengths(otherwise.value);
    assert Suffix(otherwise.rest[1..], toks);
    assert ExprT(Case(arms.value, otherwise.value), 4)
        == [Lower("case")] + ArmsT(arms.value) + [Lower("else")] + ExprT(otherwise.value, 0) + [Lower("end")];
  }

  predicate GoodArms(arms: seq<Arm>) { forall i | 0 <= i < |arms| :: GoodPred(arms[i].cond, 1) && GoodExpr(arms[i].result) }

  /** The first arm read, and the rest. */
  lemma {:induction false} ArmRead(acc: seq<Arm>, toks: Tokens)
    requires AtKw(toks, "when") && Arms(acc, toks).Ok?
    ensures OrExpr(toks[1..]).Ok? && OrExpr(toks[1..]).rest != [] && ConcatExpr(OrExpr(toks[1..]).rest[1..]).Ok?
    ensures var cond := OrExpr(toks[1..]);
            var result := ConcatExpr(cond.rest[1..]);
            |result.rest| < |toks| && Arms(acc, toks) == Arms(acc + [Arm(cond.value, result.value)], result.rest)
  {
    hide OrExpr, ConcatExpr;
  }

  lemma {:induction false} ArmLength(acc: seq<Arm>, arm: Arm, arms: seq<Arm>)
    requires acc + [arm] <= arms
    ensures |ArmsT(arms[|acc|..])| == 2 + |PredT(arm.cond, 0)| + |ExprT(arm.result, 0)| + |ArmsT(arms[|acc| + 1..])|
  {
    hide PredT, ExprT;
    var tail := arms[|acc|..];
    assert tail[0] == arm && tail[1..] == arms[|acc| + 1..];
  }

  lemma {:induction false} ArmsCost(acc: seq<Arm>, toks: Tokens)
    requires Arms(acc, toks).Ok? && Lexed(toks) && GoodArms(acc)
    ensures var r := Arms(acc, toks);
            GoodArms(r.value) && acc <= r.value && Suffix(r.rest, toks) && |ArmsT(r.value[|acc|..])| <= |toks| - |r.rest|
    decreases |toks|, 6
  {
    hide OrExpr, ConcatExpr, GoodPred, GoodExpr, PredT, ExprT, ArmsT, Arms, Suffix, Lexed;
    if AtKw(toks, "when") {
      ArmRead(acc, toks);
      ArmCost(toks);
      var cond := OrExpr(toks[1..]);
      var result := ConcatExpr(cond.rest[1..]);
      var arm := Arm(cond.value, result.value);
      ArmsCost(acc + [arm], result.rest);
      var r := Arms(acc, toks);
      SuffixTrans(r.rest, result.rest, toks);
      ArmLength(acc, arm, r.value);
    } else {
      NoArms(acc, toks);
    }
  }

  /** One arm. */
  lemma {:induction false} ArmCost(toks: Tokens)
    requires AtKw(toks, "when") && Lexed(toks) && OrExpr(toks[1..]).Ok? && OrExpr(toks[1..]).rest != []
    requires ConcatExpr(OrExpr(toks[1..]).rest[1..]).Ok?
    ensures var cond := OrExpr(toks[1..]);
            var result := ConcatExpr(cond.rest[1..]);
            && GoodPred(cond.value, 1) && GoodExpr(result.value) && Suffix(result.rest, toks) && Lexed(result.rest)
            && 2 + |PredT(cond.value, 0)| + |ExprT(result.value, 0)| <= |toks| - |result.rest|
    decreases |toks|, 5
  {
    hide OrExpr, ConcatExpr, GoodPred, GoodExpr, PredT, ExprT, Suffix, Lexed;
    DropLexed(toks);
    OrCost(toks[1..]);
    var cond := OrExpr(toks[1..]);
    PredLengths(cond.value);
    Later(cond.rest, toks);
    SuffixLexed(cond.rest[1..], toks);
    ConcatCost(cond.rest[1..]);
    var result := ConcatExpr(cond.rest[1..]);
    ExprLengths(result.value);
    SuffixTrans(result.rest, cond.rest[1..], toks);
    SuffixLexed(result.rest, toks);
  }

  lemma {:induction false} NoArms(acc: seq<Arm>, toks: Tokens)
    requires !AtKw(toks, "when")
    ensures Arms(acc, toks) == Ok(acc, toks) && Suffix(toks, toks) && |ArmsT(acc[|acc|..])| == 0
  {
    assert acc[|acc|..] == [];
  }

  // ---------- assignment arithmetic -------------------------------------------------

  predicate RhsCosts(toks: Tokens, r: AssignRhs, rest: Tokens, level: nat) {
    GoodRhs(r) && Suffix(rest, toks) && |RhsT(r, level)| <= |toks| - |rest|
  }

  lemma RhsLengths(r: AssignRhs)
    ensures |RhsBody(r)| <= |RhsT(r, 0)| <= |RhsT(r, 1)| <= |RhsT(r, 2)| <= |RhsT(r, 3)| <= |RhsBody(r)| + 2
    ensures |RhsT(r, 1)| == |RhsBody(r)|
  {
    hide RhsBody;
  }

  lemma {:induction false} RhsCost(toks: Tokens)
    requires Rhs(toks).Ok? && Lexed(toks)
    ensures RhsCosts(toks, Rhs(toks).value, Rhs(toks).rest, 1)
    decreases |toks|, 2
  {
    hide Term, GoodRhs, RhsT;
    TermCost(toks);
    var lhs := Term(toks);
    SuffixLexed(lhs.rest, toks);
    RhsLengths(lhs.value);
    RhsTailCost(lhs.value, lhs.rest);
  }

  lemma {:induction false} RhsTailCost(lhs: AssignRhs, toks: Tokens)
    requires RhsTail(lhs, toks).Ok? && Lexed(toks) && GoodRhs(lhs)
    ensures var r := RhsTail(lhs, toks);
            GoodRhs(r.value) && Suffix(r.rest, toks) && |RhsT(r.value, 1)| <= |RhsT(lhs, 1)| + |toks| - |r.rest|
    decreases |toks|, 3
  {
    hide Term;
    if At(toks, Plus) || At(toks, Minus) {
      TermCost(toks[1..]);
      var rhs := Term(toks[1..]);
      assert Suffix(rhs.rest, toks);
      var both := Calc(lhs, if At(toks, Plus) then Add else Sub, rhs.value);
      assert RhsT(both, 1) == RhsT(lhs, 1) + [ArithOpT(both.op)] + RhsT(rhs.value, 2);
      RhsTailCost(both, rhs.rest);
    }
  }

  lemma {:induction false} TermCost(toks: Tokens)
    requires Term(toks).Ok? && Lexed(toks)
    ensures RhsCosts(toks, Term(toks).value, Term(toks).rest, 2)
    decreases |toks|, 1
  {
    hide Factor, GoodRhs, RhsT;
    FactorCost(toks);
    var lhs := Factor(toks);
    SuffixLexed(lhs.rest, toks);
    RhsLengths(lhs.value);
    TermTailCost(lhs.value, lhs.rest);
  }

  lemma {:induction false} TermTailCost(lhs: AssignRhs, toks: Tokens)
    requires TermTail(lhs, toks).Ok? && Lexed(toks) && GoodRhs(lhs)
    ensures var r := TermTail(lhs, toks);
            GoodRhs(r.value) && Suffix(r.rest, toks) && |RhsT(r.value, 2)| <= |RhsT(lhs, 2)| + |toks| - |r.rest|
    decreases |toks|, 1
  {
    hide Factor;
    if At(toks, Star) || At(toks, Slash) {
      FactorCost(toks[1..]);
      var rhs := Factor(toks[1..]);
      assert Suffix(rhs.rest, toks);
      var both := Calc(lhs, if At(toks, Star) then Mul else Div, rhs.value);
      assert RhsT(both, 2) == RhsT(lhs, 2) + [ArithOpT(both.op)] + RhsT(rhs.value, 3);
      TermTailCost(both, rhs.rest);
    }
  }

  lemma {:induction false} FactorCost(toks: Tokens)
    requires Factor(toks).Ok? && Lexed(toks)
    ensures RhsCosts(toks, Factor(toks).value, Factor(toks).rest, 3)
    decreases |toks|, 0
  {
    hide Rhs, ParseValue, RhsCosts, Factor, Closed;
    if At(toks, LParen) {
      FactorParens(toks);
      DropLexed(toks);
      RhsCost(toks[1..]);
      ParenRhsCosts(toks);
    } else {
      PlainCosts(toks);
    }
  }

  lemma FactorParens(toks: Tokens)
    requires At(toks, LParen) && Factor(toks).Ok?
    ensures Rhs(toks[1..]).Ok? && Rhs(toks[1..]).rest != []
    ensures Factor(toks) == Ok(Rhs(toks[1..]).value, Rhs(toks[1..]).rest[1..])
  {
    hide Rhs;
  }

  lemma ParenRhsCosts(toks: Tokens)
    requires At(toks, LParen) && Factor(toks).Ok? && Rhs(toks[1..]).Ok?
    requires RhsCosts(toks[1..], Rhs(toks[1..]).value, Rhs(toks[1..]).rest, 1)
    ensures RhsCosts(toks, Factor(toks).value, Factor(toks).rest, 3)
  {
    FactorParens(toks);
    hide Rhs, Factor, GoodRhs, RhsT, Suffix;
    var r := Rhs(toks[1..]);
    RhsLengths(r.value);
    Later(r.rest, toks);
  }

  lemma PlainCosts(toks: Tokens)
    requires !At(toks, LParen) && Factor(toks).Ok? && Lexed(toks)
    ensures RhsCosts(toks, Factor(toks).value, Factor(toks).rest, 3)
  {
    hide ParseValue, ValueT;
    ValueCost(toks);
    var v := ParseValue(toks);
    assert Factor(toks) == Ok(Plain(v.value), v.rest);
    assert RhsT(Plain(v.value), 3) == ValueT(v.value);
  }

  // ---------- the main results ------------------------------------------------------

  /** Whatever spelling a predicate was read from, the printed one reads back as the same tree and
      is no longer: so dropping a printed pair of parentheses changes the tree. */
  lemma PredicatePrintsShortest(p: Predicate, toks: Tokens)
    requires Lexed(toks) && OrExpr(toks) == Ok(p, [])
    ensures OrExpr(PredT(p, 0)) == Ok(p, []) && |PredT(p, 0)| <= |toks|
  {
    OrCost(toks);
    PredLengths(p);
    PredicateRoundTrip(p, []);
    assert PredT(p, 0) + [] == PredT(p, 0);
  }

  lemma ExprPrintsShortest(e: ShapeExpr, toks: Tokens)
    requires Lexed(toks) && ConcatExpr(toks) == Ok(e, [])
    ensures ConcatExpr(ExprT(e, 0)) == Ok(e, []) && |ExprT(e, 0)| <= |toks|
  {
    ConcatCost(toks);
    ExprLengths(e);
    ExprRoundTrips(e, []);
    assert ExprT(e, 0) + [] == ExprT(e, 0);
  }

  lemma RhsPrintsShortest(r: AssignRhs, toks: Tokens)
    requires Lexed(toks) && Rhs(toks) == Ok(r, [])
    ensures Rhs(RhsT(r, 0)) == Ok(r, []) && |RhsT(r, 0)| <= |toks|
  {
    RhsCost(toks);
    RhsLengths(r);
    RhsRoundTrip(r, []);
    assert RhsT(r, 0) + [] == RhsT(r, 0);
  }
}
