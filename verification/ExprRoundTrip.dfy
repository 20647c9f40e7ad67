/** Parsing what the printer emits gives back the same tree. */
module ExprRoundTrip {
  import opened Wrappers
  import opened ExprTree
  import opened ExprParser

  // ---------- the trees the grammar can hold ----------------------------------------

  predicate GoodValue(v: Value) {
    match v
    case Param(_, _, _) => true
    case PathValue(path) => path != [] && !Keyword(path[0])
    case Lit(IntLit(n)) => I64_MIN <= n <= I64_MAX
    case Lit(_) => true
    case Func(name, args) => !Keyword(name) && forall i | 0 <= i < |args| :: GoodValue(args[i])
  }

  predicate GoodList(values: seq<Value>) { forall i | 0 <= i < |values| :: GoodValue(values[i]) }

  /** The identifier a leaf starts with. */
  function Lead(p: Predicate): Ident {
    match p
    case Cmp(path, _, _) => if path == [] then "" else path[0]
    case InList(path, _) => if path == [] then "" else path[0]
    case Bare(path) => if path == [] then "" else path[0]
    case FilterCall(name, _) => name
    case Any(path, _, _) => if path == [] then "" else path[0]
    case _ => ""
  }

  /** A predicate in a position of precedence `min`. A leaf may start with a name spelled `not`
      only where `not` has just been read. */
  predicate GoodPred(p: Predicate, min: nat) {
    && (PredPrec(p) == 4 && min < 4 ==> Lead(p) != "not")
    && match p
       case Or(a, b) => GoodPred(a, 1) && GoodPred(b, 2)
       case And(a, b) => GoodPred(a, 2) && GoodPred(b, 3)
       case Not(a) => GoodPred(a, 4)
       case Cmp(path, op, value) =>
         path != [] && GoodValue(value) && (op.LikeAll? || op.LikeAny? ==> Operand(ValueT(value)))
       case InList(path, values) => path != [] && values != [] && GoodList(values)
       case Bare(path) => path != []
       case FilterCall(_, args) => GoodList(args)
       case Any(path, _, pred) => path != [] && (pred.Some? ==> GoodPred(pred.value, 1))
       case Raw(_) => true
  }

  predicate GoodExpr(e: ShapeExpr) {
    match e
    case Leaf(v) => GoodValue(v) && !AtKw(ValueT(v), "case")
    case Case(arms, otherwise) =>
      arms != [] && GoodExpr(otherwise) && forall i | 0 <= i < |arms| :: GoodPred(arms[i].cond, 1) && GoodExpr(arms[i].result)
    case Arith(l, _, r) => GoodExpr(l) && GoodExpr(r)
    case Concat(l, r) => GoodExpr(l) && GoodExpr(r)
  }

  predicate GoodRhs(r: AssignRhs) {
    match r
    case Plain(v) => GoodValue(v)
    case Calc(l, _, rhs) => GoodRhs(l) && GoodRhs(rhs)
  }

  // ---------- what may follow -------------------------------------------------------

  predicate ValueEnd(rest: Tokens) { rest == [] || !(rest[0].Dot? || rest[0].LParen? || rest[0].Question?) }

  /** A token that cannot extend a predicate: the end, a closing or separating token, an operator
      of a computed expression, or one of the connecting words. */
  predicate PredEnd(rest: Tokens) {
    rest == [] || rest[0].RParen? || rest[0].Comma? || rest[0].Other? || rest[0].PipePipe? || rest[0].Plus?
    || rest[0].Star? || rest[0].Slash? || rest[0] in [Lower("and"), Lower("or"), Lower("then")]
  }

  // ---------- values ----------------------------------------------------------------

  lemma {:induction false} FieldsRoundTrip(acc: Path, fields: Path, rest: Tokens)
    requires !At(rest, Dot)
    ensures Fields(acc, FieldsT(fields) + rest) == Ok(acc + fields, rest)
    decreases |fields|
  {
    var toks := FieldsT(fields) + rest;
    if fields == [] {
      assert toks == rest && acc + fields == acc;
    } else {
      assert toks[0] == Dot && toks[1] == Lower(fields[0]);
      assert toks[2..] == FieldsT(fields[1..]) + rest;
      FieldsRoundTrip(acc + [fields[0]], fields[1..], rest);
      assert acc + [fields[0]] + fields[1..] == acc + fields;
    }
  }

  /** Two tokens, then two pieces, then the rest. */
  lemma TwoThen(a: Token, b: Token, c: Tokens, d: Tokens, rest: Tokens)
    ensures var toks := [a, b] + c + d + rest; toks[0] == a && toks[1] == b && toks[2..] == c + (d + rest)
  {
  }

  lemma OneThen(a: Token, b: Tokens, rest: Tokens)
    ensures var toks := [a] + b + rest; toks[0] == a && toks[1..] == b + rest
  {
  }

  /** Two operands and the operator between them. */
  lemma Operation(a: Tokens, op: Token, b: Tokens, rest: Tokens)
    ensures a + [op] + b + rest == a + ([op] + b + rest)
    ensures ([op] + b + rest)[0] == op && ([op] + b + rest)[1..] == b + rest
  {
  }

  lemma ParamRoundTrip(name: Ident, fields: Path, optional: bool, rest: Tokens)
    requires ValueEnd(rest)
    ensures ParseValue(ValueT(Param(name, fields, optional)) + rest) == Ok(Param(name, fields, optional), rest)
  {
    hide FieldsT, Fields;
    var mark := if optional then [Question] else [];
    var after := mark + rest;
    TwoThen(Dollar, Lower(name), FieldsT(fields), mark, rest);
    FieldsRoundTrip([], fields, after);
    assert [] + fields == fields;
    assert if optional then after[1..] == rest else after == rest;
  }

  lemma PathRoundTrip(path: Path, rest: Tokens)
    requires path != [] && !At(rest, Dot)
    ensures var toks := PathT(path) + rest;
            && toks != [] && toks[0] == Lower(path[0]) && Fields([path[0]], toks[1..]) == Ok(path, rest)
            && (At(toks[1..], LParen) ==> |path| == 1 && At(rest, LParen))
  {
    OneThen(Lower(path[0]), FieldsT(path[1..]), rest);
    FieldsRoundTrip([path[0]], path[1..], rest);
    assert [path[0]] + path[1..] == path;
  }

  lemma {:induction false} ValueRoundTrip(v: Value, rest: Tokens)
    requires GoodValue(v) && ValueEnd(rest)
    ensures ParseValue(ValueT(v) + rest) == Ok(v, rest)
    decreases v, 0
  {
    match v
    case Param(name, fields, optional) => ParamRoundTrip(name, fields, optional, rest);
    case PathValue(path) => PathValueParses(path, rest);
    case Lit(l) => LiteralRoundTrip(l, rest);
    case Func(name, args) =>
      CallArgsRoundTrip(args, rest);
      FuncParses(name, args, rest);
  }

  lemma PathValueParses(path: Path, rest: Tokens)
    requires path != [] && !Keyword(path[0]) && ValueEnd(rest)
    ensures ParseValue(PathT(path) + rest) == Ok(PathValue(path), rest)
  {
    hide PathT, Fields;
    PathRoundTrip(path, rest);
  }

  lemma FuncParses(name: Ident, args: seq<Value>, rest: Tokens)
    requires !Keyword(name) && CallArgs([LParen] + ListT(args) + [RParen] + rest) == Ok(args, rest)
    ensures ParseValue(ValueT(Func(name, args)) + rest) == Ok(Func(name, args), rest)
  {
    hide CallArgs, ListT;
    var toks := ValueT(Func(name, args)) + rest;
    assert toks[0] == Lower(name) && toks[1..] == [LParen] + ListT(args) + [RParen] + rest;
  }

  lemma LiteralRoundTrip(l: Literal, rest: Tokens)
    requires GoodValue(Lit(l))
    ensures ParseValue(LiteralT(l) + rest) == Ok(Lit(l), rest)
  {
    var toks := LiteralT(l) + rest;
    match l
    case StrLit(s) => assert toks[1..] == rest;
    case IntLit(n) => assert if n < 0 then toks[2..] == rest && toks[1] == Int(-n) else toks[1..] == rest;
    case Decimal(text) =>
      if text != "" && text[0] == '-' {
        assert toks[2..] == rest && toks[1] == Float(text[1..]);
        assert "-" + text[1..] == text;
      } else {
        assert toks[1..] == rest;
      }
    case BoolLit(b) => assert toks[1..] == rest;
    case NullLit => assert toks[1..] == rest;
  }

  lemma {:induction false} CallArgsRoundTrip(args: seq<Value>, rest: Tokens)
    requires GoodList(args)
    ensures CallArgs([LParen] + ListT(args) + [RParen] + rest) == Ok(args, rest)
    decreases args, 2
  {
    var after := [RParen] + rest;
    InParens(ListT(args), rest);
    if args == [] {
      assert ListT(args) + after == after;
    } else {
      ListRoundTrip([], args, after);
      assert [] + args == args;
      ListStart(args, after);
    }
    hide ListT, GoodList;
  }

  lemma InParens(inner: Tokens, rest: Tokens)
    ensures var toks := [LParen] + inner + [RParen] + rest;
            toks != [] && toks[0] == LParen && toks[1..] == inner + ([RParen] + rest)
    ensures ([RParen] + rest)[1..] == rest
  {
  }

  /** A list does not start with a closing parenthesis. */
  lemma ListStart(values: seq<Value>, rest: Tokens)
    requires values != [] && GoodList(values)
    ensures (ListT(values) + rest) != [] && !At(ListT(values) + rest, RParen) && !At(ListT(values) + rest, Comma)
  {
    ValueStart(values[0]);
    assert ListT(values)[0] == ValueT(values[0])[0];
    assert (ListT(values) + rest)[0] == ListT(values)[0];
  }

  lemma ValueStart(v: Value)
    requires GoodValue(v)
    ensures ValueT(v) != [] && (ValueT(v)[0].Dollar? || ValueT(v)[0].Int? || ValueT(v)[0].Float? || ValueT(v)[0].Str?
                                || ValueT(v)[0].Minus? || ValueT(v)[0].Lower?)
  {
  }

  lemma {:induction false} ListRoundTrip(acc: seq<Value>, values: seq<Value>, rest: Tokens)
    requires values != [] && GoodList(values) && ValueEnd(rest) && !At(rest, Comma)
    ensures ValueList(acc, ListT(values) + rest) == Ok(acc + values, rest)
    decreases values, 1
  {
    hide ParseValue, ValueT, GoodValue;
    if |values| == 1 {
      ValueRoundTrip(values[0], rest);
      assert ListT(values) == ValueT(values[0]);
      assert [values[0]] == values;
    } else {
      var after := [Comma] + ListT(values[1..]) + rest;
      assert ListT(values) + rest == ValueT(values[0]) + after;
      ValueRoundTrip(values[0], after);
      assert after[1..] == ListT(values[1..]) + rest;
      ListRoundTrip(acc + [values[0]], values[1..], rest);
      assert acc + [values[0]] + values[1..] == acc + values;
    }
  }

  // ---------- predicates ------------------------------------------------------------

  lemma OpRoundTrip(op: Op, value: Value, rest: Tokens)
    requires GoodValue(value) && PredEnd(rest) && (op.LikeAll? || op.LikeAny? ==> Operand(ValueT(value)))
    ensures var toks := OpT(op) + ValueT(value) + rest;
            AtOp(toks) && ParseOp(toks) == (op, ValueT(value) + rest) && !At(ValueT(value) + rest, LParen)
  {
    var after := ValueT(value) + rest;
    ValueStart(value);
    if op.Like? {
      LikeStaysLike(value, rest);
    }
    OperandStays(ValueT(value), rest);
    hide ValueT, GoodValue, PredEnd;
    assert OpT(op) + ValueT(value) + rest == OpT(op) + after;
    OpReads(op, after);
  }

  lemma OperandStays(toks: Tokens, rest: Tokens)
    requires toks != []
    ensures (toks + rest)[0] == toks[0] && (Operand(toks) ==> Operand(toks + rest))
  {
  }

  lemma OpReads(op: Op, after: Tokens)
    requires after != [] && (op.LikeAll? || op.LikeAny? ==> Operand(after))
    requires op.Like? ==> ParseOp([Tilde] + after) == (Like, after)
    ensures AtOp(OpT(op) + after) && ParseOp(OpT(op) + after) == (op, after)
  {
    var toks := OpT(op) + after;
    if op.LikeAll? || op.LikeAny? {
      assert toks[1..] == [OpT(op)[1]] + after && toks[1..][1..] == after;
    } else {
      assert toks[1..] == after;
    }
  }

  /** A pattern column named `all` or `any` is not read as a quantifier. */
  lemma LikeStaysLike(value: Value, rest: Tokens)
    requires GoodValue(value) && PredEnd(rest)
    ensures LikeQuantifier(ValueT(value) + rest) == (Like, ValueT(value) + rest)
  {
    var toks := ValueT(value) + rest;
    match value
    case Param(_, _, _) =>
    case PathValue(path) => PathIsNoQuantifier(path, rest);
    case Lit(_) =>
    case Func(name, args) =>
      hide ListT;
      assert toks[1..][0] == LParen;
  }

  lemma PathIsNoQuantifier(path: Path, rest: Tokens)
    requires path != [] && PredEnd(rest)
    ensures !Operand((PathT(path) + rest)[1..])
  {
    OneThen(Lower(path[0]), FieldsT(path[1..]), rest);
    if |path| > 1 {
      assert FieldsT(path[1..])[0] == Dot;
    } else {
      assert FieldsT(path[1..]) + rest == rest;
    }
    hide FieldsT;
  }

  lemma ComparisonRoundTrip(path: Path, op: Op, value: Value, rest: Tokens)
    requires GoodPred(Cmp(path, op, value), 4) && PredEnd(rest)
    ensures Comparison(path, OpT(op) + ValueT(value) + rest) == Ok(Cmp(path, op, value), rest)
  {
    hide ParseOp, AtOp, ParseValue, ValueT, OpT, GoodValue;
    OpRoundTrip(op, value, rest);
    ValueRoundTrip(value, rest);
  }

  lemma InListRoundTrip(path: Path, values: seq<Value>, rest: Tokens)
    requires values != [] && GoodList(values)
    ensures var toks := [Lower("in"), LParen] + ListT(values) + [RParen] + rest;
            AtOp(toks) && Comparison(path, toks) == Ok(InList(path, values), rest)
  {
    hide ValueList, ListT, GoodValue;
    var toks := [Lower("in"), LParen] + ListT(values) + [RParen] + rest;
    var after := [RParen] + rest;
    assert toks[1..] == [LParen] + ListT(values) + after && toks[1..][1..] == ListT(values) + after;
    ListRoundTrip([], values, after);
    assert [] + values == values && after[1..] == rest;
  }

  /** A path at the start of an atom: what the atom reads before it looks at what follows. */
  lemma AtomPath(path: Path, rest: Tokens)
    requires path != [] && (rest == [] || (!rest[0].Dot? && !rest[0].RawSql? && (rest[0].LParen? ==> |path| > 1)))
    ensures var toks := PathT(path) + rest;
            Atom(toks) ==
              if |path| > 1 && path[|path| - 1] == "any" && At(rest, LParen) then RelationAny(path[..|path| - 1], rest[1..])
              else if AtOp(rest) then Comparison(path, rest)
              else Ok(Bare(path), rest)
  {
    hide PathT, Fields, RelationAny, Comparison, AtOp;
    PathRoundTrip(path, rest);
    NotRaw(path, rest);
  }

  lemma NotRaw(path: Path, rest: Tokens)
    requires path != [] && (rest == [] || !rest[0].RawSql?)
    ensures var toks := PathT(path) + rest; |toks| > 1 ==> !toks[1].RawSql?
  {
    var toks := PathT(path) + rest;
    assert |path| > 1 ==> toks[1] == Dot;
    assert |path| == 1 && rest != [] ==> toks[1] == rest[0];
  }

  lemma PathSnoc(path: Path, last: Ident)
    requires path != []
    ensures PathT(path + [last]) == PathT(path) + [Dot, Lower(last)]
  {
    FieldsSnoc(path[1..], last);
    assert (path + [last])[1..] == path[1..] + [last];
  }

  lemma {:induction false} FieldsSnoc(fields: Path, last: Ident)
    ensures FieldsT(fields + [last]) == FieldsT(fields) + [Dot, Lower(last)]
    decreases |fields|
  {
    if fields == [] {
      assert FieldsT([last]) == [Dot, Lower(last)] + FieldsT([last][1..]);
    } else {
      FieldsSnoc(fields[1..], last);
      assert (fields + [last])[1..] == fields[1..] + [last];
    }
  }

  /** The tokens `rest` do not turn a predicate printed before them into a `by` clause. */
  predicate NoClause(rest: Tokens) {
    |rest| > 1 && rest[0].Lower? ==> !rest[1].Comma? && !rest[1].RParen?
  }

  /** A printed predicate starts with a token that is neither a comma nor a closing parenthesis. */
  lemma {:induction false} PredStart(p: Predicate, min: nat, level: nat)
    requires GoodPred(p, level)
    ensures PredT(p, min) != [] && !PredT(p, min)[0].Comma? && !PredT(p, min)[0].RParen?
    ensures PredPrec(p) == 4 ==> PredT(p, 4) != [] && PredT(p, 4)[0] == (if p.Raw? then Lower("raw") else Lower(Lead(p)))
    decreases p
  {
    hide ValueT, ListT, ByT;
    match p
    case Or(a, b) => PredStart(a, 1, 1);
    case And(a, b) => PredStart(a, 2, 2);
    case _ =>
  }

  /** Nor is a printed predicate ever read as a leading `by` clause. */
  lemma {:induction false} NotABy(p: Predicate, min: nat, rest: Tokens)
    requires GoodPred(p, min) && PredEnd(rest) && NoClause(rest)
    ensures !AtBy(PredT(p, min) + rest)
    decreases p
  {
    hide ValueT, ListT, ByT, GoodValue, Keyword;
    var toks := PredT(p, min) + rest;
    if PredPrec(p) >= min {
      match p
      case Or(a, b) =>
        PredStart(b, 2, 2);
        var after := [Lower("or")] + PredT(b, 2) + rest;
        assert after[1] == PredT(b, 2)[0];
        assert PredBody(p) == PredT(a, 1) + [Lower("or")] + PredT(b, 2);
        assert toks == PredT(a, 1) + after;
        NotABy(a, 1, after);
      case And(a, b) =>
        PredStart(b, 3, 3);
        var after := [Lower("and")] + PredT(b, 3) + rest;
        assert after[1] == PredT(b, 3)[0];
        assert PredBody(p) == PredT(a, 2) + [Lower("and")] + PredT(b, 3);
        assert toks == PredT(a, 2) + after;
        NotABy(a, 2, after);
      case Not(_) =>
      case _ => LeafIsNoBy(p, rest);
    }
  }

  lemma LeafIsNoBy(p: Predicate, rest: Tokens)
    requires GoodPred(p, 4) && PredPrec(p) == 4 && PredEnd(rest) && NoClause(rest)
    ensures !AtBy(PredBody(p) + rest)
  {
    hide ValueT, ListT, ByT, GoodValue, Keyword, PathT;
    var toks := PredBody(p) + rest;
    match p
    case Cmp(path, op, value) => CmpIsNoBy(path, op, value, rest);
    case InList(path, values) =>
      var after := [Lower("in"), LParen] + ListT(values) + [RParen] + rest;
      assert toks == PathT(path) + after;
      PathIsNoBy(path, after);
    case Bare(path) => PathIsNoBy(path, rest);
    case FilterCall(_, _) => assert toks[1] == LParen;
    case Any(path, column, pred) =>
      var after := toks[|PathT(path)|..];
      assert toks == PathT(path) + after && after[0] == Dot;
      PathIsNoBy(path, after);
    case Raw(_) => assert toks[0] == Lower("raw");
  }

  lemma CmpIsNoBy(path: Path, op: Op, value: Value, rest: Tokens)
    requires path != [] && GoodValue(value)
    ensures !AtBy(PredBody(Cmp(path, op, value)) + rest)
  {
    hide ValueT, PathT;
    var after := OpT(op) + ValueT(value) + rest;
    assert PredBody(Cmp(path, op, value)) + rest == PathT(path) + after;
    ValueStart(value);
    assert after[|OpT(op)|] == ValueT(value)[0];
    PathIsNoBy(path, after);
  }

  lemma PathIsNoBy(path: Path, rest: Tokens)
    requires path != []
    requires |rest| > 1 && rest[0].Lower? ==> !rest[1].Comma? && !rest[1].RParen?
    ensures !AtBy(PathT(path) + rest)
  {
    var toks := PathT(path) + rest;
    assert |path| > 1 ==> toks[1] == Dot;
    assert |path| == 1 ==> toks == [Lower(path[0])] + rest;
  }

  function Rank(p: Predicate, level: nat): nat
    requires level <= 4
  {
    if PredPrec(p) < level then 8 - level else 4 - level
  }

  lemma Joined(a: Tokens, op: Token, b: Tokens, rest: Tokens)
    requires b != []
    ensures a + [op] + b + rest == a + ([op] + b + rest)
    ensures ([op] + b + rest)[1] == b[0] && ([op] + b + rest)[1..] == b + rest
  {
  }

  lemma {:induction false} OrLevel(p: Predicate, rest: Tokens)
    requires GoodPred(p, 1) && PredEnd(rest) && NoClause(rest) && !AtKw(rest, "and")
    ensures OrExpr(PredT(p, 1) + rest) == OrTail(p, rest)
    decreases p, Rank(p, 1)
  {
    hide GoodValue, ValueT, AndTail, NotExpr, Atom, ByT, ListT;
    match p
    case Or(a, b) =>
      var after := [Lower("or")] + PredT(b, 2) + rest;
      PredStart(b, 2, 2);
      Joined(PredT(a, 1), Lower("or"), PredT(b, 2), rest);
      assert PredT(p, 1) == PredT(a, 1) + [Lower("or")] + PredT(b, 2);
      OrLevel(a, after);
      AndLevel(b, rest);
      AndStops(b, rest);
    case _ =>
      AndLevel(p, rest);
      AndStops(p, rest);
      assert PredT(p, 1) == PredT(p, 2);
  }

  lemma AndStops(p: Predicate, rest: Tokens)
    requires !AtKw(rest, "and")
    ensures AndTail(p, rest) == Ok(p, rest)
  {
  }

  lemma {:induction false} AndLevel(p: Predicate, rest: Tokens)
    requires GoodPred(p, 2) && PredEnd(rest) && NoClause(rest)
    ensures AndExpr(PredT(p, 2) + rest) == AndTail(p, rest)
    decreases p, Rank(p, 2)
  {
    hide GoodValue, ValueT, NotExpr, Atom, ByT, ListT;
    match p
    case And(a, b) =>
      var after := [Lower("and")] + PredT(b, 3) + rest;
      PredStart(b, 3, 3);
      Joined(PredT(a, 2), Lower("and"), PredT(b, 3), rest);
      assert PredT(p, 2) == PredT(a, 2) + [Lower("and")] + PredT(b, 3);
      AndLevel(a, after);
      NotLevel(b, rest);
    case _ =>
      NotLevel(p, rest);
      assert PredT(p, 2) == PredT(p, 3);
  }

  lemma {:induction false} NotLevel(p: Predicate, rest: Tokens)
    requires GoodPred(p, 3) && PredEnd(rest) && NoClause(rest)
    ensures NotExpr(PredT(p, 3) + rest) == Ok(p, rest)
    decreases p, Rank(p, 3)
  {
    hide GoodValue, ValueT, Atom, ByT, ListT;
    var toks := PredT(p, 3) + rest;
    match p
    case Not(a) =>
      assert PredBody(p) == [Lower("not")] + PredT(a, 4);
      assert toks[0] == Lower("not") && toks[1..] == PredT(a, 4) + rest;
      AtomLevel(a, rest);
    case _ =>
      assert PredT(p, 3) == PredT(p, 4);
      PredStart(p, 4, 3);
      assert toks[0] == PredT(p, 4)[0];
      AtomLevel(p, rest);
  }

  lemma {:induction false} AtomLevel(p: Predicate, rest: Tokens)
    requires GoodPred(p, 4) && PredEnd(rest) && NoClause(rest)
    ensures Atom(PredT(p, 4) + rest) == Ok(p, rest)
    decreases p, Rank(p, 4)
  {
    if PredPrec(p) < 4 {
      Parenthesised(p, rest);
    } else {
      assert PredT(p, 4) == PredBody(p);
      LeafLevel(p, rest);
    }
  }

  lemma {:induction false} Parenthesised(p: Predicate, rest: Tokens)
    requires GoodPred(p, 4) && PredPrec(p) < 4
    ensures Atom([LParen] + PredBody(p) + [RParen] + rest) == Ok(p, rest)
    decreases p, Rank(p, 4), 0
  {
    hide OrExpr, PredBody;
    var toks, after := [LParen] + PredBody(p) + [RParen] + rest, [RParen] + rest;
    assert PredT(p, 1) == PredBody(p);
    assert toks[1..] == PredT(p, 1) + after && after[1..] == rest;
    OrLevel(p, after);
    assert OrTail(p, after) == Ok(p, after);
  }

  lemma {:induction false} LeafLevel(p: Predicate, rest: Tokens)
    requires GoodPred(p, 4) && PredPrec(p) == 4 && PredEnd(rest) && NoClause(rest)
    ensures Atom(PredBody(p) + rest) == Ok(p, rest)
    decreases p, 0, 1
  {
    match p
    case Cmp(path, op, value) => CmpLevel(path, op, value, rest);
    case InList(path, values) => InListLevel(path, values, rest);
    case Bare(path) => BareLevel(path, rest);
    case FilterCall(name, args) => FilterCallLevel(name, args, rest);
    case Any(path, column, pred) => AnyLevel(path, column, pred, rest);
    case Raw(body) => assert (PredBody(p) + rest)[2..] == rest;
  }

  lemma RegroupPieces(a: Tokens, b: Tokens, c: Tokens, d: Tokens, e: Tokens)
    ensures a + b + c + d + e == a + (b + c + d + e)
    ensures a + b + c + e == a + (b + c + e)
  {
  }

  lemma InListLevel(path: Path, values: seq<Value>, rest: Tokens)
    requires path != [] && values != [] && GoodList(values)
    ensures Atom(PredBody(InList(path, values)) + rest) == Ok(InList(path, values), rest)
  {
    hide Atom, Comparison, ListT, PathT;
    var after := [Lower("in"), LParen] + ListT(values) + [RParen] + rest;
    RegroupPieces(PathT(path), [Lower("in"), LParen], ListT(values), [RParen], rest);
    InListRoundTrip(path, values, rest);
    AtomPath(path, after);
  }

  lemma BareLevel(path: Path, rest: Tokens)
    requires path != [] && PredEnd(rest)
    ensures Atom(PathT(path) + rest) == Ok(Bare(path), rest)
  {
    hide Atom;
    AtomPath(path, rest);
  }

  lemma FilterCallLevel(name: Ident, args: seq<Value>, rest: Tokens)
    requires GoodList(args)
    ensures Atom(PredBody(FilterCall(name, args)) + rest) == Ok(FilterCall(name, args), rest)
  {
    hide CallArgs, ListT;
    var toks := PredBody(FilterCall(name, args)) + rest;
    assert toks[0] == Lower(name) && toks[1..] == [LParen] + ListT(args) + [RParen] + rest;
    CallArgsRoundTrip(args, rest);
  }

  lemma CmpLevel(path: Path, op: Op, value: Value, rest: Tokens)
    requires GoodPred(Cmp(path, op, value), 4) && PredEnd(rest)
    ensures Atom(PredBody(Cmp(path, op, value)) + rest) == Ok(Cmp(path, op, value), rest)
  {
    hide Atom, Comparison, PathT, OpT, ValueT;
    var after := OpT(op) + ValueT(value) + rest;
    RegroupPieces(PathT(path), OpT(op), ValueT(value), [], rest);
    OpRoundTrip(op, value, rest);
    ComparisonRoundTrip(path, op, value, rest);
    AtomPath(path, after);
  }

  lemma {:induction false} AnyLevel(path: Path, column: Option<Ident>, pred: Option<Predicate>, rest: Tokens)
    requires GoodPred(Any(path, column, pred), 4)
    ensures Atom(PredBody(Any(path, column, pred)) + rest) == Ok(Any(path, column, pred), rest)
    decreases Any(path, column, pred), 0, 0
  {
    hide Atom, PathT, PredT, ByT, RelationAny;
    var inner := match pred case None => [] case Some(q) => PredT(q, 0);
    var body := ByT(column) + (if column.Some? && pred.Some? then [Comma] else []) + inner + [RParen] + rest;
    var after := [LParen] + body;
    PathSnoc(path, "any");
    assert PredBody(Any(path, column, pred)) + rest == PathT(path) + [Dot, Lower("any")] + after;
    assert (path + ["any"])[..|path|] == path;
    AtomPath(path + ["any"], after);
    assert after[1..] == body;
    AnyBody(path, column, pred, inner, rest);
  }

  /** Where the parts of a quantified predicate start. */
  lemma AnyTokens(column: Option<Ident>, inner: Tokens, rest: Tokens)
    requires inner != []
    ensures var body := ByT(column) + (if column.Some? then [Comma] else []) + inner + [RParen] + rest;
            var after := [RParen] + rest;
            && (inner + after)[0] == inner[0]
            && if column.Some? then |body| > 3 && body[3..] == inner + after && body[2] == Comma else body == inner + after
  {
  }

  lemma {:induction false} AnyBody(path: Path, column: Option<Ident>, pred: Option<Predicate>, inner: Tokens, rest: Tokens)
    requires GoodPred(Any(path, column, pred), 4)
    requires inner == match pred case None => [] case Some(q) => PredT(q, 0)
    ensures RelationAny(path, ByT(column) + (if column.Some? && pred.Some? then [Comma] else []) + inner + [RParen] + rest)
            == Ok(Any(path, column, pred), rest)
    decreases pred, 9
  {
    hide OrExpr, PredBody;
    var after := [RParen] + rest;
    var body := ByT(column) + (if column.Some? && pred.Some? then [Comma] else []) + inner + [RParen] + rest;
    assert after[1..] == rest;
    if pred.Some? {
      var q := pred.value;
      assert PredT(q, 0) == PredT(q, 1);
      OrLevel(q, after);
      assert OrTail(q, after) == Ok(q, after);
      PredStart(q, 1, 1);
      NotABy(q, 1, after);
      AnyTokens(column, inner, rest);
    } else {
      assert if column.Some? then body[2..] == after && body[2] == RParen else body == after;
    }
  }

  /** Printed predicates read back as the same tree, and reading stops where printing did. */
  lemma PredicateRoundTrip(p: Predicate, rest: Tokens)
    requires GoodPred(p, 1) && PredEnd(rest) && NoClause(rest) && !AtKw(rest, "and") && !AtKw(rest, "or")
    ensures OrExpr(PredT(p, 0) + rest) == Ok(p, rest)
  {
    OrLevel(p, rest);
    assert PredT(p, 0) == PredT(p, 1);
  }

  // ---------- computed expressions --------------------------------------------------

  predicate AtAny(toks: Tokens, ts: seq<Token>) { toks != [] && toks[0] in ts }

  lemma {:induction false} ExprStart(e: ShapeExpr, min: nat)
    requires GoodExpr(e)
    ensures ExprT(e, min) != [] && !ExprT(e, min)[0].Comma? && !ExprT(e, min)[0].RParen?
    decreases e
  {
    hide ValueT, ArmsT, GoodValue;
    match e
    case Arith(l, op, _) => ExprStart(l, OpPrec(op));
    case Concat(l, _) => ExprStart(l, 1);
    case Leaf(v) => ValueStart(v);
    case Case(_, _) =>
  }

  function ExprRank(e: ShapeExpr, level: nat): nat
    requires level <= 4
  {
    if ExprPrec(e) < level then 8 - level else 4 - level
  }

  lemma {:induction false} ConcatLevel(e: ShapeExpr, rest: Tokens)
    requires GoodExpr(e) && ValueEnd(rest) && !AtAny(rest, [Plus, Minus, Star, Slash])
    ensures ConcatExpr(ExprT(e, 1) + rest) == ConcatTail(e, rest)
    decreases e, ExprRank(e, 1)
  {
    hide GoodValue, ValueT, MulExpr, ArmsT;
    match e
    case Concat(l, r) =>
      var after := [PipePipe] + ExprT(r, 2) + rest;
      Operation(ExprT(l, 1), PipePipe, ExprT(r, 2), rest);
      assert ExprT(e, 1) == ExprT(l, 1) + [PipePipe] + ExprT(r, 2);
      ConcatLevel(l, after);
      AddLevel(r, rest);
    case _ =>
      AddLevel(e, rest);
      assert ExprT(e, 1) == ExprT(e, 2);
  }

  lemma {:induction false} AddLevel(e: ShapeExpr, rest: Tokens)
    requires GoodExpr(e) && ValueEnd(rest) && !AtAny(rest, [Star, Slash])
    ensures AddExpr(ExprT(e, 2) + rest) == AddTail(e, rest)
    decreases e, ExprRank(e, 2)
  {
    hide GoodValue, ValueT, Primary, ArmsT;
    if e.Arith? && OpPrec(e.op) == 2 {
      var after := [ArithOpT(e.op)] + ExprT(e.r, 3) + rest;
      Operation(ExprT(e.l, 2), ArithOpT(e.op), ExprT(e.r, 3), rest);
      assert ExprT(e, 2) == ExprT(e.l, 2) + [ArithOpT(e.op)] + ExprT(e.r, 3);
      AddLevel(e.l, after);
      MulLevel(e.r, rest);
    } else {
      MulLevel(e, rest);
      assert ExprT(e, 2) == ExprT(e, 3);
    }
  }

  lemma {:induction false} MulLevel(e: ShapeExpr, rest: Tokens)
    requires GoodExpr(e) && ValueEnd(rest)
    ensures MulExpr(ExprT(e, 3) + rest) == MulTail(e, rest)
    decreases e, ExprRank(e, 3)
  {
    hide GoodValue, ValueT, Primary, ArmsT;
    if e.Arith? && OpPrec(e.op) == 3 {
      var after := [ArithOpT(e.op)] + ExprT(e.r, 4) + rest;
      Operation(ExprT(e.l, 3), ArithOpT(e.op), ExprT(e.r, 4), rest);
      assert ExprT(e, 3) == ExprT(e.l, 3) + [ArithOpT(e.op)] + ExprT(e.r, 4);
      MulLevel(e.l, after);
      PrimaryLevel(e.r, rest);
    } else {
      PrimaryLevel(e, rest);
      assert ExprT(e, 3) == ExprT(e, 4);
    }
  }

  lemma {:induction false} PrimaryLevel(e: ShapeExpr, rest: Tokens)
    requires GoodExpr(e) && ValueEnd(rest)
    ensures Primary(ExprT(e, 4) + rest) == Ok(e, rest)
    decreases e, ExprRank(e, 4)
  {
    match e
    case Leaf(v) => LeafExpr(v, rest);
    case Case(arms, otherwise) => CaseLevel(arms, otherwise, rest);
    case _ => ParenthesisedExpr(e, rest);
  }

  lemma LeafExpr(v: Value, rest: Tokens)
    requires GoodExpr(Leaf(v)) && ValueEnd(rest)
    ensures Primary(ValueT(v) + rest) == Ok(Leaf(v), rest)
  {
    hide ParseValue, ValueT, CaseExpr, ConcatExpr;
    ValueStart(v);
    assert (ValueT(v) + rest)[0] == ValueT(v)[0];
    ValueRoundTrip(v, rest);
  }

  lemma {:induction false} ParenthesisedExpr(e: ShapeExpr, rest: Tokens)
    requires GoodExpr(e) && ExprPrec(e) < 4
    ensures Primary([LParen] + ExprBody(e) + [RParen] + rest) == Ok(e, rest)
    decreases e, ExprRank(e, 4), 0
  {
    hide ConcatExpr, ExprBody;
    var toks, after := [LParen] + ExprBody(e) + [RParen] + rest, [RParen] + rest;
    assert ExprT(e, 1) == ExprBody(e);
    assert toks[1..] == ExprT(e, 1) + after && after[1..] == rest;
    ConcatLevel(e, after);
    assert ConcatTail(e, after) == Ok(e, after);
  }

  /** Where the parts of a case expression start. */
  lemma {:induction false} CaseTokens(arms: seq<Arm>, otherwise: ShapeExpr, rest: Tokens)
    ensures var toks := ExprBody(Case(arms, otherwise)) + rest;
            var atEnd := [Lower("end")] + rest;
            var atElse := [Lower("else")] + ExprT(otherwise, 0) + atEnd;
            && toks != [] && toks[0] == Lower("case") && toks[1..] == ArmsT(arms) + atElse
            && atElse[0] == Lower("else") && atElse[1..] == ExprT(otherwise, 0) + atEnd && atEnd[0] == Lower("end") && atEnd[1..] == rest
  {
    hide ArmsT, ExprT;
    var atEnd := [Lower("end")] + rest;
    assert ExprBody(Case(arms, otherwise)) + rest == [Lower("case")] + (ArmsT(arms) + ([Lower("else")] + (ExprT(otherwise, 0) + atEnd)));
    assert [Lower("else")] + ExprT(otherwise, 0) + atEnd == [Lower("else")] + (ExprT(otherwise, 0) + atEnd);
  }

  /** A case expression read from its parts. */
  lemma {:induction false} CaseReads(arms: seq<Arm>, otherwise: ShapeExpr, toks: Tokens, atElse: Tokens, atEnd: Tokens)
    requires arms != [] && AtKw(toks, "case") && Arms([], toks[1..]) == Ok(arms, atElse)
    requires AtKw(atElse, "else") && ConcatExpr(atElse[1..]) == Ok(otherwise, atEnd) && AtKw(atEnd, "end")
    ensures Primary(toks) == Ok(Case(arms, otherwise), atEnd[1..])
  {
    hide Arms, ConcatExpr;
  }

  lemma {:induction false} CaseLevel(arms: seq<Arm>, otherwise: ShapeExpr, rest: Tokens)
    requires GoodExpr(Case(arms, otherwise))
    ensures Primary(ExprBody(Case(arms, otherwise)) + rest) == Ok(Case(arms, otherwise), rest)
    decreases Case(arms, otherwise), 0, 0
  {
    hide ArmsT, Arms, ConcatExpr, GoodPred, ExprT, ExprBody, Primary;
    var toks := ExprBody(Case(arms, otherwise)) + rest;
    var atEnd := [Lower("end")] + rest;
    var atElse := [Lower("else")] + ExprT(otherwise, 0) + atEnd;
    CaseTokens(arms, otherwise, rest);
    ArmsLevel([], arms, atElse);
    assert [] + arms == arms;
    ExprLowest(otherwise);
    ConcatLevel(otherwise, atEnd);
    assert ConcatTail(otherwise, atEnd) == Ok(otherwise, atEnd);
    CaseReads(arms, otherwise, toks, atElse, atEnd);
  }

  /** Where the parts of the first arm start. */
  lemma {:induction false} ArmTokens(arms: seq<Arm>, rest: Tokens)
    requires arms != [] && AtKw(rest, "else") && ExprT(arms[0].result, 0) != []
    ensures var toks := ArmsT(arms) + rest;
            var next := ArmsT(arms[1..]) + rest;
            var atThen := [Lower("then")] + ExprT(arms[0].result, 0) + next;
            && toks != [] && toks[0] == Lower("when") && toks[1..] == PredT(arms[0].cond, 0) + atThen
            && atThen[0] == Lower("then") && atThen[1..] == ExprT(arms[0].result, 0) + next && atThen[1] == ExprT(arms[0].result, 0)[0]
            && next != [] && next[0] == if |arms| > 1 then Lower("when") else Lower("else")
  {
    hide PredT, ExprT;
    var next := ArmsT(arms[1..]) + rest;
    var atThen := [Lower("then")] + ExprT(arms[0].result, 0) + next;
    assert ArmsT(arms) + rest == [Lower("when")] + (PredT(arms[0].cond, 0) + atThen);
    assert atThen == [Lower("then")] + (ExprT(arms[0].result, 0) + next);
  }

  lemma ExprLowest(e: ShapeExpr)
    ensures ExprT(e, 0) == ExprT(e, 1)
  {
  }

  /** The first arm read from its parts. */
  lemma {:induction false} ArmReads(acc: seq<Arm>, arm: Arm, toks: Tokens, atThen: Tokens, next: Tokens)
    requires AtKw(toks, "when") && OrExpr(toks[1..]) == Ok(arm.cond, atThen)
    requires AtKw(atThen, "then") && ConcatExpr(atThen[1..]) == Ok(arm.result, next) && |next| < |toks|
    ensures Arms(acc, toks) == Arms(acc + [arm], next)
  {
    hide OrExpr, ConcatExpr;
  }

  lemma {:induction false} ArmsLevel(acc: seq<Arm>, arms: seq<Arm>, rest: Tokens)
    requires forall i | 0 <= i < |arms| :: GoodPred(arms[i].cond, 1) && GoodExpr(arms[i].result)
    requires AtKw(rest, "else")
    ensures Arms(acc, ArmsT(arms) + rest) == Ok(acc + arms, rest)
    decreases arms, 0, 1
  {
    hide OrExpr, ConcatExpr, GoodPred, GoodExpr, PredT, ExprT, Arms, ArmsT;
    if arms == [] {
      NoArmsLeft(acc, rest);
    } else {
      assert arms[0].result < arms[0];
      FirstArm(acc, arms, rest);
      ArmsLevel(acc + [arms[0]], arms[1..], rest);
      assert acc + [arms[0]] + arms[1..] == acc + arms;
    }
  }

  lemma {:induction false} NoArmsLeft(acc: seq<Arm>, rest: Tokens)
    requires AtKw(rest, "else")
    ensures Arms(acc, ArmsT([]) + rest) == Ok(acc + [], rest)
  {
    assert ArmsT([]) + rest == rest && acc + [] == acc;
  }

  lemma {:induction false} FirstArm(acc: seq<Arm>, arms: seq<Arm>, rest: Tokens)
    requires arms != [] && GoodPred(arms[0].cond, 1) && GoodExpr(arms[0].result) && AtKw(rest, "else")
    ensures Arms(acc, ArmsT(arms) + rest) == Arms(acc + [arms[0]], ArmsT(arms[1..]) + rest)
    decreases arms, 0, 0
  {
    hide OrExpr, ConcatExpr, GoodPred, GoodExpr, PredT, ExprT, Arms, ArmsT;
    var arm := arms[0];
    assert arm.result < arm;
    var next := ArmsT(arms[1..]) + rest;
    var atThen := [Lower("then")] + ExprT(arm.result, 0) + next;
    ExprStart(arm.result, 0);
    ArmTokens(arms, rest);
    PredicateRoundTrip(arm.cond, atThen);
    ExprLowest(arm.result);
    ConcatLevel(arm.result, next);
    assert ConcatTail(arm.result, next) == Ok(arm.result, next);
    ArmReads(acc, arm, ArmsT(arms) + rest, atThen, next);
  }

  /** Printed computed expressions read back as the same tree. */
  lemma ExprRoundTrips(e: ShapeExpr, rest: Tokens)
    requires GoodExpr(e) && ValueEnd(rest) && !AtAny(rest, [PipePipe, Plus, Minus, Star, Slash])
    ensures ConcatExpr(ExprT(e, 0) + rest) == Ok(e, rest)
  {
    ConcatLevel(e, rest);
    assert ExprT(e, 0) == ExprT(e, 1);
  }

  // ---------- assignment arithmetic -------------------------------------------------

  function RhsRank(r: AssignRhs, level: nat): nat
    requires level <= 3
  {
    if RhsPrec(r) < level then 6 - level else 3 - level
  }

  lemma {:induction false} RhsLevel(r: AssignRhs, rest: Tokens)
    requires GoodRhs(r) && ValueEnd(rest) && !AtAny(rest, [Star, Slash])
    ensures Rhs(RhsT(r, 1) + rest) == RhsTail(r, rest)
    decreases r, RhsRank(r, 1)
  {
    hide GoodValue, ValueT, Factor;
    if r.Calc? && OpPrec(r.op) == 2 {
      var after := [ArithOpT(r.op)] + RhsT(r.r, 2) + rest;
      Operation(RhsT(r.l, 1), ArithOpT(r.op), RhsT(r.r, 2), rest);
      assert RhsT(r, 1) == RhsT(r.l, 1) + [ArithOpT(r.op)] + RhsT(r.r, 2);
      RhsLevel(r.l, after);
      TermLevel(r.r, rest);
    } else {
      TermLevel(r, rest);
      assert RhsT(r, 1) == RhsT(r, 2);
    }
  }

  lemma {:induction false} TermLevel(r: AssignRhs, rest: Tokens)
    requires GoodRhs(r) && ValueEnd(rest)
    ensures Term(RhsT(r, 2) + rest) == TermTail(r, rest)
    decreases r, RhsRank(r, 2)
  {
    hide GoodValue, ValueT, Factor;
    if r.Calc? && OpPrec(r.op) == 3 {
      var after := [ArithOpT(r.op)] + RhsT(r.r, 3) + rest;
      Operation(RhsT(r.l, 2), ArithOpT(r.op), RhsT(r.r, 3), rest);
      assert RhsT(r, 2) == RhsT(r.l, 2) + [ArithOpT(r.op)] + RhsT(r.r, 3);
      TermLevel(r.l, after);
      FactorLevel(r.r, rest);
    } else {
      FactorLevel(r, rest);
      assert RhsT(r, 2) == RhsT(r, 3);
    }
  }

  lemma {:induction false} FactorLevel(r: AssignRhs, rest: Tokens)
    requires GoodRhs(r) && ValueEnd(rest)
    ensures Factor(RhsT(r, 3) + rest) == Ok(r, rest)
    decreases r, RhsRank(r, 3)
  {
    match r
    case Plain(v) =>
      hide ParseValue, ValueT;
      ValueStart(v);
      assert (ValueT(v) + rest)[0] == ValueT(v)[0];
      ValueRoundTrip(v, rest);
    case Calc(_, _, _) =>
      hide Rhs, RhsBody;
      var toks, after := RhsT(r, 3) + rest, [RParen] + rest;
      assert toks[1..] == RhsBody(r) + after && after[1..] == rest;
      assert RhsT(r, 1) == RhsBody(r);
      RhsLevel(r, after);
      assert RhsTail(r, after) == Ok(r, after);
  }

  /** Printed assignment arithmetic reads back as the same tree. */
  lemma RhsRoundTrip(r: AssignRhs, rest: Tokens)
    requires GoodRhs(r) && ValueEnd(rest) && !AtAny(rest, [Plus, Minus, Star, Slash])
    ensures Rhs(RhsT(r, 0) + rest) == Ok(r, rest)
  {
    RhsLevel(r, rest);
    assert RhsT(r, 0) == RhsT(r, 1);
  }
}
