/** The recursive-descent parser of the same grammars. A loop that folds operators into `lhs` is
    a tail function from `lhs` and the tokens left. */
module ExprParser {
  import opened Wrappers
  import opened ExprTree

  datatype Parsed<+T> = Ok(value: T, rest: Tokens) | Fail

  predicate At(toks: Tokens, t: Token) { toks != [] && toks[0] == t }

  predicate AtKw(toks: Tokens, kw: string) { At(toks, Lower(kw)) }

  predicate LowerAt(toks: Tokens, i: nat) { i < |toks| && toks[i].Lower? }

  // ---------- values ----------------------------------------------------------------

  const I64_MIN: int := -0x8000_0000_0000_0000
  const I64_MAX: int := 0x7fff_ffff_ffff_ffff

  predicate Keyword(s: string) { s == "true" || s == "false" || s == "null" }

  /** `.name` as long as one follows; a dot with no name after it is an error. */
  function Fields(acc: Path, toks: Tokens): (r: Parsed<Path>)
    ensures r.Ok? ==> |r.rest| <= |toks|
    decreases |toks|
  {
    if !At(toks, Dot) then Ok(acc, toks)
    else if LowerAt(toks, 1) then Fields(acc + [toks[1].text], toks[2..])
    else Fail
  }

  function ParseInt(n: int, rest: Tokens): Parsed<Value> {
    if I64_MIN <= n <= I64_MAX then Ok(Lit(IntLit(n)), rest) else Fail
  }

  function ParseValue(toks: Tokens): (r: Parsed<Value>)
    ensures r.Ok? ==> |r.rest| < |toks|
    decreases |toks|, 0
  {
    if toks == [] then Fail
    else match toks[0]
      case Dollar =>
        if !LowerAt(toks, 1) then Fail
        else (match Fields([], toks[2..])
          case Fail => Fail
          case Ok(fields, rest) =>
            var optional := At(rest, Question);
            Ok(Param(toks[1].text, fields, optional), if optional then rest[1..] else rest))
      case Int(n) => ParseInt(n, toks[1..])
      case Float(text) => Ok(Lit(Decimal(text)), toks[1..])
      case Str(s) => Ok(Lit(StrLit(s)), toks[1..])
      case Minus =>
        if |toks| > 1 && toks[1].Int? then ParseInt(0 - toks[1].n, toks[2..])
        else if |toks| > 1 && toks[1].Float? then Ok(Lit(Decimal("-" + toks[1].text)), toks[2..])
        else Fail
      case Lower(name) =>
        if name == "null" then Ok(Lit(NullLit), toks[1..])
        else if Keyword(name) then Ok(Lit(BoolLit(name == "true")), toks[1..])
        else if At(toks[1..], LParen) then
          (match CallArgs(toks[1..])
          case Fail => Fail
          case Ok(args, rest) => Ok(Func(name, args), rest))
        else
          (match Fields([name], toks[1..])
          case Fail => Fail
          case Ok(path, rest) => Ok(PathValue(path), rest))
      case _ => Fail
  }

  /** `(v, v, …)`, from the opening parenthesis. */
  function CallArgs(toks: Tokens): (r: Parsed<seq<Value>>)
    ensures r.Ok? ==> |r.rest| < |toks|
    decreases |toks|, 1
  {
    if !At(toks, LParen) then Fail
    else if At(toks[1..], RParen) then Ok([], toks[2..])
    else Closed(ValueList([], toks[1..]))
  }

  function Closed<T>(r: Parsed<T>): (q: Parsed<T>)
    ensures q.Ok? ==> r.Ok? && q.value == r.value && |q.rest| < |r.rest|
  {
    match r
    case Fail => Fail
    case Ok(value, rest) => if At(rest, RParen) then Ok(value, rest[1..]) else Fail
  }

  function ValueList(acc: seq<Value>, toks: Tokens): (r: Parsed<seq<Value>>)
    ensures r.Ok? ==> |r.rest| < |toks|
    decreases |toks|, 1
  {
    match ParseValue(toks)
    case Fail => Fail
    case Ok(v, rest) => if At(rest, Comma) then ValueList(acc + [v], rest[1..]) else Ok(acc + [v], rest)
  }

  // ---------- predicates ------------------------------------------------------------

  predicate AtOp(toks: Tokens) {
    && toks != []
    && (toks[0].Eq? || toks[0].Ne? || toks[0].Gt? || toks[0].Lt? || toks[0].Ge? || toks[0].Le? || toks[0].Tilde?
        || toks[0] == Lower("in") || toks[0] == Lower("has"))
  }

  /** What can start an operand after a quantifier. */
  predicate Operand(toks: Tokens) {
    && toks != []
    && (toks[0].Dollar? || toks[0].Str? || toks[0].Int? || toks[0].Float? || toks[0].Minus?
        || (toks[0].Lower? && toks[0].text !in ["and", "or", "then"]))
  }

  /** After `~`: `all` and `any` quantify when an operand follows, and are columns otherwise. */
  function LikeQuantifier(toks: Tokens): (r: (Op, Tokens))
    ensures |r.1| <= |toks|
  {
    if AtKw(toks, "all") && Operand(toks[1..]) then (LikeAll, toks[1..])
    else if AtKw(toks, "any") && Operand(toks[1..]) then (LikeAny, toks[1..])
    else (Like, toks)
  }

  function ParseOp(toks: Tokens): (r: (Op, Tokens))
    requires AtOp(toks)
    ensures |r.1| < |toks|
  {
    match toks[0]
    case Eq => (OpEq, toks[1..])
    case Ne => (OpNe, toks[1..])
    case Gt => (OpGt, toks[1..])
    case Lt => (OpLt, toks[1..])
    case Ge => (OpGe, toks[1..])
    case Le => (OpLe, toks[1..])
    case Tilde => LikeQuantifier(toks[1..])
    case _ => (if toks[0] == Lower("in") then In else Has, toks[1..])
  }

  function OrExpr(toks: Tokens): (r: Parsed<Predicate>)
    ensures r.Ok? ==> |r.rest| < |toks|
    decreases |toks|, 4
  {
    match AndExpr(toks)
    case Fail => Fail
    case Ok(lhs, rest) => OrTail(lhs, rest)
  }

  function OrTail(lhs: Predicate, toks: Tokens): (r: Parsed<Predicate>)
    ensures r.Ok? ==> |r.rest| <= |toks|
    decreases |toks|, 5
  {
    if !AtKw(toks, "or") then Ok(lhs, toks)
    else match AndExpr(toks[1..])
      case Fail => Fail
      case Ok(rhs, rest) => OrTail(Or(lhs, rhs), rest)
  }

  function AndExpr(toks: Tokens): (r: Parsed<Predicate>)
    ensures r.Ok? ==> |r.rest| < |toks|
    decreases |toks|, 2
  {
    match NotExpr(toks)
    case Fail => Fail
    case Ok(lhs, rest) => AndTail(lhs, rest)
  }

  function AndTail(lhs: Predicate, toks: Tokens): (r: Parsed<Predicate>)
    ensures r.Ok? ==> |r.rest| <= |toks|
    decreases |toks|, 3
  {
    if !AtKw(toks, "and") then Ok(lhs, toks)
    else match NotExpr(toks[1..])
      case Fail => Fail
      case Ok(rhs, rest) => AndTail(And(lhs, rhs), rest)
  }

  function NotExpr(toks: Tokens): (r: Parsed<Predicate>)
    ensures r.Ok? ==> |r.rest| < |toks|
    decreases |toks|, 1
  {
    if !AtKw(toks, "not") then Atom(toks)
    else match Atom(toks[1..])
      case Fail => Fail
      case Ok(p, rest) => Ok(Not(p), rest)
  }

  function Atom(toks: Tokens): (r: Parsed<Predicate>)
    ensures r.Ok? ==> |r.rest| < |toks|
    decreases |toks|, 0
  {
    if At(toks, LParen) then Closed(OrExpr(toks[1..]))
    else if AtKw(toks, "raw") && |toks| > 1 && toks[1].RawSql? then Ok(Raw(toks[1].body), toks[2..])
    else if !LowerAt(toks, 0) then Fail
    else if At(toks[1..], LParen) then
      (match CallArgs(toks[1..])
      case Fail => Fail
      case Ok(args, rest) => Ok(FilterCall(toks[0].text, args), rest))
    else match Fields([toks[0].text], toks[1..])
      case Fail => Fail
      case Ok(path, rest) =>
        if |path| > 1 && path[|path| - 1] == "any" && At(rest, LParen) then
          RelationAny(path[..|path| - 1], rest[1..])
        else if AtOp(rest) then Comparison(path, rest)
        else Ok(Bare(path), rest)
  }

  function Comparison(path: Path, toks: Tokens): (r: Parsed<Predicate>)
    requires AtOp(toks)
    ensures r.Ok? ==> |r.rest| < |toks|
  {
    var (op, rest) := ParseOp(toks);
    if op == In && At(rest, LParen) then
      match Closed(ValueList([], rest[1..]))
      case Fail => Fail
      case Ok(values, after) => Ok(InList(path, values), after)
    else
      match ParseValue(rest)
      case Fail => Fail
      case Ok(value, after) => Ok(Cmp(path, op, value), after)
  }

  /** A `by` clause leads only when its column is followed by a comma or the end. */
  predicate AtBy(toks: Tokens) {
    AtKw(toks, "by") && LowerAt(toks, 1) && |toks| > 2 && (toks[2].Comma? || toks[2].RParen?)
  }

  function RelationAny(path: Path, toks: Tokens): (r: Parsed<Predicate>)
    ensures r.Ok? ==> |r.rest| < |toks|
    decreases |toks|, 6
  {
    var column := if AtBy(toks) then Some(toks[1].text) else None;
    var after := if column.None? then toks else if toks[2].Comma? then toks[3..] else toks[2..];
    if At(after, RParen) then Ok(Any(path, column, None), after[1..])
    else match Closed(OrExpr(after))
      case Fail => Fail
      case Ok(pred, rest) => Ok(Any(path, column, Some(pred)), rest)
  }

  // ---------- computed expressions --------------------------------------------------

  function ConcatExpr(toks: Tokens): (r: Parsed<ShapeExpr>)
    ensures r.Ok? ==> |r.rest| < |toks|
    decreases |toks|, 4
  {
    match AddExpr(toks)
    case Fail => Fail
    case Ok(lhs, rest) => ConcatTail(lhs, rest)
  }

  function ConcatTail(lhs: ShapeExpr, toks: Tokens): (r: Parsed<ShapeExpr>)
    ensures r.Ok? ==> |r.rest| <= |toks|
    decreases |toks|, 5
  {
    if !At(toks, PipePipe) then Ok(lhs, toks)
    else match AddExpr(toks[1..])
      case Fail => Fail
      case Ok(rhs, rest) => ConcatTail(Concat(lhs, rhs), rest)
  }

  function AddExpr(toks: Tokens): (r: Parsed<ShapeExpr>)
    ensures r.Ok? ==> |r.rest| < |toks|
    decreases |toks|, 2
  {
    match MulExpr(toks)
    case Fail => Fail
    case Ok(lhs, rest) => AddTail(lhs, rest)
  }

  function AddTail(lhs: ShapeExpr, toks: Tokens): (r: Parsed<ShapeExpr>)
    ensures r.Ok? ==> |r.rest| <= |toks|
    decreases |toks|, 3
  {
    if !At(toks, Plus) && !At(toks, Minus) then Ok(lhs, toks)
    else match MulExpr(toks[1..])
      case Fail => Fail
      case Ok(rhs, rest) => AddTail(Arith(lhs, if At(toks, Plus) then Add else Sub, rhs), rest)
  }

  function MulExpr(toks: Tokens): (r: Parsed<ShapeExpr>)
    ensures r.Ok? ==> |r.rest| < |toks|
    decreases |toks|, 1
  {
    match Primary(toks)
    case Fail => Fail
    case Ok(lhs, rest) => MulTail(lhs, rest)
  }

  function MulTail(lhs: ShapeExpr, toks: Tokens): (r: Parsed<ShapeExpr>)
    ensures r.Ok? ==> |r.rest| <= |toks|
    decreases |toks|, 1
  {
    if !At(toks, Star) && !At(toks, Slash) then Ok(lhs, toks)
    else match Primary(toks[1..])
      case Fail => Fail
      case Ok(rhs, rest) => MulTail(Arith(lhs, if At(toks, Star) then Mul else Div, rhs), rest)
  }

  function Primary(toks: Tokens): (r: Parsed<ShapeExpr>)
    ensures r.Ok? ==> |r.rest| < |toks|
    decreases |toks|, 0
  {
    if At(toks, LParen) then Closed(ConcatExpr(toks[1..]))
    else if AtKw(toks, "case") then CaseExpr(toks[1..])
    else match ParseValue(toks)
      case Fail => Fail
      case Ok(v, rest) => Ok(Leaf(v), rest)
  }

  /** What follows `case`: arms, at least one, and the `else` that closes them. */
  function CaseExpr(toks: Tokens): (r: Parsed<ShapeExpr>)
    ensures r.Ok? ==> |r.rest| < |toks|
    decreases |toks|, 7
  {
    match Arms([], toks)
    case Fail => Fail
    case Ok(arms, rest) =>
      if arms == [] || !AtKw(rest, "else") then Fail
      else match ConcatExpr(rest[1..])
        case Fail => Fail
        case Ok(otherwise, after) => if AtKw(after, "end") then Ok(Case(arms, otherwise), after[1..]) else Fail
  }

  function Arms(acc: seq<Arm>, toks: Tokens): (r: Parsed<seq<Arm>>)
    ensures r.Ok? ==> |r.rest| <= |toks|
    decreases |toks|, 6
  {
    if !AtKw(toks, "when") then Ok(acc, toks)
    else match OrExpr(toks[1..])
      case Fail => Fail
      case Ok(cond, rest) =>
        if !AtKw(rest, "then") then Fail
        else match ConcatExpr(rest[1..])
          case Fail => Fail
          case Ok(result, after) => Arms(acc + [Arm(cond, result)], after)
  }

  // ---------- assignment arithmetic -------------------------------------------------

  function Rhs(toks: Tokens): (r: Parsed<AssignRhs>)
    ensures r.Ok? ==> |r.rest| < |toks|
    decreases |toks|, 2
  {
    match Term(toks)
    case Fail => Fail
    case Ok(lhs, rest) => RhsTail(lhs, rest)
  }

  function RhsTail(lhs: AssignRhs, toks: Tokens): (r: Parsed<AssignRhs>)
    ensures r.Ok? ==> |r.rest| <= |toks|
    decreases |toks|, 3
  {
    if !At(toks, Plus) && !At(toks, Minus) then Ok(lhs, toks)
    else match Term(toks[1..])
      case Fail => Fail
      case Ok(rhs, rest) => RhsTail(Calc(lhs, if At(toks, Plus) then Add else Sub, rhs), rest)
  }

  function Term(toks: Tokens): (r: Parsed<AssignRhs>)
    ensures r.Ok? ==> |r.rest| < |toks|
    decreases |toks|, 1
  {
    match Factor(toks)
    case Fail => Fail
    case Ok(lhs, rest) => TermTail(lhs, rest)
  }

  function TermTail(lhs: AssignRhs, toks: Tokens): (r: Parsed<AssignRhs>)
    ensures r.Ok? ==> |r.rest| <= |toks|
    decreases |toks|, 1
  {
    if !At(toks, Star) && !At(toks, Slash) then Ok(lhs, toks)
    else match Factor(toks[1..])
      case Fail => Fail
      case Ok(rhs, rest) => TermTail(Calc(lhs, if At(toks, Star) then Mul else Div, rhs), rest)
  }

  function Factor(toks: Tokens): (r: Parsed<AssignRhs>)
    ensures r.Ok? ==> |r.rest| < |toks|
    decreases |toks|, 0
  {
    if At(toks, LParen) then Closed(Rhs(toks[1..]))
    else match ParseValue(toks)
      case Fail => Fail
      case Ok(v, rest) => Ok(Plain(v), rest)
  }
}
