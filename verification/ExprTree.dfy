/** The three expression languages as trees, and the tokens the formatter prints for them. */
module ExprTree {
  import opened Wrappers

  // ---------- tokens ----------------------------------------------------------------

  /** A lexed token. Keywords are lower-case identifiers told apart by position; `Other` stands
      for the tokens no expression contains. */
  datatype Token =
    | Lower(text: string) | Int(n: nat) | Float(text: string) | Str(s: string) | RawSql(body: string)
    | LParen | RParen | Comma | Dot | Dollar | Question
    | Eq | Ne | Gt | Lt | Ge | Le | Tilde
    | PipePipe | Plus | Minus | Star | Slash
    | Other(text: string)

  type Tokens = seq<Token>

  // ---------- trees -----------------------------------------------------------------

  type Ident = string
  type Path = seq<Ident>

  /** A decimal keeps every digit it was written with, and its sign. */
  datatype Literal = StrLit(s: string) | IntLit(n: int) | Decimal(text: string) | BoolLit(b: bool) | NullLit

  datatype Value =
    | Param(name: Ident, fields: Path, optional: bool)
    | PathValue(path: Path)
    | Lit(lit: Literal)
    | Func(name: Ident, args: seq<Value>)

  datatype Op = OpEq | OpNe | OpGt | OpLt | OpGe | OpLe | Like | LikeAll | LikeAny | In | Has

  datatype Predicate =
    | Or(l: Predicate, r: Predicate)
    | And(l: Predicate, r: Predicate)
    | Not(p: Predicate)
    | Cmp(path: Path, op: Op, value: Value)
    | InList(path: Path, values: seq<Value>)
    | Bare(path: Path)
    | FilterCall(name: Ident, args: seq<Value>)
    | Any(path: Path, column: Option<Ident>, pred: Option<Predicate>)
    | Raw(body: string)

  datatype ArithOp = Add | Sub | Mul | Div

  datatype Arm = Arm(cond: Predicate, result: ShapeExpr)

  datatype ShapeExpr =
    | Leaf(value: Value)
    | Case(arms: seq<Arm>, otherwise: ShapeExpr)
    | Arith(l: ShapeExpr, op: ArithOp, r: ShapeExpr)
    | Concat(l: ShapeExpr, r: ShapeExpr)

  datatype AssignRhs = Plain(value: Value) | Calc(l: AssignRhs, op: ArithOp, r: AssignRhs)

  // ---------- printing values -------------------------------------------------------

  /** `.a.b` for the fields after a first name. */
  function FieldsT(fields: Path): Tokens {
    if fields == [] then [] else [Dot, Lower(fields[0])] + FieldsT(fields[1..])
  }

  function PathT(path: Path): Tokens {
    if path == [] then [] else [Lower(path[0])] + FieldsT(path[1..])
  }

  function LiteralT(l: Literal): Tokens {
    match l
    case StrLit(s) => [Str(s)]
    case IntLit(n) => if n < 0 then [Minus, Int(-n)] else [Int(n)]
    case Decimal(text) => if text != "" && text[0] == '-' then [Minus, Float(text[1..])] else [Float(text)]
    case BoolLit(b) => [Lower(if b then "true" else "false")]
    case NullLit => [Lower("null")]
  }

  function ValueT(v: Value): Tokens
    decreases v, 0
  {
    match v
    case Param(name, fields, optional) =>
      [Dollar, Lower(name)] + FieldsT(fields) + (if optional then [Question] else [])
    case PathValue(path) => PathT(path)
    case Lit(l) => LiteralT(l)
    case Func(name, args) => [Lower(name), LParen] + ListT(args) + [RParen]
  }

  function ListT(values: seq<Value>): Tokens
    decreases values, 1
  {
    if values == [] then []
    else if |values| == 1 then ValueT(values[0])
    else ValueT(values[0]) + [Comma] + ListT(values[1..])
  }

  // ---------- printing predicates ---------------------------------------------------

  function OpT(op: Op): Tokens {
    match op
    case OpEq => [Eq]
    case OpNe => [Ne]
    case OpGt => [Gt]
    case OpLt => [Lt]
    case OpGe => [Ge]
    case OpLe => [Le]
    case Like => [Tilde]
    case LikeAll => [Tilde, Lower("all")]
    case LikeAny => [Tilde, Lower("any")]
    case In => [Lower("in")]
    case Has => [Lower("has")]
  }

  /** `or` < `and` < `not` < everything atomic. */
  function PredPrec(p: Predicate): nat {
    match p
    case Or(_, _) => 1
    case And(_, _) => 2
    case Not(_) => 3
    case _ => 4
  }

  function PredBody(p: Predicate): Tokens
    decreases p, 0
  {
    match p
    case Or(a, b) => PredT(a, 1) + [Lower("or")] + PredT(b, 2)
    case And(a, b) => PredT(a, 2) + [Lower("and")] + PredT(b, 3)
    case Not(a) => [Lower("not")] + PredT(a, 4)
    case Cmp(path, op, value) => PathT(path) + OpT(op) + ValueT(value)
    case InList(path, values) => PathT(path) + [Lower("in"), LParen] + ListT(values) + [RParen]
    case Bare(path) => PathT(path)
    case FilterCall(name, args) => [Lower(name), LParen] + ListT(args) + [RParen]
    case Any(path, column, pred) =>
      PathT(path) + [Dot, Lower("any"), LParen] + ByT(column)
      + (if column.Some? && pred.Some? then [Comma] else [])
      + (match pred case None => [] case Some(q) => PredT(q, 0)) + [RParen]
    case Raw(body) => [Lower("raw"), RawSql(body)]
  }

  function ByT(column: Option<Ident>): Tokens {
    match column
    case None => []
    case Some(name) => [Lower("by"), Lower(name)]
  }

  /** Parentheses go around a tree of lower precedence than its place asks for. */
  function PredT(p: Predicate, min: nat): Tokens
    decreases p, 1
  {
    if PredPrec(p) < min then [LParen] + PredBody(p) + [RParen] else PredBody(p)
  }

  // ---------- printing computed expressions -----------------------------------------

  function ArithOpT(op: ArithOp): Token {
    match op
    case Add => Plus
    case Sub => Minus
    case Mul => Star
    case Div => Slash
  }

  /** concat < `+`/`-` < `*`/`/` < a value or `case`. */
  function OpPrec(op: ArithOp): nat { if op.Add? || op.Sub? then 2 else 3 }

  function ExprPrec(e: ShapeExpr): nat {
    match e
    case Leaf(_) => 4
    case Case(_, _) => 4
    case Arith(_, op, _) => OpPrec(op)
    case Concat(_, _) => 1
  }

  function ExprBody(e: ShapeExpr): Tokens
    decreases e, 0
  {
    match e
    case Leaf(v) => ValueT(v)
    case Case(arms, otherwise) =>
      [Lower("case")] + ArmsT(arms) + [Lower("else")] + ExprT(otherwise, 0) + [Lower("end")]
    case Arith(l, op, r) => ExprT(l, OpPrec(op)) + [ArithOpT(op)] + ExprT(r, OpPrec(op) + 1)
    case Concat(l, r) => ExprT(l, 1) + [PipePipe] + ExprT(r, 2)
  }

  function ArmsT(arms: seq<Arm>): Tokens
    decreases arms, 0
  {
    if arms == [] then []
    else
      var arm := arms[0];
      assert arm.result < arm;
      [Lower("when")] + PredT(arm.cond, 0) + [Lower("then")] + ExprT(arm.result, 0) + ArmsT(arms[1..])
  }

  function ExprT(e: ShapeExpr, min: nat): Tokens
    decreases e, 1
  {
    if ExprPrec(e) < min then [LParen] + ExprBody(e) + [RParen] else ExprBody(e)
  }

  // ---------- printing assignment arithmetic ----------------------------------------

  function RhsPrec(r: AssignRhs): nat {
    match r
    case Plain(_) => 3
    case Calc(_, op, _) => OpPrec(op) - 1
  }

  function RhsBody(r: AssignRhs): Tokens
    decreases r, 0
  {
    match r
    case Plain(v) => ValueT(v)
    case Calc(l, op, rhs) => RhsT(l, OpPrec(op) - 1) + [ArithOpT(op)] + RhsT(rhs, OpPrec(op))
  }

  function RhsT(r: AssignRhs, min: nat): Tokens
    decreases r, 1
  {
    if RhsPrec(r) < min then [LParen] + RhsBody(r) + [RParen] else RhsBody(r)
  }

  // ---------- the words and signs ---------------------------------------------------

  /** `a and not b or c` and `(a or b) and c`: the connectives by their words, parentheses only where
      they are needed. */
  lemma ConnectivesAreWritten(a: string, b: string, c: string)
    ensures PredT(Or(And(Bare([a]), Not(Bare([b]))), Bare([c])), 0) == [Lower(a), Lower("and"), Lower("not"), Lower(b), Lower("or"), Lower(c)]
    ensures PredT(And(Or(Bare([a]), Bare([b])), Bare([c])), 0) == [LParen, Lower(a), Lower("or"), Lower(b), RParen, Lower("and"), Lower(c)]
  {
    BareIsWritten(a);
    BareIsWritten(b);
    BareIsWritten(c);
    hide PathT;
    var p, q, r := Bare([a]), Bare([b]), Bare([c]);
    assert PredT(Not(q), 3) == PredBody(Not(q)) == [Lower("not")] + PredT(q, 4);
    assert PredT(And(p, Not(q)), 1) == PredBody(And(p, Not(q))) == PredT(p, 2) + [Lower("and")] + PredT(Not(q), 3);
    assert PredT(Or(And(p, Not(q)), r), 0) == PredBody(Or(And(p, Not(q)), r)) == PredT(And(p, Not(q)), 1) + [Lower("or")] + PredT(r, 2);
    assert PredT(Or(p, q), 2) == [LParen] + PredBody(Or(p, q)) + [RParen];
    assert PredBody(Or(p, q)) == PredT(p, 1) + [Lower("or")] + PredT(q, 2);
    assert PredT(And(Or(p, q), r), 0) == PredBody(And(Or(p, q), r)) == PredT(Or(p, q), 2) + [Lower("and")] + PredT(r, 3);
  }

  lemma BareIsWritten(name: string)
    ensures PathT([name]) == [Lower(name)]
    ensures forall min: nat | min <= 4 :: PredT(Bare([name]), min) == [Lower(name)]
  {
    assert FieldsT([]) == [];
  }

  /** Each comparison by its own sign or word. */
  lemma ComparisonsAreWritten()
    ensures OpT(OpEq) == [Eq] && OpT(OpNe) == [Ne] && OpT(OpLt) == [Lt] && OpT(OpLe) == [Le] && OpT(OpGt) == [Gt] && OpT(OpGe) == [Ge]
    ensures OpT(Like) == [Tilde] && OpT(LikeAll) == [Tilde, Lower("all")] && OpT(LikeAny) == [Tilde, Lower("any")]
    ensures OpT(In) == [Lower("in")] && OpT(Has) == [Lower("has")]
  {
  }

  function Column(name: string): ShapeExpr { Leaf(PathValue([name])) }

  lemma ColumnIsWritten(name: string)
    ensures forall min: nat | min <= 4 :: ExprT(Column(name), min) == [Lower(name)]
  {
    assert FieldsT([]) == [];
  }

  /** `a + b * c`, `(a - b) / c` and `a - b || (c || d)`: the usual signs and precedence. */
  lemma ArithmeticIsWritten(a: string, b: string, c: string, d: string)
    ensures ExprT(Arith(Column(a), Add, Arith(Column(b), Mul, Column(c))), 0) == [Lower(a), Plus, Lower(b), Star, Lower(c)]
    ensures ExprT(Arith(Arith(Column(a), Sub, Column(b)), Div, Column(c)), 0) ==
            [LParen, Lower(a), Minus, Lower(b), RParen, Slash, Lower(c)]
    ensures ExprT(Concat(Arith(Column(a), Sub, Column(b)), Concat(Column(c), Column(d))), 0) ==
            [Lower(a), Minus, Lower(b), PipePipe, LParen, Lower(c), PipePipe, Lower(d), RParen]
  {
    ColumnIsWritten(a);
    ColumnIsWritten(b);
    ColumnIsWritten(c);
    ColumnIsWritten(d);
    hide Column;
    var sum, product := Arith(Column(a), Sub, Column(b)), Arith(Column(b), Mul, Column(c));
    assert ExprBody(sum) == ExprT(Column(a), 2) + [Minus] + ExprT(Column(b), 3) == [Lower(a), Minus, Lower(b)];
    assert ExprT(sum, 3) == [LParen] + ExprBody(sum) + [RParen] && ExprT(sum, 1) == ExprBody(sum);
    assert ExprBody(product) == ExprT(Column(b), 3) + [Star] + ExprT(Column(c), 4) == [Lower(b), Star, Lower(c)];
    assert ExprT(product, 3) == ExprBody(product);
    assert ExprBody(Arith(Column(a), Add, product)) == ExprT(Column(a), 2) + [Plus] + ExprT(product, 3);
    assert ExprBody(Arith(sum, Div, Column(c))) == ExprT(sum, 3) + [Slash] + ExprT(Column(c), 4);
    var text := Concat(Column(c), Column(d));
    assert ExprBody(text) == ExprT(Column(c), 1) + [PipePipe] + ExprT(Column(d), 2);
    assert ExprT(text, 2) == [LParen] + ExprBody(text) + [RParen];
    assert ExprBody(Concat(sum, text)) == ExprT(sum, 1) + [PipePipe] + ExprT(text, 2);
  }
}
