/** The compiler from HCL expressions to C: parse trees as the parser's actions build them, the code generated from them,
    and what both mean. */
module Hcl {

  // ---- HCL

  datatype CompOp = Eq | Ne | Lt | Le | Gt | Ge

  datatype Expr =
    | Var(name: string)
    | Num(text: string)
    | Not(arg: Expr)
    | And(left: Expr, right: Expr)
    | Or(left: Expr, right: Expr)
    | Comp(op: CompOp, left: Expr, right: Expr)
    | In(elem: Expr, set_: Exprs)
    | Case(arms: Arms)

  datatype Exprs = NoMore | More(head: Expr, tail: Exprs)

  datatype Arms = NoArm | Arm(cond: Expr, value: Expr, rest: Arms)

  type Env = string -> int

  function Truth(b: bool): int { if b then 1 else 0 }

  function Digit(c: char): int { c as int - '0' as int }

  function Digits(s: string, base: int): int {
    if s == [] then 0 else Digits(s[..|s| - 1], base) * base + Digit(s[|s| - 1])
  }

  /** `atoll` */
  function Atoll(text: string): int {
    if text != [] && text[0] == '-' then -Digits(text[1..], 10) else Digits(text, 10)
  }

  predicate Compare(op: CompOp, a: int, b: int) {
    match op
    case Eq => a == b
    case Ne => a != b
    case Lt => a < b
    case Le => a <= b
    case Gt => a > b
    case Ge => a >= b
  }

  /** What an expression means; Boolean expressions are 0 or 1. A case expression is its first arm whose condition holds,
      0 if there is none. */
  function Eval(e: Expr, env: Env): int
    decreases e
  {
    match e
    case Var(name) => env(name)
    case Num(text) => Atoll(text)
    case Not(a) => Truth(Eval(a, env) == 0)
    case And(a, b) => Truth(Eval(a, env) != 0 && Eval(b, env) != 0)
    case Or(a, b) => Truth(Eval(a, env) != 0 || Eval(b, env) != 0)
    case Comp(op, a, b) => Truth(Compare(op, Eval(a, env), Eval(b, env)))
    case In(a, l) => Truth(Among(Eval(a, env), l, env))
    case Case(arms) => FirstArm(arms, env)
  }

  predicate Among(v: int, l: Exprs, env: Env)
    decreases l
  {
    l.More? && (v == Eval(l.head, env) || Among(v, l.tail, env))
  }

  function FirstArm(arms: Arms, env: Env): int
    decreases arms
  {
    match arms
    case NoArm => 0
    case Arm(cond, value, rest) => if Eval(cond, env) != 0 then Eval(value, env) else FirstArm(rest, env)
  }

  // ---- parse trees

  datatype Kind = N_VAR | N_NUM | N_AND | N_OR | N_NOT | N_COMP | N_ELE | N_CASE

  datatype Node = Null | Node(kind: Kind, isbool: bool, sval: string, op: CompOp, arg1: Node, arg2: Node, next: Node)

  function NewNode(kind: Kind, isbool: bool, sval: string, op: CompOp, arg1: Node, arg2: Node): Node {
    Node(kind, isbool, sval, op, arg1, arg2, Null)
  }

  /** `concat` */
  function Concat(n1: Node, n2: Node): Node {
    if n1.Null? then n2
    else if n1.next.Null? then n1.(next := n2)
    else n1.(next := Concat(n1.next, n2))
  }

  /** The tree that the parser's actions build. */
  function Build(e: Expr): Node
    decreases e
  {
    match e
    case Var(name) => NewNode(N_VAR, false, name, Eq, Null, Null)
    case Num(text) => NewNode(N_NUM, false, text, Eq, Null, Null)
    case Not(a) => NewNode(N_NOT, true, "!", Eq, Build(a), Null)
    case And(a, b) => NewNode(N_AND, true, "&", Eq, Build(a), Build(b))
    case Or(a, b) => NewNode(N_OR, true, "|", Eq, Build(a), Build(b))
    case Comp(op, a, b) => NewNode(N_COMP, true, "", op, Build(a), Build(b))
    case In(a, l) => NewNode(N_ELE, true, "in", Eq, Build(a), BuildList(Null, l))
    case Case(arms) => BuildArms(Null, arms)
  }

  function BuildList(acc: Node, l: Exprs): Node
    decreases l
  {
    if l.NoMore? then acc else BuildList(Concat(acc, Build(l.head)), l.tail)
  }

  function BuildArms(acc: Node, arms: Arms): Node
    decreases arms
  {
    if arms.NoArm? then acc
    else BuildArms(Concat(acc, NewNode(N_CASE, false, ":", Eq, Build(arms.cond), Build(arms.value))), arms.rest)
  }

  // ---- the types that `check_arg` tells apart

  /** The declared signals, Boolean or not. */
  type Symbols = map<string, bool>

  predicate CheckArg(e: Expr, wantBool: bool, syms: Symbols) {
    match e
    case Var(name) => name in syms && syms[name] == wantBool
    case Num(text) => wantBool ==> text == "0" || text == "1"
    case Case(_) => !wantBool
    case _ => wantBool
  }

  /** Neither the actions of the parser nor the code generator report an error. The elements of a set are not checked:
      the loop that should do so walks from the wrong node. */
  predicate Checked(e: Expr, syms: Symbols) {
    match e
    case Var(name) => name in syms
    case Num(_) => true
    case Not(a) => Checked(a, syms) && CheckArg(a, true, syms)
    case And(a, b) => Checked(a, syms) && Checked(b, syms) && CheckArg(a, true, syms) && CheckArg(b, true, syms)
    case Or(a, b) => Checked(a, syms) && Checked(b, syms) && CheckArg(a, true, syms) && CheckArg(b, true, syms)
    case Comp(_, a, b) => Checked(a, syms) && Checked(b, syms) && CheckArg(a, false, syms) && CheckArg(b, false, syms)
    case In(a, l) => Checked(a, syms) && CheckArg(a, false, syms) && CheckedList(l, syms)
    case Case(arms) => CheckedArms(arms, syms)
  }

  predicate CheckedList(l: Exprs, syms: Symbols) {
    l.NoMore? || (Checked(l.head, syms) && CheckedList(l.tail, syms))
  }

  predicate CheckedArms(arms: Arms, syms: Symbols) {
    arms.NoArm? || (Checked(arms.cond, syms) && Checked(arms.value, syms) && CheckArg(arms.cond, true, syms)
                    && CheckArg(arms.value, false, syms) && CheckedArms(arms.rest, syms))
  }

  // ---- C

  datatype COp = OrOr | AndAnd | Bar | Amp | Cmp(op: CompOp)

  /** How tightly a binary operator binds. */
  function Level(op: COp): (l: nat)
    ensures 1 <= l <= 6
  {
    match op
    case OrOr => 1
    case AndAnd => 2
    case Bar => 3
    case Amp => 4
    case Cmp(Eq) => 5
    case Cmp(Ne) => 5
    case Cmp(_) => 6
  }

  const UNARY: nat := 7

  /** Quoted is the text that a signal stands for. */
  datatype Token =
    | LParen
    | RParen
    | Bang
    | Minus
    | Question
    | Colon
    | Op(op: COp)
    | Literal(digits: string)
    | Quoted(name: string)

  datatype CExpr =
    | CLit(digits: string)
    | CQuote(name: string)
    | CNot(arg: CExpr)
    | CNeg(arg: CExpr)
    | CBin(op: COp, left: CExpr, right: CExpr)
    | CIf(cond: CExpr, yes: CExpr, no: CExpr)

  datatype Parsed = Fail | Done(e: CExpr, rest: seq<Token>)

  predicate OctalDigits(s: string) { forall i :: 0 <= i < |s| ==> '0' <= s[i] <= '7' }

  /** A literal that starts with 0 and goes on is octal. */
  predicate Octal(digits: string) { |digits| > 1 && digits[0] == '0' }

  predicate LiteralValid(digits: string) { Octal(digits) ==> OctalDigits(digits) }

  // The expression grammar of C, as far as these operators go: by recursive descent, binary operators to the left.

  function ParseUnary(ts: seq<Token>): (r: Parsed)
    ensures r.Done? ==> |r.rest| < |ts|
    decreases |ts|, 0
  {
    if ts == [] then Fail
    else
      match ts[0]
      case Bang => (match ParseUnary(ts[1..]) case Fail => Fail case Done(e, rest) => Done(CNot(e), rest))
      case Minus => (match ParseUnary(ts[1..]) case Fail => Fail case Done(e, rest) => Done(CNeg(e), rest))
      case LParen =>
        (match ParseConditional(ts[1..])
         case Fail => Fail
         case Done(e, rest) => if rest != [] && rest[0] == RParen then Done(e, rest[1..]) else Fail)
      case Literal(digits) => if LiteralValid(digits) then Done(CLit(digits), ts[1..]) else Fail
      case Quoted(name) => Done(CQuote(name), ts[1..])
      case _ => Fail
  }

  function ParseBinary(ts: seq<Token>, level: nat): (r: Parsed)
    requires level <= UNARY
    ensures r.Done? ==> |r.rest| < |ts|
    decreases |ts|, 1 + UNARY - level
  {
    if level == UNARY then ParseUnary(ts)
    else
      match ParseBinary(ts, level + 1)
      case Fail => Fail
      case Done(e, rest) => ParseTail(e, rest, level)
  }

  function ParseTail(left: CExpr, ts: seq<Token>, level: nat): (r: Parsed)
    requires level < UNARY
    ensures r.Done? ==> |r.rest| <= |ts|
    decreases |ts|, 0
  {
    if ts != [] && ts[0].Op? && Level(ts[0].op) == level then
      match ParseBinary(ts[1..], level + 1)
      case Fail => Fail
      case Done(e, rest) => ParseTail(CBin(ts[0].op, left, e), rest, level)
    else Done(left, ts)
  }

  function ParseConditional(ts: seq<Token>): (r: Parsed)
    ensures r.Done? ==> |r.rest| < |ts|
    decreases |ts|, 9
  {
    match ParseBinary(ts, 1)
    case Fail => Fail
    case Done(c, rest) =>
      if rest == [] || rest[0] != Question then Done(c, rest)
      else
        match ParseConditional(rest[1..])
        case Fail => Fail
        case Done(yes, rest2) =>
          if rest2 == [] || rest2[0] != Colon then Fail
          else
            match ParseConditional(rest2[1..])
            case Fail => Fail
            case Done(no, rest3) => Done(CIf(c, yes, no), rest3)
  }

  /** Bitwise conjunction and disjunction of two's complement numbers. */
  function BitAnd(a: int, b: int): int
    decreases if a < 0 then -a else a
  {
    if a == 0 then 0 else if a == -1 then b else (a % 2) * (b % 2) + 2 * BitAnd(a / 2, b / 2)
  }

  function BitOr(a: int, b: int): int { -1 - BitAnd(-1 - a, -1 - b) }

  function LiteralValue(digits: string): int {
    if Octal(digits) then Digits(digits, 8) else Digits(digits, 10)
  }

  function CApply(op: COp, a: int, b: int): int {
    match op
    case OrOr => Truth(a != 0 || b != 0)
    case AndAnd => Truth(a != 0 && b != 0)
    case Bar => BitOr(a, b)
    case Amp => BitAnd(a, b)
    case Cmp(cop) => Truth(Compare(cop, a, b))
  }

  function CEval(e: CExpr, env: Env): int {
    match e
    case CLit(digits) => LiteralValue(digits)
    case CQuote(name) => env(name)
    case CNot(a) => Truth(CEval(a, env) == 0)
    case CNeg(a) => -CEval(a, env)
    case CBin(op, a, b) => CApply(op, CEval(a, env), CEval(b, env))
    case CIf(c, a, b) => if CEval(c, env) != 0 then CEval(a, env) else CEval(b, env)
  }

  // ---- the generated code

  function Size(n: Node): nat {
    if n.Null? then 1 else 1 + Size(n.arg1) + Size(n.arg2) + Size(n.next)
  }

  function NumTokens(text: string): seq<Token> {
    if text != [] && text[0] == '-' then [Minus, Literal(text[1..])] else [Literal(text)]
  }

  /** `gen_expr`, where it reads no null pointer. An undeclared name is an error, and nothing is printed for it. */
  function GenExpr(n: Node, syms: Symbols): seq<Token>
    decreases Size(n), 1
  {
    if n.Null? then []
    else
      match n.kind
      case N_VAR => if n.sval in syms then [LParen, Quoted(n.sval), RParen] else []
      case N_NUM => NumTokens(n.sval)
      case N_AND => [LParen] + GenExpr(n.arg1, syms) + [Op(Amp)] + GenExpr(n.arg2, syms) + [RParen]
      case N_OR => [LParen] + GenExpr(n.arg1, syms) + [Op(Bar)] + GenExpr(n.arg2, syms) + [RParen]
      case N_NOT => [Bang] + GenExpr(n.arg1, syms)
      case N_COMP => [LParen] + GenExpr(n.arg1, syms) + [Op(Cmp(n.op))] + GenExpr(n.arg2, syms) + [RParen]
      case N_ELE => [LParen] + GenElements(n.arg1, n.arg2, syms) + [RParen]
      case N_CASE => [LParen] + GenArms(n, syms) + [RParen]
  }

  function GenElements(elem: Node, ele: Node, syms: Symbols): seq<Token>
    decreases Size(elem) + Size(ele), 0
  {
    if ele.Null? then []
    else
      GenExpr(elem, syms) + [Op(Cmp(Eq))] + GenExpr(ele, syms)
      + if ele.next.Null? then [] else [Op(OrOr)] + GenElements(elem, ele.next, syms)
  }

  function GenArms(ele: Node, syms: Symbols): seq<Token>
    decreases Size(ele), 0
  {
    if ele.Null? then [Literal("0")]
    else if ele.arg1.Node? && ele.arg1.kind == N_NUM && Atoll(ele.arg1.sval) == 1 then GenExpr(ele.arg2, syms)
    else GenExpr(ele.arg1, syms) + [Question] + GenExpr(ele.arg2, syms) + [Colon] + GenArms(ele.next, syms)
  }

  // ---- null pointers

  /** `gen_expr` reads no null pointer on its way through n. */
  predicate Safe(n: Node)
    decreases Size(n), 1
  {
    if n.Null? then false
    else
      match n.kind
      case N_VAR => true
      case N_NUM => true
      case N_AND => Safe(n.arg1) && Safe(n.arg2)
      case N_OR => Safe(n.arg1) && Safe(n.arg2)
      case N_NOT => Safe(n.arg1)
      case N_COMP => Safe(n.arg1) && Safe(n.arg2)
      case N_ELE => SafeElements(n.arg1, n.arg2)
      case N_CASE => SafeArms(n)
  }

  predicate SafeElements(elem: Node, ele: Node)
    decreases Size(elem) + Size(ele), 0
  {
    ele.Null? || (Safe(elem) && Safe(ele) && SafeElements(elem, ele.next))
  }

  /** The loop over the arms takes every node that it comes to for an arm. */
  predicate SafeArms(ele: Node)
    decreases Size(ele), 0
  {
    ele.Null?
    || (ele.arg1.Node?
        && if ele.arg1.kind == N_NUM && Atoll(ele.arg1.sval) == 1 then Safe(ele.arg2)
           else Safe(ele.arg1) && Safe(ele.arg2) && SafeArms(ele.next))
  }
}
