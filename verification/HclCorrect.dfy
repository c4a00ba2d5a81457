/** The C code generated for an HCL expression means what the expression means. */
module HclCorrect {
  import opened Hcl

  // ---- what the parser's actions build

  lemma {:induction false} ConcatNull(n: Node)
    ensures Concat(n, Null) == n
  {
    if n.Node? && n.next.Node? {
      ConcatNull(n.next);
    }
  }

  lemma {:induction false} ConcatAssoc(a: Node, b: Node, c: Node)
    ensures Concat(Concat(a, b), c) == Concat(a, Concat(b, c))
  {
    if a.Node? && a.next.Node? {
      ConcatAssoc(a.next, b, c);
    } else if a.Node? && b.Null? {
      assert Concat(a, Null) == a;
    }
  }

  function ElementChain(l: Exprs): Node {
    if l.NoMore? then Null else Concat(Build(l.head), ElementChain(l.tail))
  }

  lemma {:induction false} BuildsElements(acc: Node, l: Exprs)
    ensures BuildList(acc, l) == Concat(acc, ElementChain(l))
    decreases l
  {
    if l.NoMore? {
      ConcatNull(acc);
    } else {
      BuildsElements(Concat(acc, Build(l.head)), l.tail);
      ConcatAssoc(acc, Build(l.head), ElementChain(l.tail));
    }
  }

  function ArmChain(arms: Arms): Node {
    if arms.NoArm? then Null
    else Node(N_CASE, false, ":", Eq, Build(arms.cond), Build(arms.value), ArmChain(arms.rest))
  }

  lemma {:induction false} BuildsArms(acc: Node, arms: Arms)
    ensures BuildArms(acc, arms) == Concat(acc, ArmChain(arms))
    decreases arms
  {
    if arms.NoArm? {
      ConcatNull(acc);
    } else {
      var n := NewNode(N_CASE, false, ":", Eq, Build(arms.cond), Build(arms.value));
      BuildsArms(Concat(acc, n), arms.rest);
      ConcatAssoc(acc, n, ArmChain(arms.rest));
    }
  }

  predicate IsDefault(cond: Expr) { cond.Num? && Atoll(cond.text) == 1 }

  /** The last arm is a default. */
  predicate EndsInDefault(arms: Arms) {
    arms.Arm? && if arms.rest.NoArm? then IsDefault(arms.cond) else EndsInDefault(arms.rest)
  }

  /** The grammar's expressions: sets and cases are not empty, a case in a set is the last element or ends in a default, and
      numerals do not mean something else in C. */
  predicate Formed(e: Expr, syms: Symbols) {
    match e
    case Var(name) => name in syms
    case Num(text) => Plain(Unsigned(text))
    case Not(a) => Formed(a, syms)
    case And(a, b) => Formed(a, syms) && Formed(b, syms)
    case Or(a, b) => Formed(a, syms) && Formed(b, syms)
    case Comp(_, a, b) => Formed(a, syms) && Formed(b, syms)
    case In(a, l) => Formed(a, syms) && l.More? && FormedList(l, syms)
    case Case(arms) => arms.Arm? && FormedArms(arms, syms)
  }

  function Unsigned(text: string): string { if text != [] && text[0] == '-' then text[1..] else text }

  predicate Zeros(s: string) { forall i :: 0 <= i < |s| ==> s[i] == '0' }

  /** No leading zeros, or only zeros before a last digit that is octal. */
  predicate Plain(digits: string) {
    Octal(digits) ==> Zeros(digits[..|digits| - 1]) && '0' <= digits[|digits| - 1] <= '7'
  }

  predicate FormedList(l: Exprs, syms: Symbols) {
    l.NoMore?
    || (Formed(l.head, syms) && (l.head.Case? && l.tail.More? ==> EndsInDefault(l.head.arms)) && FormedList(l.tail, syms))
  }

  predicate FormedArms(arms: Arms, syms: Symbols) {
    arms.NoArm? || (Formed(arms.cond, syms) && Formed(arms.value, syms) && FormedArms(arms.rest, syms))
  }

  // ---- sizes, for the inductions

  function Weight(e: Expr): nat
    decreases e
  {
    match e
    case Var(_) => 1
    case Num(_) => 1
    case Not(a) => 1 + Weight(a)
    case And(a, b) => 1 + Weight(a) + Weight(b)
    case Or(a, b) => 1 + Weight(a) + Weight(b)
    case Comp(_, a, b) => 1 + Weight(a) + Weight(b)
    case In(a, l) => 1 + Weight(a) + ListWeight(l)
    case Case(arms) => 1 + ArmsWeight(arms)
  }

  function ListWeight(l: Exprs): nat
    decreases l
  {
    if l.NoMore? then 0 else 1 + Weight(l.head) + ListWeight(l.tail)
  }

  function ArmsWeight(arms: Arms): nat
    decreases arms
  {
    if arms.NoArm? then 0 else 1 + Weight(arms.cond) + Weight(arms.value) + ArmsWeight(arms.rest)
  }

  // ---- the tree that the C parser finds

  /** What is linked behind the first node of a set: the later arms of a case come before the other elements, and each
      is taken for an element. */
  function Rest(l: Exprs): (r: Exprs)
    requires l.More?
    ensures ListWeight(r) < ListWeight(l)
  {
    if l.head.Case? && l.head.arms.Arm? && l.head.arms.rest.Arm? then
      assert Weight(Case(l.head.arms.rest)) < Weight(l.head);
      More(Case(l.head.arms.rest), l.tail)
    else l.tail
  }

  function NumTree(text: string): CExpr {
    if text != [] && text[0] == '-' then CNeg(CLit(text[1..])) else CLit(text)
  }

  function Tree(e: Expr): CExpr
    decreases Weight(e), 0
  {
    match e
    case Var(name) => CQuote(name)
    case Num(text) => NumTree(text)
    case Not(a) => CNot(Tree(a))
    case And(a, b) => CBin(Amp, Tree(a), Tree(b))
    case Or(a, b) => CBin(Bar, Tree(a), Tree(b))
    case Comp(op, a, b) => CBin(Cmp(op), Tree(a), Tree(b))
    case In(a, l) =>
      assert l.More? ==> ListWeight(l) == 1 + Weight(l.head) + ListWeight(l.tail);
      if l.NoMore? then CLit("") else TailTree(CBin(Cmp(Eq), Tree(a), Tree(l.head)), Tree(a), Rest(l))
    case Case(arms) => ArmsTree(arms)
  }

  function TailTree(left: CExpr, elem: CExpr, l: Exprs): CExpr
    decreases ListWeight(l), 0
  {
    if l.NoMore? then left
    else TailTree(CBin(OrOr, left, CBin(Cmp(Eq), elem, Tree(l.head))), elem, Rest(l))
  }

  function ArmsTree(arms: Arms): CExpr
    decreases ArmsWeight(arms), 0
  {
    if arms.NoArm? then CLit("0")
    else if IsDefault(arms.cond) then Tree(arms.value)
    else CIf(Tree(arms.cond), Tree(arms.value), ArmsTree(arms.rest))
  }

  // ---- parsing operators

  /** No operator of the level or above comes next. */
  predicate Stops(ts: seq<Token>, level: nat) {
    ts == [] || !ts[0].Op? || Level(ts[0].op) < level
  }

  lemma {:induction false} Climb(ts: seq<Token>, level: nat, x: CExpr, k: seq<Token>)
    requires level <= UNARY && ParseUnary(ts) == Done(x, k) && Stops(k, level)
    ensures ParseBinary(ts, level) == Done(x, k)
    decreases UNARY - level
  {
    if level < UNARY {
      Climb(ts, level + 1, x, k);
    }
  }

  lemma {:induction false} BinaryParses(ts: seq<Token>, x: CExpr, rest: seq<Token>, y: CExpr, k: seq<Token>, level: nat)
    requires ParseUnary(ts) == Done(x, rest) && rest != [] && rest[0].Op? && ParseUnary(rest[1..]) == Done(y, k)
    requires level <= Level(rest[0].op) && Stops(k, level)
    ensures ParseBinary(ts, level) == Done(CBin(rest[0].op, x, y), k)
    decreases UNARY - level
  {
    if level < Level(rest[0].op) {
      BinaryParses(ts, x, rest, y, k, level + 1);
    } else {
      Climb(ts, level + 1, x, rest);
      Climb(rest[1..], level + 1, y, k);
      assert ParseTail(CBin(rest[0].op, x, y), k, level) == Done(CBin(rest[0].op, x, y), k);
      assert ParseTail(x, rest, level) == Done(CBin(rest[0].op, x, y), k);
    }
  }

  lemma NoQuestion(ts: seq<Token>, x: CExpr, k: seq<Token>)
    requires ParseBinary(ts, 1) == Done(x, k) && k != [] && k[0] != Question
    ensures ParseConditional(ts) == Done(x, k)
  {
    hide ParseBinary;
  }

  lemma Parenthesized(ts: seq<Token>, x: CExpr, k: seq<Token>)
    requires ts != [] && ts[0] == LParen && ParseConditional(ts[1..]) == Done(x, [RParen] + k)
    ensures ParseUnary(ts) == Done(x, k)
  {
    hide ParseConditional;
    assert ([RParen] + k)[1..] == k;
  }

  /** A binary expression in parentheses. */
  lemma ParenParses(a: seq<Token>, x: CExpr, op: COp, b: seq<Token>, y: CExpr, k: seq<Token>)
    requires ParseUnary(a + ([Op(op)] + (b + ([RParen] + k)))) == Done(x, [Op(op)] + (b + ([RParen] + k)))
    requires ParseUnary(b + ([RParen] + k)) == Done(y, [RParen] + k)
    ensures ParseUnary([LParen] + a + [Op(op)] + b + [RParen] + k) == Done(CBin(op, x, y), k)
  {
    hide ParseUnary, ParseBinary, ParseConditional;
    var end := [RParen] + k;
    var mid := [Op(op)] + (b + end);
    assert mid[1..] == b + end;
    BinaryParses(a + mid, x, mid, y, end, 1);
    NoQuestion(a + mid, CBin(op, x, y), end);
    var ts := [LParen] + a + [Op(op)] + b + [RParen] + k;
    assert ts[1..] == a + mid;
    Parenthesized(ts, CBin(op, x, y), k);
  }

  /** THE CODE IS READ BACK AS MEANT: wherever it stands, C's grammar takes the code of an expression for one operand, and
      finds in it the tree of the expression. */
  lemma {:induction false} Parses(e: Expr, k: seq<Token>, syms: Symbols)
    requires Formed(e, syms)
    ensures ParseUnary(GenExpr(Build(e), syms) + k) == Done(Tree(e), k)
    decreases Weight(e), 1
  {
    match e
    case Var(_) => ParsesVar(e, k, syms);
    case Num(_) => ParsesNum(e, k, syms);
    case Not(a) =>
      Parses(a, k, syms);
      NotParses(GenExpr(Build(a), syms), Tree(a), k);
    case And(a, b) => ParsesBinary(a, b, Amp, k, syms);
    case Or(a, b) => ParsesBinary(a, b, Bar, k, syms);
    case Comp(op, a, b) => ParsesBinary(a, b, Cmp(op), k, syms);
    case In(a, l) => ParsesIn(a, l, k, syms);
    case Case(arms) => ParsesCase(arms, k, syms);
  }

  lemma ParsesVar(e: Expr, k: seq<Token>, syms: Symbols)
    requires e.Var? && e.name in syms
    ensures ParseUnary(GenExpr(Build(e), syms) + k) == Done(Tree(e), k)
  {
    var ts := [LParen, Quoted(e.name), RParen] + k;
    var inner := ts[1..];
    assert inner[1..] == [RParen] + k;
    Climb(inner, 1, CQuote(e.name), [RParen] + k);
    NoQuestion(inner, CQuote(e.name), [RParen] + k);
    Parenthesized(ts, CQuote(e.name), k);
  }

  lemma PlainValid(digits: string)
    requires Plain(digits)
    ensures LiteralValid(digits)
  {
    forall i | Octal(digits) && 0 <= i < |digits|
      ensures '0' <= digits[i] <= '7'
    {
      assert i < |digits| - 1 ==> digits[i] == digits[..|digits| - 1][i];
    }
  }

  lemma ParsesNum(e: Expr, k: seq<Token>, syms: Symbols)
    requires e.Num? && Plain(Unsigned(e.text))
    ensures ParseUnary(GenExpr(Build(e), syms) + k) == Done(Tree(e), k)
  {
    var ts := NumTokens(e.text) + k;
    PlainValid(Unsigned(e.text));
    if e.text != [] && e.text[0] == '-' {
      assert ts[1..] == [Literal(e.text[1..])] + k;
      assert ts[1..][1..] == k;
      assert ParseUnary(ts[1..]) == Done(CLit(e.text[1..]), k);
    } else {
      assert ts[1..] == k;
    }
  }

  lemma NotParses(a: seq<Token>, x: CExpr, k: seq<Token>)
    requires ParseUnary(a + k) == Done(x, k)
    ensures ParseUnary([Bang] + a + k) == Done(CNot(x), k)
  {
    assert ([Bang] + a + k)[1..] == a + k;
  }

  lemma {:induction false} ParsesBinary(a: Expr, b: Expr, op: COp, k: seq<Token>, syms: Symbols)
    requires Formed(a, syms) && Formed(b, syms)
    ensures ParseUnary([LParen] + GenExpr(Build(a), syms) + [Op(op)] + GenExpr(Build(b), syms) + [RParen] + k)
         == Done(CBin(op, Tree(a), Tree(b)), k)
    decreases Weight(a) + Weight(b), 2
  {
    hide ParseUnary, GenExpr, Tree, Build;
    Parses(a, [Op(op)] + (GenExpr(Build(b), syms) + ([RParen] + k)), syms);
    Parses(b, [RParen] + k, syms);
    ParenParses(GenExpr(Build(a), syms), Tree(a), op, GenExpr(Build(b), syms), Tree(b), k);
  }

  // ---- sets

  /** Linking something behind a case that ends in a default does not change its code. */
  lemma {:induction false} ClosedCode(arms: Arms, behind: Node, syms: Symbols)
    requires arms.Arm? && (EndsInDefault(arms) || behind.Null?)
    ensures GenArms(Concat(ArmChain(arms), behind), syms) == GenArms(ArmChain(arms), syms)
    ensures SafeArms(Concat(ArmChain(arms), behind)) == SafeArms(ArmChain(arms))
  {
    hide GenExpr, Build, Safe;
    if arms.rest.Arm? {
      ClosedCode(arms.rest, behind, syms);
    } else if behind.Null? {
      ConcatNull(ArmChain(arms));
    } else {
      BuildKind(arms.cond);
    }
  }

  lemma BuildsCase(arms: Arms)
    ensures Build(Case(arms)) == ArmChain(arms)
  {
    BuildsArms(Null, arms);
  }

  /** The chain of a set goes on with its rest. */
  lemma ChainHead(l: Exprs)
    requires l.More? && (l.head.Case? ==> l.head.arms.Arm?)
    ensures ElementChain(l).Node? && ElementChain(l).next == ElementChain(Rest(l))
    ensures !l.head.Case? ==> Build(l.head).Node? && Build(l.head).kind != N_CASE
                              && ElementChain(l) == Build(l.head).(next := ElementChain(l.tail))
  {
    if l.head.Case? {
      var arms := l.head.arms;
      BuildsCase(arms);
      BuildsCase(arms.rest);
    }
  }

  /** Code does not depend on what a node is linked to, unless the node is a case. */
  lemma NextIgnored(n: Node, next: Node, syms: Symbols)
    requires n.Node? && n.kind != N_CASE
    ensures GenExpr(n.(next := next), syms) == GenExpr(n, syms)
    ensures Safe(n.(next := next)) == Safe(n)
  {
  }

  /** The code of an element, as it is linked into the chain, is the code of the element alone. */
  lemma HeadCode(l: Exprs, syms: Symbols)
    requires l.More? && FormedList(l, syms)
    ensures GenExpr(ElementChain(l), syms) == GenExpr(Build(l.head), syms)
    ensures Safe(ElementChain(l)) == Safe(Build(l.head))
  {
    hide Formed, Build;
    ChainHead(l) by { FormedCase(l.head, syms); }
    if l.head.Case? {
      FormedCase(l.head, syms);
      BuildsCase(l.head.arms);
      ClosedCode(l.head.arms, ElementChain(l.tail), syms);
    } else {
      NextIgnored(Build(l.head), ElementChain(l.tail), syms);
    }
  }

  lemma FormedCase(e: Expr, syms: Symbols)
    requires Formed(e, syms)
    ensures e.Case? ==> e.arms.Arm? && FormedArms(e.arms, syms)
  {
  }

  lemma RestFormed(l: Exprs, syms: Symbols)
    requires l.More? && FormedList(l, syms)
    ensures FormedList(Rest(l), syms)
  {
    if l.head.Case? && l.head.arms.Arm? && l.head.arms.rest.Arm? {
      var arms := l.head.arms;
      FormedCase(l.head, syms);
      assert Formed(Case(arms.rest), syms);
    }
  }

  lemma ElementsCode(a: Expr, l: Exprs, syms: Symbols)
    requires l.More? && FormedList(l, syms)
    ensures GenElements(Build(a), ElementChain(l), syms)
         == GenExpr(Build(a), syms) + [Op(Cmp(Eq))] + GenExpr(Build(l.head), syms) + MoreElements(a, Rest(l), syms)
  {
    hide GenExpr, Build, Formed;
    ChainHead(l) by { FormedCase(l.head, syms); }
    HeadCode(l, syms);
  }

  function MoreElements(a: Expr, l: Exprs, syms: Symbols): seq<Token> {
    if ElementChain(l).Null? then [] else [Op(OrOr)] + GenElements(Build(a), ElementChain(l), syms)
  }

  lemma ParsesIn(a: Expr, l: Exprs, k: seq<Token>, syms: Symbols)
    requires Formed(In(a, l), syms)
    ensures ParseUnary(GenExpr(Build(In(a, l)), syms) + k) == Done(Tree(In(a, l)), k)
    decreases Weight(a) + ListWeight(l), 3
  {
    hide ParseUnary, ParseBinary, ParseTail, ParseConditional, GenElements, ElementChain, TailTree;
    BuildsElements(Null, l);
    var code := GenElements(Build(a), ElementChain(l), syms);
    ParsesElements(a, l, [RParen] + k, syms);
    var ts := [LParen] + code + [RParen] + k;
    assert ts[1..] == code + ([RParen] + k);
    NoQuestion(ts[1..], Tree(In(a, l)), [RParen] + k);
    Parenthesized(ts, Tree(In(a, l)), k);
  }

  /** One comparison of a set, followed by what does not bind more tightly. */
  lemma {:induction false} ParsesEqual(a: Expr, b: Expr, k: seq<Token>, syms: Symbols)
    requires Formed(a, syms) && Formed(b, syms) && Stops(k, 2)
    ensures ParseBinary(GenExpr(Build(a), syms) + ([Op(Cmp(Eq))] + (GenExpr(Build(b), syms) + k)), 2)
         == Done(CBin(Cmp(Eq), Tree(a), Tree(b)), k)
    decreases Weight(a) + Weight(b), 2
  {
    hide ParseUnary, ParseBinary, GenExpr, Tree, Build, Formed;
    var rest := [Op(Cmp(Eq))] + (GenExpr(Build(b), syms) + k);
    assert rest[1..] == GenExpr(Build(b), syms) + k;
    Parses(a, rest, syms);
    Parses(b, k, syms);
    BinaryParses(GenExpr(Build(a), syms) + rest, Tree(a), rest, Tree(b), k, 2);
  }

  lemma BinaryStep(ts: seq<Token>, level: nat, x: CExpr, rest: seq<Token>)
    requires level < UNARY && ParseBinary(ts, level + 1) == Done(x, rest)
    ensures ParseBinary(ts, level) == ParseTail(x, rest, level)
  {
    hide ParseTail, ParseUnary;
  }

  lemma TailStep(left: CExpr, ts: seq<Token>, level: nat, y: CExpr, rest: seq<Token>)
    requires level < UNARY && ts != [] && ts[0].Op? && Level(ts[0].op) == level
    requires ParseBinary(ts[1..], level + 1) == Done(y, rest)
    ensures ParseTail(left, ts, level) == ParseTail(CBin(ts[0].op, left, y), rest, level)
  {
    hide ParseBinary, ParseUnary;
  }

  /** The code of one comparison and of what follows it, regrouped. */
  lemma Regrouped(a: seq<Token>, b: seq<Token>, c: seq<Token>, d: seq<Token>, k: seq<Token>)
    ensures a + b + c + d + k == a + (b + (c + (d + k)))
  {
  }

  lemma {:induction false} ParsesElements(a: Expr, l: Exprs, k: seq<Token>, syms: Symbols)
    requires Formed(a, syms) && l.More? && FormedList(l, syms) && Stops(k, 1)
    ensures ParseBinary(GenElements(Build(a), ElementChain(l), syms) + k, 1)
         == Done(TailTree(CBin(Cmp(Eq), Tree(a), Tree(l.head)), Tree(a), Rest(l)), k)
    decreases Weight(a) + ListWeight(l), 0
  {
    hide ParseBinary, ParseTail, GenExpr, GenElements, Build, Tree, TailTree, Formed, ElementChain, MoreElements, Stops;
    var rest := MoreElements(a, Rest(l), syms) + k;
    ElementsCode(a, l, syms);
    RestStops(a, Rest(l), k, syms);
    ParsesEqual(a, l.head, rest, syms);
    Regrouped(GenExpr(Build(a), syms), [Op(Cmp(Eq))], GenExpr(Build(l.head), syms), MoreElements(a, Rest(l), syms), k);
    var left := CBin(Cmp(Eq), Tree(a), Tree(l.head));
    BinaryStep(GenElements(Build(a), ElementChain(l), syms) + k, 1, left, rest);
    RestFormed(l, syms);
    ParsesMore(left, a, Rest(l), k, syms);
  }

  lemma RestStops(a: Expr, l: Exprs, k: seq<Token>, syms: Symbols)
    requires Stops(k, 1)
    ensures Stops(MoreElements(a, l, syms) + k, 2)
  {
    if !ElementChain(l).Null? {
      assert (MoreElements(a, l, syms) + k)[0] == Op(OrOr);
    } else {
      assert MoreElements(a, l, syms) + k == k;
    }
  }

  lemma {:induction false} ParsesMore(left: CExpr, a: Expr, l: Exprs, k: seq<Token>, syms: Symbols)
    requires Formed(a, syms) && FormedList(l, syms) && Stops(k, 1)
    ensures ParseTail(left, MoreElements(a, l, syms) + k, 1) == Done(TailTree(left, Tree(a), l), k)
    decreases Weight(a) + ListWeight(l), 3
  {
    if l.NoMore? {
      assert MoreElements(a, l, syms) + k == k;
    } else {
      hide ParseBinary, ParseTail, GenExpr, GenElements, Build, Tree, Formed, ElementChain, MoreElements, Stops;
      var rest, x := MoreElements(a, Rest(l), syms) + k, CBin(Cmp(Eq), Tree(a), Tree(l.head));
      RestStops(a, Rest(l), k, syms);
      ParsesEqual(a, l.head, rest, syms);
      MoreCode(a, l, k, syms);
      TailStep(left, MoreElements(a, l, syms) + k, 1, x, rest);
      RestFormed(l, syms);
      ParsesMore(CBin(OrOr, left, x), a, Rest(l), k, syms);
    }
  }

  lemma MoreCode(a: Expr, l: Exprs, k: seq<Token>, syms: Symbols)
    requires l.More? && FormedList(l, syms)
    ensures var ts := MoreElements(a, l, syms) + k;
            ts != [] && ts[0] == Op(OrOr)
            && ts[1..] == GenExpr(Build(a), syms)
                          + ([Op(Cmp(Eq))] + (GenExpr(Build(l.head), syms) + (MoreElements(a, Rest(l), syms) + k)))
  {
    hide GenExpr, GenElements, Build, ElementChain, Formed;
    ChainHead(l) by { FormedCase(l.head, syms); }
    ElementsCode(a, l, syms);
    Regrouped(GenExpr(Build(a), syms), [Op(Cmp(Eq))], GenExpr(Build(l.head), syms), MoreElements(a, Rest(l), syms), k);
    var ts := MoreElements(a, l, syms) + k;
    assert ts == [Op(OrOr)] + (GenElements(Build(a), ElementChain(l), syms) + k);
  }

  // ---- cases

  lemma {:induction false} ParsesCase(arms: Arms, k: seq<Token>, syms: Symbols)
    requires arms.Arm? && FormedArms(arms, syms)
    ensures ParseUnary(GenExpr(Build(Case(arms)), syms) + k) == Done(Tree(Case(arms)), k)
    decreases ArmsWeight(arms), 3
  {
    hide ParseUnary, ParseBinary, ParseTail, ParseConditional, GenArms, Formed;
    BuildsArms(Null, arms);
    var code := GenArms(ArmChain(arms), syms);
    ParsesArms(arms, [RParen] + k, syms);
    var ts := [LParen] + code + [RParen] + k;
    assert ts[1..] == code + ([RParen] + k);
    Parenthesized(ts, ArmsTree(arms), k);
  }

  lemma ArmsCode(arms: Arms, syms: Symbols)
    requires arms.Arm?
    ensures GenArms(ArmChain(arms), syms)
         == if IsDefault(arms.cond) then GenExpr(Build(arms.value), syms)
            else GenExpr(Build(arms.cond), syms) + [Question] + GenExpr(Build(arms.value), syms) + [Colon]
                 + GenArms(ArmChain(arms.rest), syms)
  {
    BuildKind(arms.cond);
  }

  lemma BuildKind(e: Expr)
    ensures Build(e).Node? && Build(e).kind == N_NUM <==> e.Num?
    ensures e.Num? ==> Build(e).sval == e.text
  {
    if e.Case? {
      BuildsArms(Null, e.arms);
    }
  }

  lemma RegroupedArm(c: seq<Token>, v: seq<Token>, r: seq<Token>, k: seq<Token>)
    ensures c + [Question] + v + [Colon] + r + k == c + ([Question] + (v + ([Colon] + (r + k))))
  {
  }

  lemma AfterHead(t: Token, ts: seq<Token>)
    ensures ([t] + ts)[1..] == ts
  {
  }

  lemma {:induction false} ParsesArms(arms: Arms, k: seq<Token>, syms: Symbols)
    requires FormedArms(arms, syms) && k != [] && k[0] == RParen
    ensures ParseConditional(GenArms(ArmChain(arms), syms) + k) == Done(ArmsTree(arms), k)
    decreases ArmsWeight(arms), 0
  {
    hide ParseUnary, ParseBinary, GenExpr, GenArms, Build, Tree, Formed, ParseConditional, ArmChain;
    if arms.NoArm? {
      ParsesDefault(k, syms);
    } else {
      ArmsCode(arms, syms);
      if IsDefault(arms.cond) {
        ParsesOperand(arms.value, k, syms);
      } else {
        var last := GenArms(ArmChain(arms.rest), syms) + k;
        var mid := GenExpr(Build(arms.value), syms) + ([Colon] + last);
        ParsesFirst(arms.cond, [Question] + mid, syms);
        ParsesOperand(arms.value, [Colon] + last, syms);
        ParsesArms(arms.rest, k, syms);
        var ts := GenArms(ArmChain(arms), syms) + k;
        RegroupedArm(GenExpr(Build(arms.cond), syms), GenExpr(Build(arms.value), syms),
                     GenArms(ArmChain(arms.rest), syms), k);
        AfterHead(Question, mid);
        AfterHead(Colon, last);
        Conditional(ts, Tree(arms.cond), [Question] + mid, Tree(arms.value), [Colon] + last, ArmsTree(arms.rest), k);
      }
    }
  }

  lemma ParsesDefault(k: seq<Token>, syms: Symbols)
    requires k != [] && k[0] == RParen
    ensures ParseConditional(GenArms(ArmChain(NoArm), syms) + k) == Done(ArmsTree(NoArm), k)
  {
    var ts := [Literal("0")] + k;
    assert ts[1..] == k;
    Climb(ts, 1, CLit("0"), k);
    NoQuestion(ts, CLit("0"), k);
  }

  lemma {:induction false} ParsesFirst(e: Expr, k: seq<Token>, syms: Symbols)
    requires Formed(e, syms) && Stops(k, 1)
    ensures ParseBinary(GenExpr(Build(e), syms) + k, 1) == Done(Tree(e), k)
    decreases Weight(e), 2
  {
    hide ParseUnary, ParseBinary, GenExpr, Build, Tree, Formed;
    Parses(e, k, syms);
    Climb(GenExpr(Build(e), syms) + k, 1, Tree(e), k);
  }

  lemma {:induction false} ParsesOperand(e: Expr, k: seq<Token>, syms: Symbols)
    requires Formed(e, syms) && k != [] && (k[0] == Colon || k[0] == RParen)
    ensures ParseConditional(GenExpr(Build(e), syms) + k) == Done(Tree(e), k)
    decreases Weight(e), 3
  {
    hide ParseUnary, ParseBinary, GenExpr, Build, Tree, Formed, ParseConditional;
    ParsesFirst(e, k, syms);
    NoQuestion(GenExpr(Build(e), syms) + k, Tree(e), k);
  }

  lemma Conditional(ts: seq<Token>, c: CExpr, r1: seq<Token>, a: CExpr, r2: seq<Token>, b: CExpr, k: seq<Token>)
    requires ParseBinary(ts, 1) == Done(c, r1) && r1 != [] && r1[0] == Question
    requires ParseConditional(r1[1..]) == Done(a, r2) && r2 != [] && r2[0] == Colon
    requires ParseConditional(r2[1..]) == Done(b, k)
    ensures ParseConditional(ts) == Done(CIf(c, a, b), k)
  {
    hide ParseBinary;
  }

  // ---- what the tree means

  /** Boolean signals are 0 or 1, whatever C text they stand for. */
  ghost predicate Logical(syms: Symbols, env: Env) {
    forall name :: name in syms && syms[name] ==> env(name) == 0 || env(name) == 1
  }

  /** What the generated code computes: as the expression means, except that a set contains the value of every case that
      is left when some of the first arms of one of its cases are dropped. */
  function Compiled(e: Expr, env: Env): int
    decreases Weight(e), 0
  {
    match e
    case Var(name) => env(name)
    case Num(text) => Atoll(text)
    case Not(a) => Truth(Compiled(a, env) == 0)
    case And(a, b) => Truth(Compiled(a, env) != 0 && Compiled(b, env) != 0)
    case Or(a, b) => Truth(Compiled(a, env) != 0 || Compiled(b, env) != 0)
    case Comp(op, a, b) => Truth(Compare(op, Compiled(a, env), Compiled(b, env)))
    case In(a, l) => Truth(AmongNodes(Compiled(a, env), l, env))
    case Case(arms) => FirstCompiled(arms, env)
  }

  predicate AmongNodes(v: int, l: Exprs, env: Env)
    decreases ListWeight(l), 0
  {
    l.More? && (v == Compiled(l.head, env) || AmongNodes(v, Rest(l), env))
  }

  function FirstCompiled(arms: Arms, env: Env): int
    decreases ArmsWeight(arms), 0
  {
    match arms
    case NoArm => 0
    case Arm(cond, value, rest) => if Compiled(cond, env) != 0 then Compiled(value, env) else FirstCompiled(rest, env)
  }

  /** What passes for a Boolean argument is 0 or 1. */
  lemma BooleanValue(e: Expr, syms: Symbols, env: Env)
    requires CheckArg(e, true, syms) && Logical(syms, env)
    ensures Eval(e, env) == 0 || Eval(e, env) == 1
    ensures Compiled(e, env) == 0 || Compiled(e, env) == 1
  {
    if e.Num? {
      assert Digits("0", 10) == 0;
      assert Digits("1", 10) == 1;
    }
  }

  lemma AndOfBits(a: int, b: int)
    requires (a == 0 || a == 1) && (b == 0 || b == 1)
    ensures BitAnd(a, b) == Truth(a != 0 && b != 0)
  {
    assert BitAnd(1 / 2, b / 2) == 0;
  }

  lemma OrOfBits(a: int, b: int)
    requires (a == 0 || a == 1) && (b == 0 || b == 1)
    ensures BitOr(a, b) == Truth(a != 0 || b != 0)
  {
    var x, y := -1 - a, -1 - b;
    if a == 1 {
      assert x / 2 == -1 && y / 2 == -1 && x % 2 == 0;
      assert BitAnd(x / 2, y / 2) == -1;
      assert BitAnd(x, y) == -2;
    }
  }

  lemma {:induction false} OctalAtMost(s: string)
    requires OctalDigits(s)
    ensures 0 <= Digits(s, 8) <= Digits(s, 10) && (Digits(s, 10) == 0 <==> Zeros(s))
  {
    if s != [] {
      var rest := s[..|s| - 1];
      OctalAtMost(rest);
      assert s == rest + [s[|s| - 1]];
    }
  }

  /** A NUMERAL WITH LEADING ZEROS CHANGES ITS VALUE: C reads it in octal, so that it is accepted and keeps the value that
      HCL gives it exactly when all its digits but the last are 0 and the last is not 8 or 9. */
  lemma LeadingZeros(digits: string)
    requires Octal(digits) && forall i :: 0 <= i < |digits| ==> '0' <= digits[i] <= '9'
    ensures LiteralValid(digits) && LiteralValue(digits) == Atoll(digits) <==> Plain(digits)
  {
    var front, last := digits[..|digits| - 1], digits[|digits| - 1];
    assert digits == front + [last];
    if LiteralValid(digits) {
      assert OctalDigits(front);
      OctalAtMost(front);
    }
    if Plain(digits) {
      PlainValid(digits);
    }
  }

  lemma NumMeans(text: string)
    requires Plain(Unsigned(text))
    ensures forall env: Env :: CEval(NumTree(text), env) == Atoll(text)
  {
    hide Digits;
    PlainValue(Unsigned(text));
  }

  lemma PlainValue(digits: string)
    requires Plain(digits)
    ensures LiteralValue(digits) == Digits(digits, 10)
  {
    if Octal(digits) {
      PlainValid(digits);
      OctalAtMost(digits[..|digits| - 1]);
    }
  }

  lemma AndMeans(a: Expr, b: Expr, op: COp, syms: Symbols, env: Env)
    requires CheckArg(a, true, syms) && CheckArg(b, true, syms) && Logical(syms, env) && (op == Amp || op == Bar)
    requires CEval(Tree(a), env) == Compiled(a, env) && CEval(Tree(b), env) == Compiled(b, env)
    ensures CEval(CBin(op, Tree(a), Tree(b)), env) == Compiled(if op == Amp then And(a, b) else Or(a, b), env)
  {
    hide BitAnd, BitOr, Tree, Logical, CheckArg;
    BooleanValue(a, syms, env);
    BooleanValue(b, syms, env);
    AndOfBits(Compiled(a, env), Compiled(b, env));
    OrOfBits(Compiled(a, env), Compiled(b, env));
  }

  /** The tree has the value that is claimed for the code. */
  lemma {:induction false} TreeMeans(e: Expr, syms: Symbols, env: Env)
    requires Formed(e, syms) && Checked(e, syms) && Logical(syms, env)
    ensures CEval(Tree(e), env) == Compiled(e, env)
    decreases Weight(e), 1
  {
    hide BitAnd, BitOr, Logical, CheckArg, Level, Digits;
    match e
    case Var(_) =>
    case Num(text) => NumMeans(text);
    case Not(a) => TreeMeans(a, syms, env);
    case And(a, b) => BothMean(a, b, syms, env); AndMeans(a, b, Amp, syms, env);
    case Or(a, b) => BothMean(a, b, syms, env); AndMeans(a, b, Bar, syms, env);
    case Comp(_, a, b) => BothMean(a, b, syms, env);
    case In(a, l) =>
      assert Weight(e) == 1 + Weight(a) + (1 + Weight(l.head) + ListWeight(l.tail));
      BothMean(a, l.head, syms, env);
      RestFormed(l, syms);
      RestChecked(l, syms);
      TailMeans(CBin(Cmp(Eq), Tree(a), Tree(l.head)), a, Rest(l), syms, env);
    case Case(arms) => ArmsMean(arms, syms, env);
  }

  lemma CheckedCase(e: Expr, syms: Symbols)
    requires Checked(e, syms)
    ensures e.Case? && e.arms.Arm? ==> CheckedArms(e.arms, syms) && CheckedArms(e.arms.rest, syms)
  {
  }

  lemma RestChecked(l: Exprs, syms: Symbols)
    requires l.More? && CheckedList(l, syms)
    ensures CheckedList(Rest(l), syms)
  {
    if l.head.Case? && l.head.arms.Arm? && l.head.arms.rest.Arm? {
      CheckedCase(l.head, syms);
      assert Checked(Case(l.head.arms.rest), syms);
    }
  }

  lemma {:induction false} BothMean(a: Expr, b: Expr, syms: Symbols, env: Env)
    requires Formed(a, syms) && Checked(a, syms) && Formed(b, syms) && Checked(b, syms) && Logical(syms, env)
    ensures CEval(Tree(a), env) == Compiled(a, env) && CEval(Tree(b), env) == Compiled(b, env)
    decreases Weight(a) + Weight(b), 2
  {
    hide Tree, CEval, Compiled, Formed, Checked;
    TreeMeans(a, syms, env);
    TreeMeans(b, syms, env);
  }

  lemma {:induction false} TailMeans(left: CExpr, a: Expr, l: Exprs, syms: Symbols, env: Env)
    requires FormedList(l, syms) && CheckedList(l, syms) && Logical(syms, env)
    requires CEval(Tree(a), env) == Compiled(a, env) && (CEval(left, env) == 0 || CEval(left, env) == 1)
    ensures CEval(TailTree(left, Tree(a), l), env) == Truth(CEval(left, env) != 0 || AmongNodes(Compiled(a, env), l, env))
    decreases ListWeight(l), 0
  {
    hide BitAnd, BitOr, Digits, Logical, Level, Compiled, Tree, CheckArg, Rest, Formed, Checked;
    if l.More? {
      TreeMeans(l.head, syms, env);
      RestFormed(l, syms);
      RestChecked(l, syms);
      TailMeans(CBin(OrOr, left, CBin(Cmp(Eq), Tree(a), Tree(l.head))), a, Rest(l), syms, env);
    }
  }

  lemma {:induction false} ArmsMean(arms: Arms, syms: Symbols, env: Env)
    requires FormedArms(arms, syms) && CheckedArms(arms, syms) && Logical(syms, env)
    ensures CEval(ArmsTree(arms), env) == FirstCompiled(arms, env)
    decreases ArmsWeight(arms), 0
  {
    if arms.Arm? {
      TreeMeans(arms.cond, syms, env);
      TreeMeans(arms.value, syms, env);
      ArmsMean(arms.rest, syms, env);
    } else {
      assert Digits("0", 10) == 0;
    }
  }

  /** WHAT THE CODE COMPUTES: for every expression that the HCL compiler accepts without an error, the code generator reads no
      null pointer, the C parser reads the whole generated text as one expression, and its value is known. */
  lemma HclCompiled(e: Expr, syms: Symbols, env: Env)
    requires Formed(e, syms) && Checked(e, syms) && Logical(syms, env)
    ensures Safe(Build(e))
    ensures var r := ParseConditional(GenExpr(Build(e), syms));
            r.Done? && r.rest == [] && CEval(r.e, env) == Compiled(e, env)
  {
    hide ParseUnary, GenExpr, Build, Tree, Safe;
    var ts := GenExpr(Build(e), syms);
    Parses(e, [], syms);
    assert ts + [] == ts;
    Climb(ts, 1, Tree(e), []);
    TreeMeans(e, syms, env);
    FormedSafe(e, syms);
  }

  // ---- where the code means what the expression means

  /** The value v is that of a case over some of the last of these arms. */
  predicate AmongCases(v: int, arms: Arms, env: Env) {
    arms.Arm? && (v == FirstArm(arms, env) || AmongCases(v, arms.rest, env))
  }

  /** The value v is that of a case over a proper part, at the end, of the arms of a case in the set. */
  predicate Leaked(v: int, l: Exprs, env: Env) {
    l.More? && ((l.head.Case? && l.head.arms.Arm? && AmongCases(v, l.head.arms.rest, env)) || Leaked(v, l.tail, env))
  }

  /** Whenever a value leaks into a set in e, it is a member anyway. */
  predicate NoLeak(e: Expr, env: Env)
    decreases e
  {
    match e
    case Var(_) => true
    case Num(_) => true
    case Not(a) => NoLeak(a, env)
    case And(a, b) => NoLeak(a, env) && NoLeak(b, env)
    case Or(a, b) => NoLeak(a, env) && NoLeak(b, env)
    case Comp(_, a, b) => NoLeak(a, env) && NoLeak(b, env)
    case In(a, l) => NoLeak(a, env) && NoLeaks(l, env) && (Leaked(Eval(a, env), l, env) ==> Among(Eval(a, env), l, env))
    case Case(arms) => NoArmLeaks(arms, env)
  }

  predicate NoLeaks(l: Exprs, env: Env)
    decreases l
  {
    l.NoMore? || (NoLeak(l.head, env) && NoLeaks(l.tail, env))
  }

  predicate NoArmLeaks(arms: Arms, env: Env)
    decreases arms
  {
    arms.NoArm? || (NoLeak(arms.cond, env) && NoLeak(arms.value, env) && NoArmLeaks(arms.rest, env))
  }

  /** The code of a set tests for its elements and for what leaks. */
  lemma {:induction false} NodesAre(v: int, l: Exprs, env: Env)
    requires NoLeaks(l, env)
    ensures AmongNodes(v, l, env) <==> Among(v, l, env) || Leaked(v, l, env)
    decreases ListWeight(l), 2
  {
    if l.More? {
      hide Eval, Compiled;
      CompiledMeans(l.head, env);
      if l.head.Case? && l.head.arms.Arm? {
        assert NoLeak(l.head, env) && NoArmLeaks(l.head.arms, env);
        assert Weight(l.head) == 1 + ArmsWeight(l.head.arms);
        LaterArms(v, l.head.arms.rest, l.tail, env);
        CaseValue(l.head.arms, env);
      } else {
        NodesAre(v, l.tail, env);
      }
    }
  }

  lemma CaseValue(arms: Arms, env: Env)
    ensures Eval(Case(arms), env) == FirstArm(arms, env)
  {
  }

  lemma {:induction false} LaterArms(v: int, arms: Arms, tail: Exprs, env: Env)
    requires NoArmLeaks(arms, env) && NoLeaks(tail, env)
    ensures AmongNodes(v, if arms.Arm? then More(Case(arms), tail) else tail, env)
            <==> AmongCases(v, arms, env) || Among(v, tail, env) || Leaked(v, tail, env)
    decreases ArmsWeight(arms) + 1 + ListWeight(tail), 3
  {
    if arms.Arm? {
      hide Eval, Compiled;
      ArmsCompiled(arms, env);
      CaseCompiled(arms, env);
      LaterArms(v, arms.rest, tail, env);
    } else {
      NodesAre(v, tail, env);
    }
  }

  lemma CaseCompiled(arms: Arms, env: Env)
    ensures Compiled(Case(arms), env) == FirstCompiled(arms, env)
  {
  }

  lemma {:induction false} ArmsCompiled(arms: Arms, env: Env)
    requires NoArmLeaks(arms, env)
    ensures FirstCompiled(arms, env) == FirstArm(arms, env)
    decreases ArmsWeight(arms), 1
  {
    if arms.Arm? {
      CompiledMeans(arms.cond, env);
      CompiledMeans(arms.value, env);
      ArmsCompiled(arms.rest, env);
    }
  }

  lemma {:induction false} CompiledMeans(e: Expr, env: Env)
    requires NoLeak(e, env)
    ensures Compiled(e, env) == Eval(e, env)
    decreases Weight(e), 2
  {
    match e
    case Var(_) =>
    case Num(_) =>
    case Not(a) => CompiledMeans(a, env);
    case And(a, b) => CompiledMeans(a, env); CompiledMeans(b, env);
    case Or(a, b) => CompiledMeans(a, env); CompiledMeans(b, env);
    case Comp(_, a, b) => CompiledMeans(a, env); CompiledMeans(b, env);
    case In(a, l) => CompiledMeans(a, env); NodesAre(Eval(a, env), l, env);
    case Case(arms) => ArmsCompiled(arms, env);
  }

  /** COMPILATION PRESERVES MEANING: for every expression that the HCL compiler accepts without an error, the generated text
      is one expression of C with the value of the HCL expression, unless a value leaks into a set that it is no member
      of. */
  lemma HclPreserved(e: Expr, syms: Symbols, env: Env)
    requires Formed(e, syms) && Checked(e, syms) && Logical(syms, env) && NoLeak(e, env)
    ensures Safe(Build(e))
    ensures var r := ParseConditional(GenExpr(Build(e), syms));
            r.Done? && r.rest == [] && CEval(r.e, env) == Eval(e, env)
  {
    hide ParseConditional, GenExpr, Build, Compiled, Safe;
    HclCompiled(e, syms, env);
    CompiledMeans(e, env);
  }

  /** THE EXACT CONDITION FOR A SET: the code differs from the HCL value if and only if the element tested is no member of
      the set but equals a case over a proper part, at the end, of the arms of a case in it. */
  lemma SetPreservedExactly(a: Expr, l: Exprs, syms: Symbols, env: Env)
    requires Formed(In(a, l), syms) && Checked(In(a, l), syms) && Logical(syms, env)
    requires NoLeak(a, env) && NoLeaks(l, env)
    ensures var r := ParseConditional(GenExpr(Build(In(a, l)), syms));
            && r.Done? && r.rest == []
            && (CEval(r.e, env) != Eval(In(a, l), env)
                <==> !Among(Eval(a, env), l, env) && Leaked(Eval(a, env), l, env))
  {
    hide ParseConditional, GenExpr, Build, Safe, Formed, Checked;
    HclCompiled(In(a, l), syms, env);
    CompiledMeans(a, env);
    NodesAre(Eval(a, env), l, env);
  }

  /** Without cases of several arms in its sets an expression is always preserved. */
  predicate SingleArms(e: Expr)
    decreases e
  {
    match e
    case Var(_) => true
    case Num(_) => true
    case Not(a) => SingleArms(a)
    case And(a, b) => SingleArms(a) && SingleArms(b)
    case Or(a, b) => SingleArms(a) && SingleArms(b)
    case Comp(_, a, b) => SingleArms(a) && SingleArms(b)
    case In(a, l) => SingleArms(a) && SingleElements(l)
    case Case(arms) => SingleInArms(arms)
  }

  predicate SingleElements(l: Exprs)
    decreases l
  {
    l.NoMore?
    || (SingleArms(l.head) && (l.head.Case? && l.head.arms.Arm? ==> l.head.arms.rest.NoArm?) && SingleElements(l.tail))
  }

  predicate SingleInArms(arms: Arms)
    decreases arms
  {
    arms.NoArm? || (SingleArms(arms.cond) && SingleArms(arms.value) && SingleInArms(arms.rest))
  }

  /** A case of one arm in a set leaks nothing. */
  lemma {:induction false} SingleArmsKeep(e: Expr, env: Env)
    requires SingleArms(e)
    ensures NoLeak(e, env)
    decreases Weight(e), 0
  {
    hide Eval;
    match e
    case Var(_) =>
    case Num(_) =>
    case Not(a) => SingleArmsKeep(a, env);
    case And(a, b) => SingleArmsKeep(a, env); SingleArmsKeep(b, env);
    case Or(a, b) => SingleArmsKeep(a, env); SingleArmsKeep(b, env);
    case Comp(_, a, b) => SingleArmsKeep(a, env); SingleArmsKeep(b, env);
    case In(a, l) => SingleArmsKeep(a, env); SingleElementsKeep(Eval(a, env), l, env);
    case Case(arms) => SingleInArmsKeep(arms, env);
  }

  lemma {:induction false} SingleElementsKeep(v: int, l: Exprs, env: Env)
    requires SingleElements(l)
    ensures NoLeaks(l, env) && !Leaked(v, l, env)
    decreases ListWeight(l), 0
  {
    if l.More? {
      SingleArmsKeep(l.head, env);
      SingleElementsKeep(v, l.tail, env);
    }
  }

  lemma {:induction false} SingleInArmsKeep(arms: Arms, env: Env)
    requires SingleInArms(arms)
    ensures NoArmLeaks(arms, env)
    decreases ArmsWeight(arms), 0
  {
    if arms.Arm? {
      SingleArmsKeep(arms.cond, env);
      SingleArmsKeep(arms.value, env);
      SingleInArmsKeep(arms.rest, env);
    }
  }

  // ---- null pointers

  lemma {:induction false} FormedSafe(e: Expr, syms: Symbols)
    requires Formed(e, syms)
    ensures Safe(Build(e))
    decreases Weight(e), 1
  {
    match e
    case Var(_) =>
    case Num(_) =>
    case Not(a) => FormedSafe(a, syms);
    case And(a, b) => FormedSafe(a, syms); FormedSafe(b, syms);
    case Or(a, b) => FormedSafe(a, syms); FormedSafe(b, syms);
    case Comp(_, a, b) => FormedSafe(a, syms); FormedSafe(b, syms);
    case In(a, l) => FormedSafe(a, syms); BuildsElements(Null, l); ElementsSafe(a, l, syms);
    case Case(arms) => BuildsCase(arms); ArmsSafe(arms, syms);
  }

  lemma {:induction false} ElementsSafe(a: Expr, l: Exprs, syms: Symbols)
    requires Safe(Build(a)) && FormedList(l, syms)
    ensures SafeElements(Build(a), ElementChain(l))
    decreases ListWeight(l), 0
  {
    hide Safe, Build, Formed, Rest;
    if l.More? {
      FormedSafe(l.head, syms);
      HeadCode(l, syms);
      ChainHead(l) by { FormedCase(l.head, syms); }
      RestFormed(l, syms);
      ElementsSafe(a, Rest(l), syms);
    }
  }

  lemma {:induction false} ArmsSafe(arms: Arms, syms: Symbols)
    requires FormedArms(arms, syms)
    ensures SafeArms(ArmChain(arms))
    decreases ArmsWeight(arms), 0
  {
    hide Safe, Build, Formed;
    if arms.Arm? {
      FormedSafe(arms.cond, syms);
      FormedSafe(arms.value, syms);
      BuildKind(arms.cond);
      ArmsSafe(arms.rest, syms);
    }
  }

  /** The set has a case that does not end in a default, right before an element whose node lacks an argument. */
  predicate OpenCase(l: Exprs) {
    l.More?
    && ((l.head.Case? && l.head.arms.Arm? && !EndsInDefault(l.head.arms) && l.tail.More?
         && (l.tail.head.Var? || l.tail.head.Num? || l.tail.head.Not?))
        || OpenCase(l.tail))
  }

  /** A CASE BEFORE ANOTHER ELEMENT READS NULL: the loop over its arms runs on into the next element, and takes an
      argument that is not there for a condition or a value. */
  lemma OpenCaseReadsNull(a: Expr, l: Exprs)
    requires OpenCase(l)
    ensures !Safe(Build(In(a, l)))
  {
    BuildsElements(Null, l);
    UnsafeElements(Build(a), l);
  }

  lemma {:induction false} UnsafeElements(elem: Node, l: Exprs)
    requires OpenCase(l)
    ensures !SafeElements(elem, ElementChain(l))
  {
    if l.head.Case? && l.head.arms.Arm? && !EndsInDefault(l.head.arms) && l.tail.More?
       && (l.tail.head.Var? || l.tail.head.Num? || l.tail.head.Not?) {
      BuildsCase(l.head.arms);
      UnsafeArms(elem, l.head.arms, ElementChain(l.tail)) by { MissingArgument(l.tail); }
    } else {
      UnsafeElements(elem, l.tail);
      SkipsPrefix(elem, Build(l.head), ElementChain(l.tail));
    }
  }

  lemma MissingArgument(l: Exprs)
    requires l.More? && (l.head.Var? || l.head.Num? || l.head.Not?)
    ensures !SafeArms(ElementChain(l)) && ElementChain(l).Node?
  {
  }

  lemma {:induction false} SkipsPrefix(elem: Node, n: Node, behind: Node)
    requires !SafeElements(elem, behind)
    ensures !SafeElements(elem, Concat(n, behind))
  {
    hide Safe;
    if n.Node? && n.next.Node? {
      SkipsPrefix(elem, n.next, behind);
    }
  }

  lemma {:induction false} UnsafeArms(elem: Node, arms: Arms, behind: Node)
    requires arms.Arm? && !EndsInDefault(arms) && !SafeArms(behind) && behind.Node?
    ensures !SafeElements(elem, Concat(ArmChain(arms), behind))
  {
    if arms.rest.Arm? {
      UnsafeArms(elem, arms.rest, behind);
    } else {
      BuildKind(arms.cond);
      var node := Concat(ArmChain(arms), behind);
      assert node == ArmChain(arms).(next := behind);
      assert !SafeArms(node);
      assert !Safe(node);
    }
  }

  function Append(arms: Arms, more: Arms): Arms {
    if arms.NoArm? then more else arms.(rest := Append(arms.rest, more))
  }

  lemma {:induction false} AppendChain(arms: Arms, more: Arms)
    ensures ArmChain(Append(arms, more)) == Concat(ArmChain(arms), ArmChain(more))
  {
    if arms.Arm? {
      AppendChain(arms.rest, more);
      if arms.rest.NoArm? {
        assert ArmChain(arms).next.Null?;
      }
    }
  }

  /** TWO CASES SIDE BY SIDE ARE ONE: the compiler cannot tell them from the case over all their arms. */
  lemma NeighboursMerge(a: Expr, first: Arms, second: Arms, l: Exprs)
    ensures Build(In(a, More(Case(first), More(Case(second), l)))) == Build(In(a, More(Case(Append(first, second)), l)))
  {
    BuildsElements(Null, More(Case(first), More(Case(second), l)));
    BuildsElements(Null, More(Case(Append(first, second)), l));
    BuildsCase(first);
    BuildsCase(second);
    BuildsCase(Append(first, second));
    AppendChain(first, second);
    ConcatAssoc(ArmChain(first), ArmChain(second), ElementChain(l));
  }

  // ---- a set that leaks

  /** A CASE IN A SET LEAKS ITS LATER ARMS: the chain of the arms is taken for the chain of the set, so that 2 counts as a
      member of the set whose only element is the case with the value 1. */
  lemma CaseInSetMiscompiled() returns (e: Expr, syms: Symbols, env: Env)
    ensures Formed(e, syms) && Checked(e, syms) && Logical(syms, env)
    ensures var r := ParseConditional(GenExpr(Build(e), syms));
            r.Done? && r.rest == [] && CEval(r.e, env) != Eval(e, env)
  {
    hide ParseConditional, GenExpr, Build;
    var both := Arm(Var("a"), Num("1"), Arm(Var("b"), Num("2"), NoArm));
    var l := More(Case(both), NoMore);
    e := In(Var("x"), l);
    syms := map["x" := false, "a" := true, "b" := true];
    env := name => if name == "x" then 2 else 1;
    assert Digits("1", 10) == 1 && Digits("2", 10) == 2;
    assert FirstArm(both, env) == 1 && FirstArm(both.rest, env) == 2;
    SetPreservedExactly(Var("x"), l, syms, env);
  }
}
