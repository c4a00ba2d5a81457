/** What the parts of HCL are that the compiler and the meaning share: types, comparisons and numerals. */
module HclMeaning {
  import Arith
  import opened Hcl
  import HclCorrect

  // ---- types

  datatype Type = Boolean | Integer

  /** THE TYPING OF HCL: which expressions are of a type. The numbers 0 and 1 are of both. An element of a set may be of
      either type. */
  ghost predicate HasType(e: Expr, t: Type, syms: Symbols) {
    match e
    case Var(name) => name in syms && if syms[name] then t == Boolean else t == Integer
    case Num(text) => t == Integer || text == "0" || text == "1"
    case Not(a) => t == Boolean && HasType(a, Boolean, syms)
    case And(a, b) => t == Boolean && HasType(a, Boolean, syms) && HasType(b, Boolean, syms)
    case Or(a, b) => t == Boolean && HasType(a, Boolean, syms) && HasType(b, Boolean, syms)
    case Comp(_, a, b) => t == Boolean && HasType(a, Integer, syms) && HasType(b, Integer, syms)
    case In(a, l) => t == Boolean && HasType(a, Integer, syms) && AllTyped(l, syms)
    case Case(arms) => t == Integer && ArmsTyped(arms, syms)
  }

  ghost predicate AllTyped(l: Exprs, syms: Symbols) {
    l.More? ==> (exists t :: HasType(l.head, t, syms)) && AllTyped(l.tail, syms)
  }

  ghost predicate ArmsTyped(arms: Arms, syms: Symbols) {
    arms.Arm? ==> HasType(arms.cond, Boolean, syms) && HasType(arms.value, Integer, syms) && ArmsTyped(arms.rest, syms)
  }

  /** CHECKING IS TYPING: what the compiler accepts where a Boolean or an integer is wanted is exactly what is of that type;
      an expression by itself is accepted exactly if it is of some type. */
  lemma {:induction false} CheckedIsTyped(e: Expr, syms: Symbols)
    ensures Checked(e, syms) && CheckArg(e, true, syms) <==> HasType(e, Boolean, syms)
    ensures Checked(e, syms) && CheckArg(e, false, syms) <==> HasType(e, Integer, syms)
    ensures Checked(e, syms) <==> exists t :: HasType(e, t, syms)
  {
    match e
    case Var(name) =>
      assert HasType(e, Boolean, syms) || HasType(e, Integer, syms) <==> name in syms;
    case Num(_) => assert HasType(e, Integer, syms);
    case Not(a) => CheckedIsTyped(a, syms);
    case And(a, b) =>
      CheckedIsTyped(a, syms);
      CheckedIsTyped(b, syms);
    case Or(a, b) =>
      CheckedIsTyped(a, syms);
      CheckedIsTyped(b, syms);
    case Comp(_, a, b) =>
      CheckedIsTyped(a, syms);
      CheckedIsTyped(b, syms);
    case In(a, l) =>
      CheckedIsTyped(a, syms);
      ListIsTyped(l, syms);
    case Case(arms) => ArmsAreTyped(arms, syms);
  }

  lemma {:induction false} ListIsTyped(l: Exprs, syms: Symbols)
    ensures CheckedList(l, syms) <==> AllTyped(l, syms)
  {
    if l.More? {
      CheckedIsTyped(l.head, syms);
      ListIsTyped(l.tail, syms);
    }
  }

  lemma {:induction false} ArmsAreTyped(arms: Arms, syms: Symbols)
    ensures CheckedArms(arms, syms) <==> ArmsTyped(arms, syms)
  {
    if arms.Arm? {
      CheckedIsTyped(arms.cond, syms);
      CheckedIsTyped(arms.value, syms);
      ArmsAreTyped(arms.rest, syms);
    }
  }

  /** The node of an operation carries its type, which is what the compiler looks at. */
  lemma NodeType(e: Expr, syms: Symbols)
    requires !e.Var? && !e.Num? && (e.Case? ==> e.arms.Arm?)
    ensures Build(e).Node? && CheckArg(e, true, syms) == Build(e).isbool && CheckArg(e, false, syms) == !Build(e).isbool
  {
    if e.Case? {
      ArmsNode(NewNode(N_CASE, false, ":", Eq, Build(e.arms.cond), Build(e.arms.value)), e.arms.rest);
    }
  }

  lemma {:induction false} ArmsNode(acc: Node, arms: Arms)
    requires acc.Node? && !acc.isbool
    ensures BuildArms(acc, arms).Node? && !BuildArms(acc, arms).isbool
    decreases arms
  {
    if arms.Arm? {
      ArmsNode(Concat(acc, NewNode(N_CASE, false, ":", Eq, Build(arms.cond), Build(arms.value))), arms.rest);
    }
  }

  // ---- comparisons

  /** The comparisons by the sign of the difference. */
  lemma Compared(a: int, b: int)
    ensures Compare(Lt, a, b) <==> b - a > 0
    ensures Compare(Gt, a, b) <==> Compare(Lt, b, a)
    ensures Compare(Eq, a, b) <==> !Compare(Lt, a, b) && !Compare(Gt, a, b)
    ensures Compare(Ne, a, b) <==> !Compare(Eq, a, b)
    ensures Compare(Le, a, b) <==> Compare(Lt, a, b) || Compare(Eq, a, b)
    ensures Compare(Ge, a, b) <==> !Compare(Lt, a, b)
  {
  }

  // ---- connectives

  predicate IsBit(a: int) { a == 0 || a == 1 }

  function Least(x: int, y: int): int { if x < y then x else y }

  function Greatest(x: int, y: int): int { if x < y then y else x }

  lemma EvalStep(a: Expr, b: Expr, env: Env)
    ensures Eval(Not(a), env) == Truth(Eval(a, env) == 0)
    ensures Eval(And(a, b), env) == Truth(Eval(a, env) != 0 && Eval(b, env) != 0)
    ensures Eval(Or(a, b), env) == Truth(Eval(a, env) != 0 || Eval(b, env) != 0)
  {
  }

  /** On truth values, conjunction is the smaller and disjunction the greater one, for HCL and for the operators of C that
      stand for it. */
  lemma Connectives(a: Expr, b: Expr, env: Env)
    requires IsBit(Eval(a, env)) && IsBit(Eval(b, env))
    ensures Eval(Not(a), env) == 1 - Eval(a, env)
    ensures var least := Least(Eval(a, env), Eval(b, env));
            Eval(And(a, b), env) == least && CApply(Amp, Eval(a, env), Eval(b, env)) == least
    ensures var greatest := Greatest(Eval(a, env), Eval(b, env));
            Eval(Or(a, b), env) == greatest && CApply(Bar, Eval(a, env), Eval(b, env)) == greatest
            && CApply(OrOr, Eval(a, env), Eval(b, env)) == greatest
  {
    hide BitAnd, BitOr, Eval;
    EvalStep(a, b, env);
    HclCorrect.AndOfBits(Eval(a, env), Eval(b, env));
    HclCorrect.OrOfBits(Eval(a, env), Eval(b, env));
  }

  /** The condition and the value of arm i. */
  function ArmAt(arms: Arms, i: nat): Arms { if arms.NoArm? || i == 0 then arms else ArmAt(arms.rest, i - 1) }

  /** A case is the value of the first arm whose condition holds, and 0 if there is none. */
  lemma {:induction false} FirstArmTold(arms: Arms, i: nat, env: Env)
    requires forall j: nat :: j < i ==> ArmAt(arms, j).Arm? && Eval(ArmAt(arms, j).cond, env) == 0
    ensures ArmAt(arms, i).NoArm? ==> Eval(Case(arms), env) == 0
    ensures ArmAt(arms, i).Arm? && Eval(ArmAt(arms, i).cond, env) != 0 ==>
              Eval(Case(arms), env) == Eval(ArmAt(arms, i).value, env)
  {
    if i > 0 {
      assert ArmAt(arms, 0) == arms;
      forall j: nat | j < i - 1
        ensures ArmAt(arms.rest, j).Arm? && Eval(ArmAt(arms.rest, j).cond, env) == 0
      {
        assert ArmAt(arms, j + 1) == ArmAt(arms.rest, j);
      }
      FirstArmTold(arms.rest, i - 1, env);
    }
  }

  function ElementAt(l: Exprs, i: nat): Exprs { if l.NoMore? || i == 0 then l else ElementAt(l.tail, i - 1) }

  /** Element i of the set has the value of a. */
  predicate HitAt(a: Expr, l: Exprs, i: nat, env: Env) {
    ElementAt(l, i).More? && Eval(ElementAt(l, i).head, env) == Eval(a, env)
  }

  /** A value is in a set exactly if it is that of one of the elements. */
  lemma {:induction false} InTold(a: Expr, l: Exprs, env: Env)
    ensures Eval(In(a, l), env) == if exists i: nat :: HitAt(a, l, i, env) then 1 else 0
  {
    if l.More? {
      InTold(a, l.tail, env);
      NextElement(a, l, env);
      if Eval(l.head, env) == Eval(a, env) {
        assert HitAt(a, l, 0, env);
      } else if i: nat :| HitAt(a, l.tail, i, env) {
        assert HitAt(a, l, i + 1, env);
      } else {
        forall i: nat
          ensures !HitAt(a, l, i, env)
        {
          if i > 0 {
            assert !HitAt(a, l.tail, i - 1, env);
          }
        }
      }
    }
  }

  lemma NextElement(a: Expr, l: Exprs, env: Env)
    requires l.More?
    ensures HitAt(a, l, 0, env) <==> Eval(l.head, env) == Eval(a, env)
    ensures forall i: nat :: HitAt(a, l.tail, i, env) <==> HitAt(a, l, i + 1, env)
  {
  }

  // ---- numerals

  const DECIMAL: string := "0123456789"

  /** A number written with as many digits as it takes. */
  function Written(n: nat, base: nat): string
    requires 2 <= base <= 10
    decreases n
  {
    (if n < base then "" else Written(n / base, base)) + [DECIMAL[n % base]]
  }

  lemma DigitValue(d: nat)
    requires d < 10
    ensures Digit(DECIMAL[d]) == d
  {
  }

  lemma Snoc(s: string, c: char)
    ensures (s + [c])[..|s|] == s && (s + [c])[|s|] == c
  {
  }

  lemma DigitsSnoc(s: string, c: char, base: int)
    ensures Digits(s + [c], base) == Digits(s, base) * base + Digit(c)
  {
    Snoc(s, c);
  }

  lemma PutTogether(n: nat, base: nat)
    requires base > 0
    ensures n / base * base + n % base == n
    ensures n < base ==> n % base == n
  {
    if n < base {
      Arith.Quotient(n, base, 0, n);
    }
  }

  lemma NothingRead(base: int)
    ensures Digits("", base) == 0
  {
  }

  lemma WrittenStep(n: nat, base: nat)
    requires 2 <= base <= 10
    ensures n >= base ==> 0 <= n / base < n
    ensures Written(n, base) == (if n < base then "" else Written(n / base, base)) + [DECIMAL[n % base]]
  {
  }

  /** What is written is read. */
  lemma {:induction false} WrittenIsRead(n: nat, base: nat)
    requires 2 <= base <= 10
    ensures Digits(Written(n, base), base) == n
    decreases n
  {
    hide Digits, Written, Digit;
    WrittenStep(n, base);
    DigitValue(n % base);
    PutTogether(n, base);
    if n < base {
      NothingRead(base);
      DigitsSnoc("", DECIMAL[n % base], base);
    } else {
      WrittenIsRead(n / base, base);
      DigitsSnoc(Written(n / base, base), DECIMAL[n % base], base);
    }
  }

  lemma {:induction false} NoSign(n: nat, base: nat)
    requires 2 <= base <= 10
    ensures Written(n, base) != "" && Written(n, base)[0] != '-'
    decreases n
  {
    hide Written;
    WrittenStep(n, base);
    if n >= base {
      NoSign(n / base, base);
    }
  }

  /** A decimal numeral stands for its number, and with a minus sign for the negative one. */
  lemma NumeralsRead(n: nat)
    ensures Atoll(Written(n, 10)) == n && Atoll("-" + Written(n, 10)) == -(n as int)
  {
    hide Digits, Written;
    WrittenIsRead(n, 10);
    NoSign(n, 10);
    assert ("-" + Written(n, 10))[1..] == Written(n, 10);
  }

  // ---- bits

  function Power(k: nat): (p: nat)
    ensures p > 0
  {
    if k == 0 then 1 else 2 * Power(k - 1)
  }

  lemma Halved(x: int, p: nat)
    requires p > 0
    ensures x / (2 * p) == x / 2 / p
  {
    var y := x / 2;
    var q, r := y / p, y % p;
    assert x == (2 * p) * q + (2 * r + x % 2);
    Arith.Quotient(x, 2 * p, q, 2 * r + x % 2);
  }

  lemma LowBit(a: int, b: int)
    ensures BitAnd(a, b) % 2 == (a % 2) * (b % 2) && BitAnd(a, b) / 2 == BitAnd(a / 2, b / 2)
  {
    var rest := BitAnd(a / 2, b / 2);
    if a == 0 || a == -1 {
      assert a / 2 == a && a % 2 == -a;
    } else {
      OneBit(a % 2, b % 2);
      assert BitAnd(a, b) == 2 * rest + (a % 2) * (b % 2);
      Arith.Quotient(BitAnd(a, b), 2, rest, (a % 2) * (b % 2));
    }
  }

  lemma OneBit(a: int, b: int)
    requires 0 <= a < 2 && 0 <= b < 2
    ensures 0 <= a * b < 2
  {
  }

  /** Every bit of C's `&`, for numbers of any sign in two's complement. */
  lemma {:induction false} AndBit(a: int, b: int, k: nat)
    ensures BitAnd(a, b) / Power(k) % 2 == (a / Power(k) % 2) * (b / Power(k) % 2)
    decreases k
  {
    LowBit(a, b);
    if k > 0 {
      AndBit(a / 2, b / 2, k - 1);
      Halved(a, Power(k - 1));
      Halved(b, Power(k - 1));
      Halved(BitAnd(a, b), Power(k - 1));
    }
  }

  lemma FlippedBit(x: int, p: nat)
    requires p > 0
    ensures (-1 - x) / p % 2 == 1 - x / p % 2
  {
    var q, r := x / p, x % p;
    assert -1 - x == p * (-q - 1) + (p - 1 - r);
    Arith.Quotient(-1 - x, p, -q - 1, p - 1 - r);
  }

  /** Every bit of C's `|`. */
  lemma OrBit(a: int, b: int, k: nat)
    ensures BitOr(a, b) / Power(k) % 2 == 1 <==> a / Power(k) % 2 == 1 || b / Power(k) % 2 == 1
  {
    hide BitAnd, Power;
    AndBit(-1 - a, -1 - b, k);
    FlippedBit(a, Power(k));
    FlippedBit(b, Power(k));
    FlippedBit(BitAnd(-1 - a, -1 - b), Power(k));
  }
}
