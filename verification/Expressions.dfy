/** The expressions of pythonCodegen/experimental/cse.py, what they mean, and when two of
    them are the same up to swapping operands. CasADi's constructors are plain constructors. */
module Expressions {

  const BINARY_OPCODES := {1, 2, 3, 4}
  const UNARY_OPCODES := {5, 10, 11, 12, 13}

  datatype Expr =
    | Const(value: real)
    | Sym(id: nat)
    | Unary(op: int, arg: Expr)
    | Binary(op: int, left: Expr, right: Expr)

  /** isCommutative: of the recognised binary operators, + (1) and * (3). */
  predicate Commutes(op: int) {
    op == 1 || op == 3
  }

  /** The assertions that opcodes are recognised. */
  predicate Recognised(e: Expr) {
    match e
    case Const(_) => true
    case Sym(_) => true
    case Unary(op, a) => op in UNARY_OPCODES && Recognised(a)
    case Binary(op, a, b) => op in BINARY_OPCODES && Recognised(a) && Recognised(b)
  }

  /** apply_unary_opcode */
  function ApplyUnaryOpcode(code: int, p: Expr): Expr
    requires code in UNARY_OPCODES
  {
    Unary(code, p)
  }

  /** apply_binary_opcode */
  function ApplyBinaryOpcode(code: int, a: Expr, b: Expr): Expr
    requires code in BINARY_OPCODES
  {
    Binary(code, a, b)
  }

  function Subs(e: Expr): (s: set<Expr>)
    ensures e in s
    decreases e, 1
  {
    {e} + ProperSubs(e)
  }

  function ProperSubs(e: Expr): set<Expr>
    decreases e, 0
  {
    match e
    case Const(_) => {}
    case Sym(_) => {}
    case Unary(_, a) => Subs(a)
    case Binary(_, a, b) => Subs(a) + Subs(b)
  }

  lemma {:induction false} SubsAreTransitive(e: Expr, x: Expr)
    requires x in Subs(e)
    ensures Subs(x) <= Subs(e)
  {
    if x != e {
      match e {
        case Unary(_, a) => SubsAreTransitive(a, x);
        case Binary(_, a, b) =>
          if x in Subs(a) {
            SubsAreTransitive(a, x);
          } else {
            SubsAreTransitive(b, x);
          }
      }
    }
  }

  /** Equal up to swapping the operands of commutative operators, at any depth. */
  predicate Same(a: Expr, b: Expr) {
    match a
    case Const(_) => a == b
    case Sym(_) => a == b
    case Unary(op, x) => b.Unary? && b.op == op && Same(x, b.arg)
    case Binary(op, x, y) =>
      && b.Binary? && b.op == op
      && ((Same(x, b.left) && Same(y, b.right)) || (Commutes(op) && Same(x, b.right) && Same(y, b.left)))
  }

  // ---- Meaning ----

  /** Any interpretation of the constants and operators; real arithmetic is one. */
  datatype Algebra<!V> = Algebra(constant: real -> V, unary: (int, V) -> V, binary: (int, V, V) -> V)

  ghost predicate Commutative<V(!new)>(alg: Algebra<V>) {
    forall op: int, a: V, b: V :: Commutes(op) ==> alg.binary(op, a, b) == alg.binary(op, b, a)
  }

  function Eval<V>(alg: Algebra<V>, env: nat -> V, e: Expr): V {
    match e
    case Const(v) => alg.constant(v)
    case Sym(id) => env(id)
    case Unary(op, a) => alg.unary(op, Eval(alg, env, a))
    case Binary(op, a, b) => alg.binary(op, Eval(alg, env, a), Eval(alg, env, b))
  }

  /** The same value in every commutative algebra over V and every environment. */
  ghost predicate SameMeaning<V(!new)>(a: Expr, b: Expr) {
    forall alg: Algebra<V>, env: nat -> V :: Commutative(alg) ==> Eval(alg, env, a) == Eval(alg, env, b)
  }

  lemma {:induction false} SameEvaluatesTheSame<V(!new)>(alg: Algebra<V>, env: nat -> V, a: Expr, b: Expr)
    requires Commutative(alg) && Same(a, b)
    ensures Eval(alg, env, a) == Eval(alg, env, b)
  {
    match a {
      case Const(_) =>
      case Sym(_) =>
      case Unary(_, x) => SameEvaluatesTheSame(alg, env, x, b.arg);
      case Binary(op, x, y) =>
        if Same(x, b.left) && Same(y, b.right) {
          SameEvaluatesTheSame(alg, env, x, b.left);
          SameEvaluatesTheSame(alg, env, y, b.right);
        } else {
          SameEvaluatesTheSame(alg, env, x, b.right);
          SameEvaluatesTheSame(alg, env, y, b.left);
        }
    }
  }

  /** The values of the free commutative algebra: operands of + and * form a multiset. */
  datatype Shape =
    | ConstShape(value: real)
    | SymShape(id: nat)
    | UnaryShape(op: int, arg: Shape)
    | BinaryShape(op: int, left: Shape, right: Shape)
    | CommutativeShape(op: int, args: multiset<Shape>)

  function Combine(op: int, a: Shape, b: Shape): Shape {
    if Commutes(op) then CommutativeShape(op, multiset{a, b}) else BinaryShape(op, a, b)
  }

  function FreeAlgebra(): Algebra<Shape> {
    Algebra(v => ConstShape(v), (op, a) => UnaryShape(op, a), (op, a, b) => Combine(op, a, b))
  }

  function FreeEnv(): nat -> Shape {
    (id: nat) => SymShape(id)
  }

  lemma FreeAlgebraCommutes()
    ensures Commutative(FreeAlgebra())
  {
    forall op: int, a: Shape, b: Shape | Commutes(op)
      ensures FreeAlgebra().binary(op, a, b) == FreeAlgebra().binary(op, b, a)
    {
      assert multiset{a, b} == multiset{b, a};
    }
  }

  lemma PairsAsMultisets<T>(a: T, b: T, c: T, d: T)
    requires multiset{a, b} == multiset{c, d}
    ensures (a == c && b == d) || (a == d && b == c)
  {
    assert a in multiset{c, d};
    if a == c {
      assert multiset{a, b} - multiset{a} == multiset{b} && multiset{c, d} - multiset{c} == multiset{d};
      assert b in multiset{d};
    } else {
      assert multiset{a, b} - multiset{a} == multiset{b} && multiset{c, d} - multiset{d} == multiset{c};
      assert b in multiset{c};
    }
  }

  lemma {:induction false} FreeMeaningIsSame(a: Expr, b: Expr)
    requires Eval(FreeAlgebra(), FreeEnv(), a) == Eval(FreeAlgebra(), FreeEnv(), b)
    ensures Same(a, b)
  {
    match a {
      case Const(_) =>
      case Sym(_) =>
      case Unary(_, x) => FreeMeaningIsSame(x, b.arg);
      case Binary(op, x, y) =>
        var ex, ey := Eval(FreeAlgebra(), FreeEnv(), x), Eval(FreeAlgebra(), FreeEnv(), y);
        var el, er := Eval(FreeAlgebra(), FreeEnv(), b.left), Eval(FreeAlgebra(), FreeEnv(), b.right);
        if Commutes(op) {
          PairsAsMultisets(ex, ey, el, er);
        }
        if ex == el && ey == er {
          FreeMeaningIsSame(x, b.left);
          FreeMeaningIsSame(y, b.right);
        } else {
          FreeMeaningIsSame(x, b.right);
          FreeMeaningIsSame(y, b.left);
        }
    }
  }

  lemma SameMeansTheSame<V(!new)>(a: Expr, b: Expr)
    requires Same(a, b)
    ensures SameMeaning<V>(a, b)
  {
    forall alg: Algebra<V>, env: nat -> V | Commutative(alg)
      ensures Eval(alg, env, a) == Eval(alg, env, b)
    {
      SameEvaluatesTheSame(alg, env, a, b);
    }
  }

  /** Two expressions mean the same in every commutative algebra, over any type of values,
      exactly when they are equal up to swapping operands; one algebra is enough to tell. */
  lemma SameIsSameMeaning<V(!new)>(a: Expr, b: Expr)
    ensures Same(a, b) <==> SameMeaning<Shape>(a, b)
    ensures Same(a, b) ==> SameMeaning<V>(a, b)
  {
    if Same(a, b) {
      SameMeansTheSame<Shape>(a, b);
      SameMeansTheSame<V>(a, b);
    }
    if SameMeaning<Shape>(a, b) {
      FreeAlgebraCommutes();
      FreeMeaningIsSame(a, b);
    }
  }
}
