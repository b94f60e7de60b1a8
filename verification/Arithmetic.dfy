/** What the opcodes of pythonCodegen/experimental/cse.py compute on real numbers. */
module Arithmetic {
  import opened Expressions

  /** `functions` gives sqrt, sin, cos and tan; `byZero` whatever a division by zero gives. */
  function Reals(functions: (int, real) -> real, byZero: real -> real): Algebra<real> {
    Algebra(v => v, (op, a) => OnOne(functions, op, a), (op, a, b) => OnTwo(byZero, op, a, b))
  }

  function OnOne(functions: (int, real) -> real, op: int, a: real): real {
    if op == 5 then -a else functions(op, a)
  }

  function OnTwo(byZero: real -> real, op: int, a: real, b: real): real {
    if op == 1 then a + b
    else if op == 2 then a - b
    else if op == 3 then a * b
    else if op == 4 then (if b == 0.0 then byZero(a) else a / b)
    else 0.0
  }

  lemma RealsCommute(functions: (int, real) -> real, byZero: real -> real)
    ensures Commutative(Reals(functions, byZero))
  {
    var alg := Reals(functions, byZero);
    forall op: int, a: real, b: real | Commutes(op)
      ensures alg.binary(op, a, b) == alg.binary(op, b, a)
    {
      assert OnTwo(byZero, op, a, b) == OnTwo(byZero, op, b, a);
    }
  }

  ghost predicate CommutesOnReals(byZero: real -> real, op: int) {
    forall a: real, b: real :: OnTwo(byZero, op, a, b) == OnTwo(byZero, op, b, a)
  }

  /** isCommutative says exactly which of the four binary operators commute on the reals. */
  lemma CommutesExactlyOnReals(byZero: real -> real, op: int)
    requires op in BINARY_OPCODES
    ensures Commutes(op) <==> CommutesOnReals(byZero, op)
  {
    if op == 2 {
      assert OnTwo(byZero, op, 1.0, 2.0) == -1.0 && OnTwo(byZero, op, 2.0, 1.0) == 1.0;
    } else if op == 4 {
      assert OnTwo(byZero, op, 1.0, 2.0) == 0.5 && OnTwo(byZero, op, 2.0, 1.0) == 2.0;
    }
  }

  /** The same real number in every environment. */
  ghost predicate SameNumber(a: Expr, b: Expr) {
    forall functions: (int, real) -> real, byZero: real -> real, env: nat -> real ::
      Eval(Reals(functions, byZero), env, a) == Eval(Reals(functions, byZero), env, b)
  }

  lemma SameIsSameNumber(a: Expr, b: Expr)
    requires Same(a, b)
    ensures SameNumber(a, b)
  {
    forall functions: (int, real) -> real, byZero: real -> real, env: nat -> real
      ensures Eval(Reals(functions, byZero), env, a) == Eval(Reals(functions, byZero), env, b)
    {
      RealsCommute(functions, byZero);
      SameEvaluatesTheSame(Reals(functions, byZero), env, a, b);
    }
  }
}
