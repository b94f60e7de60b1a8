/** pythonCodegen/experimental/cse.py: common-subexpression elimination through dictionaries
    of hashes. The hash function is a parameter; nothing is assumed of it except, where a
    lemma says so, that it does not collide on the expressions that have been met. */
module Cse {
  import opened Arithmetic
  import opened Expressions
  import opened Wrappers

  /** The tuples that are hashed; children are named by their hashes. */
  datatype Sig =
    | ConstSig(value: real)
    | SymSig(id: nat)
    | UnarySig(op: int, child: int)
    | BinarySig(op: int, child0: int, child1: int)

  type Hash = Sig -> int

  /** hash_node puts the smaller hash first under a commutative operator. */
  function Sorted(op: int, h0: int, h1: int): Sig {
    if Commutes(op) && h1 < h0 then BinarySig(op, h1, h0) else BinarySig(op, h0, h1)
  }

  function SigOf(hash: Hash, e: Expr): Sig
    decreases e, 0
  {
    match e
    case Const(v) => ConstSig(v)
    case Sym(id) => SymSig(id)
    case Unary(op, a) => UnarySig(op, HashOf(hash, a))
    case Binary(op, a, b) => Sorted(op, HashOf(hash, a), HashOf(hash, b))
  }

  function HashOf(hash: Hash, e: Expr): int
    decreases e, 1
  {
    hash(SigOf(hash, e))
  }

  /** What cse rebuilds: e with the operands of commutative operators in hash order. */
  function Canon(hash: Hash, e: Expr): Expr {
    match e
    case Const(_) => e
    case Sym(_) => e
    case Unary(op, a) => Unary(op, Canon(hash, a))
    case Binary(op, a, b) =>
      if Commutes(op) && HashOf(hash, b) < HashOf(hash, a)
      then Binary(op, Canon(hash, b), Canon(hash, a))
      else Binary(op, Canon(hash, a), Canon(hash, b))
  }

  /** Different signatures among these expressions have different hashes. */
  ghost predicate CollisionFree(hash: Hash, s: set<Expr>) {
    forall x, y :: x in s && y in s && HashOf(hash, x) == HashOf(hash, y) ==> SigOf(hash, x) == SigOf(hash, y)
  }

  lemma FewerCollideLess(hash: Hash, s: set<Expr>, t: set<Expr>)
    requires s <= t && CollisionFree(hash, t)
    ensures CollisionFree(hash, s)
  {
  }

  // ---- Hashes and canonical forms ----

  lemma {:induction false} SameImpliesSameHash(hash: Hash, a: Expr, b: Expr)
    requires Same(a, b)
    ensures SigOf(hash, a) == SigOf(hash, b)
  {
    match a {
      case Const(_) =>
      case Sym(_) =>
      case Unary(_, x) => SameImpliesSameHash(hash, x, b.arg);
      case Binary(_, x, y) =>
        if Same(x, b.left) && Same(y, b.right) {
          SameImpliesSameHash(hash, x, b.left);
          SameImpliesSameHash(hash, y, b.right);
        } else {
          SameImpliesSameHash(hash, x, b.right);
          SameImpliesSameHash(hash, y, b.left);
        }
    }
  }

  lemma {:induction false} SameHashImpliesSame(hash: Hash, a: Expr, b: Expr, s: set<Expr>)
    requires CollisionFree(hash, s) && Subs(a) <= s && Subs(b) <= s
    requires HashOf(hash, a) == HashOf(hash, b)
    ensures Same(a, b)
  {
    assert a in s && b in s;
    assert SigOf(hash, a) == SigOf(hash, b);
    match a {
      case Const(_) =>
      case Sym(_) =>
      case Unary(_, x) => SameHashImpliesSame(hash, x, b.arg, s);
      case Binary(_, x, y) =>
        if HashOf(hash, x) == HashOf(hash, b.left) && HashOf(hash, y) == HashOf(hash, b.right) {
          SameHashImpliesSame(hash, x, b.left, s);
          SameHashImpliesSame(hash, y, b.right, s);
        } else {
          SameHashImpliesSame(hash, x, b.right, s);
          SameHashImpliesSame(hash, y, b.left, s);
        }
    }
  }

  lemma {:induction false} CanonIsSame(hash: Hash, e: Expr)
    ensures Same(Canon(hash, e), e)
  {
    match e {
      case Const(_) =>
      case Sym(_) =>
      case Unary(_, a) => CanonIsSame(hash, a);
      case Binary(_, a, b) => CanonIsSame(hash, a); CanonIsSame(hash, b);
    }
  }

  /** What cse rebuilds means what it was given, in every commutative algebra over any values. */
  lemma {:induction false} CanonKeepsMeaning<V(!new)>(hash: Hash, alg: Algebra<V>, env: nat -> V, e: Expr)
    requires Commutative(alg)
    ensures Eval(alg, env, Canon(hash, e)) == Eval(alg, env, e)
  {
    CanonIsSame(hash, e);
    SameEvaluatesTheSame(alg, env, Canon(hash, e), e);
  }

  /** Swapping the operands changes the hash for no hash function and no operands. */
  ghost predicate HashIgnoresOrder(op: int) {
    forall hash: Hash, a: Expr, b: Expr :: HashOf(hash, Binary(op, a, b)) == HashOf(hash, Binary(op, b, a))
  }

  /** A recognised binary operator commutes on the reals exactly when its hash ignores the order
      of the operands. */
  lemma HashIgnoresOrderExactly(byZero: real -> real, op: int)
    requires op in BINARY_OPCODES
    ensures CommutesOnReals(byZero, op) <==> HashIgnoresOrder(op)
  {
    CommutesExactlyOnReals(byZero, op);
    if Commutes(op) {
      forall hash: Hash, a: Expr, b: Expr
        ensures HashOf(hash, Binary(op, a, b)) == HashOf(hash, Binary(op, b, a))
      {
        assert SigOf(hash, Binary(op, a, b)) == SigOf(hash, Binary(op, b, a));
      }
    } else {
      var hash: Hash := (sig: Sig) => if sig.SymSig? then sig.id else if sig.BinarySig? then sig.child0 else 0;
      assert HashOf(hash, Sym(0)) == 0 && HashOf(hash, Sym(1)) == 1;
      assert HashOf(hash, Binary(op, Sym(0), Sym(1))) == 0 && HashOf(hash, Binary(op, Sym(1), Sym(0))) == 1;
    }
  }

  /** What is rebuilt depends on the expression only through its hash. */
  lemma {:induction false} CanonDependsOnHash(hash: Hash, a: Expr, b: Expr, s: set<Expr>)
    requires CollisionFree(hash, s) && Subs(a) <= s && Subs(b) <= s
    requires HashOf(hash, a) == HashOf(hash, b)
    ensures Canon(hash, a) == Canon(hash, b)
  {
    assert a in s && b in s;
    assert SigOf(hash, a) == SigOf(hash, b);
    match a {
      case Const(_) =>
      case Sym(_) =>
      case Unary(_, x) => CanonDependsOnHash(hash, x, b.arg, s);
      case Binary(_, x, y) =>
        if HashOf(hash, x) == HashOf(hash, b.left) {
          CanonDependsOnHash(hash, x, b.left, s);
          CanonDependsOnHash(hash, y, b.right, s);
        } else {
          CanonDependsOnHash(hash, x, b.right, s);
          CanonDependsOnHash(hash, y, b.left, s);
        }
    }
  }

  /** Maximal sharing: two expressions get the same hash, and the same result, exactly when
      they are equal up to swapping operands. */
  lemma SharesMaximally(hash: Hash, a: Expr, b: Expr)
    requires CollisionFree(hash, Subs(a) + Subs(b))
    ensures HashOf(hash, a) == HashOf(hash, b) <==> Same(a, b)
    ensures Canon(hash, a) == Canon(hash, b) <==> Same(a, b)
  {
    var s := Subs(a) + Subs(b);
    if HashOf(hash, a) == HashOf(hash, b) {
      SameHashImpliesSame(hash, a, b, s);
      CanonDependsOnHash(hash, a, b, s);
    }
    if Same(a, b) {
      SameImpliesSameHash(hash, a, b);
    }
    CanonIsSame(hash, a);
    CanonIsSame(hash, b);
    SameImpliesSameHash(hash, Canon(hash, a), a);
    SameImpliesSameHash(hash, Canon(hash, b), b);
  }

  /** A second elimination changes nothing, for any hash function. */
  lemma {:induction false} CanonIsIdempotent(hash: Hash, e: Expr)
    ensures Canon(hash, Canon(hash, e)) == Canon(hash, e)
    ensures HashOf(hash, Canon(hash, e)) == HashOf(hash, e)
  {
    CanonIsSame(hash, e);
    SameImpliesSameHash(hash, Canon(hash, e), e);
    match e {
      case Const(_) =>
      case Sym(_) =>
      case Unary(_, a) => CanonIsIdempotent(hash, a);
      case Binary(_, a, b) => CanonIsIdempotent(hash, a); CanonIsIdempotent(hash, b);
    }
  }

  lemma {:induction false} CanonHasNoNewSigs(hash: Hash, e: Expr, x: Expr) returns (y: Expr)
    requires x in Subs(Canon(hash, e))
    ensures y in Subs(e) && SigOf(hash, y) == SigOf(hash, x)
  {
    if x == Canon(hash, e) {
      CanonIsSame(hash, e);
      SameImpliesSameHash(hash, x, e);
      y := e;
    } else {
      match e {
        case Unary(_, a) => y := CanonHasNoNewSigs(hash, a, x);
        case Binary(_, a, b) =>
          if x in Subs(Canon(hash, a)) {
            y := CanonHasNoNewSigs(hash, a, x);
          } else {
            y := CanonHasNoNewSigs(hash, b, x);
          }
      }
    }
  }

  /** The result of an elimination can itself be eliminated without new collisions. */
  lemma CanonCollidesNoMore(hash: Hash, s: set<Expr>, e: Expr)
    requires CollisionFree(hash, s) && Subs(e) <= s
    ensures CollisionFree(hash, s + Subs(Canon(hash, e)))
  {
    var t := s + Subs(Canon(hash, e));
    forall x, y | x in t && y in t && HashOf(hash, x) == HashOf(hash, y)
      ensures SigOf(hash, x) == SigOf(hash, y)
    {
      var u, v := x, y;
      if x !in s {
        u := CanonHasNoNewSigs(hash, e, x);
      }
      if y !in s {
        v := CanonHasNoNewSigs(hash, e, y);
      }
      assert u in s && v in s;
    }
  }

  // ---- The dictionaries ----

  /** casadi_cse_recursive_hashmap and casadi_cse_expression_hashes */
  datatype Table = Table(sigs: map<int, Sig>, hashes: map<Expr, int>)

  function Enter(hash: Hash, t: Table, e: Expr): Table {
    Table(t.sigs[HashOf(hash, e) := SigOf(hash, e)], t.hashes[e := HashOf(hash, e)])
  }

  /** The dictionaries after hash_node(e): children first, known expressions skipped. */
  function Hashed(hash: Hash, t: Table, e: Expr): Table
    decreases e
  {
    if e in t.hashes then t else Enter(hash, HashedBelow(hash, t, e), e)
  }

  function HashedBelow(hash: Hash, t: Table, e: Expr): Table
    decreases e, 0
  {
    match e
    case Const(_) => t
    case Sym(_) => t
    case Unary(_, a) => Hashed(hash, t, a)
    case Binary(_, a, b) => Hashed(hash, Hashed(hash, t, a), b)
  }

  /** True of every table hash_node can produce, collisions or not. */
  ghost predicate WellFormed(hash: Hash, t: Table) {
    && (forall x :: x in t.hashes ==> t.hashes[x] == HashOf(hash, x))
    && (forall x, y :: x in t.hashes && y in Subs(x) ==> y in t.hashes)
    && (forall x :: x in t.hashes ==> HashOf(hash, x) in t.sigs)
    && (forall h :: h in t.sigs ==> FromSome(hash, t, h))
  }

  ghost predicate FromSome(hash: Hash, t: Table, h: int)
    requires h in t.sigs
  {
    exists x :: x in t.hashes && HashOf(hash, x) == h && SigOf(hash, x) == t.sigs[h]
  }

  lemma EnterKeepsWellFormed(hash: Hash, t: Table, e: Expr)
    requires WellFormed(hash, t) && Subs(e) - {e} <= t.hashes.Keys
    ensures WellFormed(hash, Enter(hash, t, e))
  {
    var u := Enter(hash, t, e);
    forall h | h in u.sigs
      ensures FromSome(hash, u, h)
    {
      if h == HashOf(hash, e) {
        assert e in u.hashes;
      } else {
        assert FromSome(hash, t, h);
        var x :| x in t.hashes && HashOf(hash, x) == h && SigOf(hash, x) == t.sigs[h];
        assert x in u.hashes;
      }
    }
    forall x, y | x in u.hashes && y in Subs(x)
      ensures y in u.hashes
    {
    }
  }

  lemma EnterLearns(hash: Hash, t: Table, below: Table, e: Expr)
    requires WellFormed(hash, below) && below.hashes.Keys == t.hashes.Keys + ProperSubs(e)
    ensures WellFormed(hash, Enter(hash, below, e))
    ensures Enter(hash, below, e).hashes.Keys == t.hashes.Keys + Subs(e)
  {
    EnterKeepsWellFormed(hash, below, e);
  }

  lemma {:induction false} HashedBelowLearns(hash: Hash, t: Table, e: Expr)
    requires WellFormed(hash, t)
    ensures WellFormed(hash, HashedBelow(hash, t, e))
    ensures HashedBelow(hash, t, e).hashes.Keys == t.hashes.Keys + ProperSubs(e)
    decreases e, 0
  {
    match e {
      case Const(_) =>
      case Sym(_) =>
      case Unary(_, a) => HashedLearnsSubs(hash, t, a);
      case Binary(_, a, b) =>
        HashedLearnsSubs(hash, t, a);
        HashedLearnsSubs(hash, Hashed(hash, t, a), b);
    }
  }

  /** hash_node learns exactly the subexpressions of its argument. */
  lemma {:induction false} HashedLearnsSubs(hash: Hash, t: Table, e: Expr)
    requires WellFormed(hash, t)
    ensures WellFormed(hash, Hashed(hash, t, e))
    ensures Hashed(hash, t, e).hashes.Keys == t.hashes.Keys + Subs(e)
    decreases e, 1
  {
    if e !in t.hashes {
      HashedBelowLearns(hash, t, e);
      EnterLearns(hash, t, HashedBelow(hash, t, e), e);
    }
  }

  /** The expression can be read back from its hash. */
  ghost predicate IsFaithful(hash: Hash, t: Table, x: Expr) {
    HashOf(hash, x) in t.sigs && t.sigs[HashOf(hash, x)] == SigOf(hash, x)
  }

  /** Without collisions every known expression can be read back from its hash. */
  lemma SigsAreFaithful(hash: Hash, t: Table, x: Expr)
    requires WellFormed(hash, t) && CollisionFree(hash, t.hashes.Keys) && x in t.hashes
    ensures IsFaithful(hash, t, x)
  {
    assert FromSome(hash, t, HashOf(hash, x));
  }

  lemma ChildrenAreKnown(hash: Hash, t: Table, e: Expr)
    requires WellFormed(hash, t) && e in t.hashes
    ensures e.Unary? ==> e.arg in t.hashes
    ensures e.Binary? ==> e.left in t.hashes && e.right in t.hashes
  {
    assert e.Unary? ==> e.arg in Subs(e);
    assert e.Binary? ==> e.left in Subs(e) && e.right in Subs(e);
  }

  // ---- Exactly when elimination is right ----

  /** hash_to_casadi_node, as a function of the dictionary it recurses through. A collision can
      make that recursion endless, so it is cut off after `fuel` levels. */
  function Rebuild(sigs: map<int, Sig>, h: int, fuel: nat): Option<Expr>
    decreases fuel
  {
    if fuel == 0 || h !in sigs then None
    else match sigs[h]
      case ConstSig(v) => Some(Const(v))
      case SymSig(id) => Some(Sym(id))
      case UnarySig(op, c) =>
        var r := Rebuild(sigs, c, fuel - 1);
        if r.None? then None else Some(Unary(op, r.value))
      case BinarySig(op, c0, c1) =>
        var r0, r1 := Rebuild(sigs, c0, fuel - 1), Rebuild(sigs, c1, fuel - 1);
        if r0.None? || r1.None? then None else Some(Binary(op, r0.value, r1.value))
  }

  function Size(e: Expr): (n: nat)
    ensures n > 0
  {
    match e
    case Const(_) => 1
    case Sym(_) => 1
    case Unary(_, a) => 1 + Size(a)
    case Binary(_, a, b) => 1 + Size(a) + Size(b)
  }

  /** The operands of a binary expression in the order of its signature. */
  function Operands(hash: Hash, e: Expr): (r: (Expr, Expr))
    requires e.Binary?
    ensures (r.0 == e.left && r.1 == e.right) || (r.0 == e.right && r.1 == e.left)
  {
    if Commutes(e.op) && HashOf(hash, e.right) < HashOf(hash, e.left) then (e.right, e.left) else (e.left, e.right)
  }

  lemma OperandsAreInOrder(hash: Hash, e: Expr)
    requires e.Binary?
    ensures var (c, d) := Operands(hash, e);
            && SigOf(hash, e) == BinarySig(e.op, HashOf(hash, c), HashOf(hash, d))
            && Canon(hash, e) == Binary(e.op, Canon(hash, c), Canon(hash, d))
  {
  }

  lemma RebuildBinary(sigs: map<int, Sig>, h: int, fuel: nat, c: Expr, d: Expr)
    requires fuel > 0 && h in sigs && sigs[h].BinarySig?
    requires Rebuild(sigs, sigs[h].child0, fuel - 1) == Some(c) && Rebuild(sigs, sigs[h].child1, fuel - 1) == Some(d)
    ensures Rebuild(sigs, h, fuel) == Some(Binary(sigs[h].op, c, d))
  {
  }

  lemma {:induction false} SizeOfOperands(hash: Hash, e: Expr)
    requires e.Binary?
    ensures Size(Operands(hash, e).0) < Size(e) && Size(Operands(hash, e).1) < Size(e)
  {
  }

  ghost predicate AllFaithful(hash: Hash, t: Table, e: Expr) {
    forall x :: x in Subs(e) ==> IsFaithful(hash, t, x)
  }

  lemma PartsAreFaithful(hash: Hash, t: Table, e: Expr)
    requires AllFaithful(hash, t, e)
    ensures IsFaithful(hash, t, e)
    ensures e.Unary? ==> AllFaithful(hash, t, e.arg)
    ensures e.Binary? ==> AllFaithful(hash, t, e.left) && AllFaithful(hash, t, e.right)
  {
    assert e.Unary? ==> Subs(e.arg) <= Subs(e);
    assert e.Binary? ==> Subs(e.left) <= Subs(e) && Subs(e.right) <= Subs(e);
  }

  /** An expression all of which can be read back is rebuilt in canonical form. */
  lemma {:induction false} FaithfulIsRebuilt(hash: Hash, t: Table, e: Expr, fuel: nat)
    requires AllFaithful(hash, t, e) && fuel >= Size(e)
    ensures Rebuild(t.sigs, HashOf(hash, e), fuel) == Some(Canon(hash, e))
    decreases e
  {
    PartsAreFaithful(hash, t, e);
    match e {
      case Const(_) =>
      case Sym(_) =>
      case Unary(_, a) =>
        FaithfulIsRebuilt(hash, t, a, fuel - 1);
      case Binary(_, a, b) =>
        var (c, d) := Operands(hash, e);
        OperandsAreInOrder(hash, e);
        SizeOfOperands(hash, e);
        FaithfulIsRebuilt(hash, t, c, fuel - 1);
        FaithfulIsRebuilt(hash, t, d, fuel - 1);
        RebuildBinary(t.sigs, HashOf(hash, e), fuel, Canon(hash, c), Canon(hash, d));
    }
  }

  lemma RebuildIsCanon(hash: Hash, t: Table, e: Expr, fuel: nat)
    requires WellFormed(hash, t) && CollisionFree(hash, t.hashes.Keys)
    requires e in t.hashes && fuel >= Size(e)
    ensures Rebuild(t.sigs, HashOf(hash, e), fuel) == Some(Canon(hash, e))
  {
    forall x | x in Subs(e)
      ensures IsFaithful(hash, t, x)
    {
      SigsAreFaithful(hash, t, x);
    }
    FaithfulIsRebuilt(hash, t, e, fuel);
  }

  /** If what is rebuilt from h is v up to swaps, then h is the hash of v and the dictionary
      holds the signature of v, and of everything in v. */
  lemma {:induction false} RebuiltHashIsRight(hash: Hash, t: Table, h: int, fuel: nat, v: Expr)
    requires WellFormed(hash, t)
    requires Rebuild(t.sigs, h, fuel).Some? && Same(Rebuild(t.sigs, h, fuel).value, v)
    ensures h == HashOf(hash, v)
    ensures AllFaithful(hash, t, v)
    decreases fuel
  {
    assert FromSome(hash, t, h);
    var r := Rebuild(t.sigs, h, fuel).value;
    match t.sigs[h] {
      case ConstSig(_) =>
      case SymSig(_) =>
      case UnarySig(op, c) =>
        RebuiltHashIsRight(hash, t, c, fuel - 1, v.arg);
      case BinarySig(op, c0, c1) =>
        assert Commutes(op) ==> c0 <= c1;
        if Same(r.left, v.left) && Same(r.right, v.right) {
          RebuiltHashIsRight(hash, t, c0, fuel - 1, v.left);
          RebuiltHashIsRight(hash, t, c1, fuel - 1, v.right);
        } else {
          RebuiltHashIsRight(hash, t, c0, fuel - 1, v.right);
          RebuiltHashIsRight(hash, t, c1, fuel - 1, v.left);
        }
    }
  }

  const EMPTY := Table(map[], map[])

  /** From empty caches, cse(e) terminates with an expression that means what e means in every
      commutative algebra exactly when the hash function does not collide on the
      subexpressions of e. */
  lemma RightExactlyWithoutCollisions(hash: Hash, e: Expr)
    ensures (exists fuel: nat :: Eliminates(hash, e, fuel)) <==> CollisionFree(hash, Subs(e))
  {
    HashedLearnsSubs(hash, EMPTY, e);
    var t := Hashed(hash, EMPTY, e);
    assert t.hashes.Keys == Subs(e);
    if CollisionFree(hash, Subs(e)) {
      RebuildIsCanon(hash, t, e, Size(e));
      CanonIsSame(hash, e);
      SameIsSameMeaning<Shape>(Canon(hash, e), e);
      assert Eliminates(hash, e, Size(e));
    }
    if fuel: nat :| Eliminates(hash, e, fuel) {
      SameIsSameMeaning<Shape>(Rebuild(t.sigs, HashOf(hash, e), fuel).value, e);
      RebuiltHashIsRight(hash, t, HashOf(hash, e), fuel, e);
      forall x, y | x in Subs(e) && y in Subs(e) && HashOf(hash, x) == HashOf(hash, y)
        ensures SigOf(hash, x) == SigOf(hash, y)
      {
        assert IsFaithful(hash, t, x) && IsFaithful(hash, t, y);
      }
    }
  }

  ghost predicate Eliminates(hash: Hash, e: Expr, fuel: nat) {
    var r := Rebuild(Hashed(hash, EMPTY, e).sigs, HashOf(hash, e), fuel);
    r.Some? && SameMeaning<Shape>(r.value, e)
  }

  /** Python hashes -1 and -2 alike, so the difference of these two constants, which is 1,
      is rebuilt as the difference of -2 and itself. */
  lemma MinusOneBecomesMinusTwo(hash: Hash)
    requires hash(ConstSig(-1.0)) == hash(ConstSig(-2.0))
    requires var c := hash(ConstSig(-2.0)); hash(BinarySig(2, c, c)) != c
    ensures var e := Binary(2, Const(-1.0), Const(-2.0));
            Rebuild(Hashed(hash, EMPTY, e).sigs, HashOf(hash, e), 2) == Some(Binary(2, Const(-2.0), Const(-2.0)))
  {
    var e := Binary(2, Const(-1.0), Const(-2.0));
    var c := hash(ConstSig(-2.0));
    var t := Hashed(hash, Hashed(hash, EMPTY, Const(-1.0)), Const(-2.0));
    assert t.sigs[c] == ConstSig(-2.0);
    var sigs := Hashed(hash, EMPTY, e).sigs;
    assert sigs[HashOf(hash, e)] == BinarySig(2, c, c) && sigs[c] == ConstSig(-2.0);
    assert Rebuild(sigs, c, 1) == Some(Const(-2.0));
  }

  // ---- The three global dictionaries ----

  /** The dictionaries are a table without collisions, and every cached result is the
      canonical form of each known expression with that hash. */
  ghost predicate Coherent(hash: Hash, t: Table, results: map<int, Expr>) {
    && WellFormed(hash, t) && CollisionFree(hash, t.hashes.Keys)
    && results.Keys <= t.sigs.Keys
    && forall x :: x in t.hashes && HashOf(hash, x) in results ==> results[HashOf(hash, x)] == Canon(hash, x)
  }

  lemma AddingAResult(hash: Hash, t: Table, results: map<int, Expr>, e: Expr)
    requires Coherent(hash, t, results) && e in t.hashes
    ensures Coherent(hash, t, results[HashOf(hash, e) := Canon(hash, e)])
  {
    forall x | x in t.hashes && HashOf(hash, x) == HashOf(hash, e)
      ensures Canon(hash, x) == Canon(hash, e)
    {
      CanonDependsOnHash(hash, x, e, t.hashes.Keys);
    }
  }

  /** The cached results after hash_to_casadi_node on the hash of e, if nothing collides. */
  function Rebuilt(hash: Hash, results: map<int, Expr>, e: Expr): map<int, Expr>
    decreases e
  {
    if HashOf(hash, e) in results then results
    else RebuiltBelow(hash, results, e)[HashOf(hash, e) := Canon(hash, e)]
  }

  function RebuiltBelow(hash: Hash, results: map<int, Expr>, e: Expr): map<int, Expr>
    decreases e, 0
  {
    match e
    case Const(_) => results
    case Sym(_) => results
    case Unary(_, a) => Rebuilt(hash, results, a)
    case Binary(op, a, b) =>
      if Commutes(op) && HashOf(hash, b) < HashOf(hash, a)
      then Rebuilt(hash, Rebuilt(hash, results, b), a)
      else Rebuilt(hash, Rebuilt(hash, results, a), b)
  }

  /** Rebuilding keeps the caches coherent, caches e and changes no cached result. */
  lemma {:induction false} RebuiltStaysCoherent(hash: Hash, t: Table, results: map<int, Expr>, e: Expr)
    requires Coherent(hash, t, results) && e in t.hashes
    ensures Coherent(hash, t, Rebuilt(hash, results, e))
    ensures HashOf(hash, e) in Rebuilt(hash, results, e)
    ensures forall k :: k in results ==> k in Rebuilt(hash, results, e) && Rebuilt(hash, results, e)[k] == results[k]
    decreases e
  {
    if HashOf(hash, e) !in results {
      match e {
        case Const(_) =>
        case Sym(_) =>
        case Unary(_, a) =>
          ChildrenAreKnown(hash, t, e);
          RebuiltStaysCoherent(hash, t, results, a);
        case Binary(op, a, b) =>
          ChildrenAreKnown(hash, t, e);
          var (c, d) := if Commutes(op) && HashOf(hash, b) < HashOf(hash, a) then (b, a) else (a, b);
          RebuiltStaysCoherent(hash, t, results, c);
          RebuiltStaysCoherent(hash, t, Rebuilt(hash, results, c), d);
      }
      AddingAResult(hash, t, RebuiltBelow(hash, results, e), e);
    }
  }

  /** Hashing new expressions keeps the caches coherent. */
  lemma LearningStaysCoherent(hash: Hash, t: Table, e: Expr, results: map<int, Expr>)
    requires Coherent(hash, t, results)
    requires CollisionFree(hash, t.hashes.Keys + Subs(e))
    ensures Coherent(hash, Hashed(hash, t, e), results)
    ensures Hashed(hash, t, e).hashes.Keys == t.hashes.Keys + Subs(e)
  {
    HashedLearnsSubs(hash, t, e);
    HashedOnlyAdds(hash, t, e);
    var known := t.hashes.Keys + Subs(e);
    forall x | x in known && HashOf(hash, x) in results
      ensures results[HashOf(hash, x)] == Canon(hash, x)
    {
      assert FromSome(hash, t, HashOf(hash, x));
      var y :| y in t.hashes && HashOf(hash, y) == HashOf(hash, x);
      if x in Subs(e) {
        SubsAreTransitive(e, x);
      }
      CanonDependsOnHash(hash, x, y, known);
    }
  }

  lemma {:induction false} HashedOnlyAdds(hash: Hash, t: Table, e: Expr)
    ensures t.sigs.Keys <= Hashed(hash, t, e).sigs.Keys
    decreases e
  {
    if e !in t.hashes {
      match e {
        case Const(_) =>
        case Sym(_) =>
        case Unary(_, a) => HashedOnlyAdds(hash, t, a);
        case Binary(_, a, b) =>
          HashedOnlyAdds(hash, t, a);
          HashedOnlyAdds(hash, Hashed(hash, t, a), b);
      }
    }
  }

  lemma OperandsAreRebuilt(hash: Hash, results: map<int, Expr>, e: Expr)
    requires e.Binary?
    ensures var (c, d) := Operands(hash, e);
            RebuiltBelow(hash, results, e) == Rebuilt(hash, Rebuilt(hash, results, c), d)
  {
  }

  /** What is known when the rebuilding of e begins. */
  lemma BeforeRebuilding(hash: Hash, t: Table, results: map<int, Expr>, e: Expr)
    requires Coherent(hash, t, results) && e in t.hashes
    ensures var h := HashOf(hash, e);
            && h in t.sigs && t.sigs[h] == SigOf(hash, e)
            && Coherent(hash, t, Rebuilt(hash, results, e))
            && (h in results ==> results[h] == Canon(hash, e) && Rebuilt(hash, results, e) == results)
            && (h !in results ==> Rebuilt(hash, results, e) == RebuiltBelow(hash, results, e)[h := Canon(hash, e)])
  {
    SigsAreFaithful(hash, t, e);
    RebuiltStaysCoherent(hash, t, results, e);
  }

  function AllSubs(es: seq<Expr>): set<Expr> {
    set i, x | 0 <= i < |es| && x in Subs(es[i]) :: x
  }

  function HashesOf(hash: Hash, es: seq<Expr>): (hs: seq<int>)
    ensures |hs| == |es|
  {
    seq(|es|, i requires 0 <= i < |es| => HashOf(hash, es[i]))
  }

  lemma HashesOfStep(hash: Hash, es: seq<Expr>, i: nat)
    requires i < |es|
    ensures HashesOf(hash, es[..i + 1]) == HashesOf(hash, es[..i]) + [HashOf(hash, es[i])]
  {
  }

  function CanonsOf(hash: Hash, es: seq<Expr>): (rs: seq<Expr>)
    ensures |rs| == |es|
  {
    seq(|es|, i requires 0 <= i < |es| => Canon(hash, es[i]))
  }

  lemma CanonsOfStep(hash: Hash, es: seq<Expr>, i: nat)
    requires i < |es|
    ensures CanonsOf(hash, es[..i + 1]) == CanonsOf(hash, es[..i]) + [Canon(hash, es[i])]
  {
  }

  /** The dictionaries after hashing, and after rebuilding, several expressions in order. */
  function HashedAll(hash: Hash, t: Table, es: seq<Expr>): Table
    decreases |es|
  {
    if es == [] then t else Hashed(hash, HashedAll(hash, t, es[..|es| - 1]), es[|es| - 1])
  }

  lemma HashedAllStep(hash: Hash, t: Table, es: seq<Expr>, i: nat)
    requires i < |es|
    ensures HashedAll(hash, t, es[..i + 1]) == Hashed(hash, HashedAll(hash, t, es[..i]), es[i])
  {
    assert es[..i + 1][..i] == es[..i];
  }

  function RebuiltAll(hash: Hash, results: map<int, Expr>, es: seq<Expr>): map<int, Expr>
    decreases |es|
  {
    if es == [] then results else Rebuilt(hash, RebuiltAll(hash, results, es[..|es| - 1]), es[|es| - 1])
  }

  lemma RebuiltAllStep(hash: Hash, results: map<int, Expr>, es: seq<Expr>, i: nat)
    requires i < |es|
    ensures RebuiltAll(hash, results, es[..i + 1]) == Rebuilt(hash, RebuiltAll(hash, results, es[..i]), es[i])
  {
    assert es[..i + 1][..i] == es[..i];
  }

  lemma AllAreAmongTheirSubs(es: seq<Expr>)
    ensures forall j :: 0 <= j < |es| ==> es[j] in AllSubs(es)
  {
    assert forall j :: 0 <= j < |es| ==> es[j] in Subs(es[j]);
  }

  lemma AllSubsStep(es: seq<Expr>, i: nat)
    requires i < |es|
    ensures AllSubs(es[..i + 1]) == AllSubs(es[..i]) + Subs(es[i])
    ensures AllSubs(es[..i + 1]) <= AllSubs(es)
  {
    assert es[..i + 1] == es[..i] + [es[i]];
    forall x | x in AllSubs(es[..i + 1])
      ensures x in AllSubs(es[..i]) + Subs(es[i]) && x in AllSubs(es)
    {
      var j :| 0 <= j <= i && x in Subs(es[..i + 1][j]);
      assert es[..i + 1][j] == es[j];
      if j < i {
        assert x in Subs(es[..i][j]);
      }
    }
    forall x | x in AllSubs(es[..i]) + Subs(es[i])
      ensures x in AllSubs(es[..i + 1])
    {
      if x in Subs(es[i]) {
        assert x in Subs(es[..i + 1][i]);
      } else {
        var j :| 0 <= j < i && x in Subs(es[..i][j]);
        assert x in Subs(es[..i + 1][j]);
      }
    }
  }

  lemma NextIsCovered(known: set<Expr>, l: seq<Expr>, i: nat)
    requires i < |l|
    ensures known + AllSubs(l[..i]) + Subs(l[i]) == known + AllSubs(l[..i + 1]) <= known + AllSubs(l)
  {
    AllSubsStep(l, i);
  }

  /** An SXMatrix: its entries in column-major order. */
  datatype Matrix = Matrix(rows: nat, cols: nat, entries: seq<Expr>) {
    ghost predicate Valid() {
      |entries| == rows * cols
    }

    function At(i: nat, j: nat): Expr
      requires Valid() && i < rows && j < cols
    {
      Inside(rows, cols, i, j);
      entries[j * rows + i]
    }
  }

  /** r is the result of eliminating e, and means what e means. */
  ghost predicate MeansTheSame(hash: Hash, e: Expr, r: Expr) {
    r == Canon(hash, e) && SameMeaning<real>(r, e) && SameNumber(r, e)
  }

  lemma Inside(rows: nat, cols: nat, i: nat, j: nat)
    requires i < rows && j < cols
    ensures 0 <= j * rows + i < rows * cols
  {
    assert (cols - 1 - j) * rows >= 0;
    assert rows * cols - (j * rows + rows) == (cols - 1 - j) * rows;
  }

  class Caches {
    const hash: Hash
    var recursiveHashmap: map<int, Sig>
    var hashedExpressions: map<int, Expr>
    var expressionHashes: map<Expr, int>

    ghost function View(): Table
      reads this
    {
      Table(recursiveHashmap, expressionHashes)
    }

    ghost predicate Valid()
      reads this
    {
      Coherent(hash, View(), hashedExpressions)
    }

    constructor (hash: Hash)
      ensures this.hash == hash && Valid()
      ensures View() == EMPTY && hashedExpressions == map[]
    {
      this.hash := hash;
      recursiveHashmap, hashedExpressions, expressionHashes := map[], map[], map[];
    }

    /** hash_node, which needs no assumption about the hash function */
    method HashNode(node: Expr) returns (h: int)
      requires Recognised(node) && WellFormed(hash, View())
      modifies this`recursiveHashmap, this`expressionHashes
      ensures h == HashOf(hash, node)
      ensures View() == Hashed(hash, old(View()), node) && WellFormed(hash, View())
      decreases node
    {
      HashedLearnsSubs(hash, View(), node);
      if node in expressionHashes {
        return expressionHashes[node];
      }
      var sig;
      match node {
        case Binary(op, a, b) =>
          var child0Hash := HashNode(a);
          var child1Hash := HashNode(b);
          if Commutes(op) && child1Hash < child0Hash {
            child0Hash, child1Hash := child1Hash, child0Hash;
          }
          sig := BinarySig(op, child0Hash, child1Hash);
        case Unary(op, a) =>
          var childHash := HashNode(a);
          sig := UnarySig(op, childHash);
        case Const(v) => sig := ConstSig(v);
        case Sym(id) => sig := SymSig(id);
      }
      h := hash(sig);
      recursiveHashmap := recursiveHashmap[h := sig];
      expressionHashes := expressionHashes[node := h];
    }

    /** hash_to_casadi_node. The ghost argument is an expression that h stands for; it is
        what the recursion through the dictionary descends along. */
    method HashToCasadiNode(h: int, ghost e: Expr) returns (node: Expr)
      requires Valid() && e in expressionHashes && h == HashOf(hash, e) && Recognised(e)
      modifies this`hashedExpressions
      ensures Valid() && node == Canon(hash, e)
      ensures hashedExpressions == Rebuilt(hash, old(hashedExpressions), e)
      decreases e, 1
    {
      BeforeRebuilding(hash, View(), hashedExpressions, e);
      if h in hashedExpressions {
        return hashedExpressions[h];
      }
      node := NewNode(recursiveHashmap[h], e);
      hashedExpressions := hashedExpressions[h := node];
    }

    /** The three forms of a node that has not been rebuilt before. */
    method NewNode(sig: Sig, ghost e: Expr) returns (node: Expr)
      requires Valid() && e in expressionHashes && sig == SigOf(hash, e) && Recognised(e)
      modifies this`hashedExpressions
      ensures Valid() && node == Canon(hash, e)
      ensures hashedExpressions == RebuiltBelow(hash, old(hashedExpressions), e)
      decreases e, 0
    {
      ChildrenAreKnown(hash, View(), e);
      match sig {
        case ConstSig(v) => node := Const(v);
        case SymSig(id) => node := Sym(id);
        case UnarySig(op, c) =>
          var child := HashToCasadiNode(c, e.arg);
          node := ApplyUnaryOpcode(op, child);
        case BinarySig(op, c0, c1) =>
          OperandsAreInOrder(hash, e);
          OperandsAreRebuilt(hash, hashedExpressions, e);
          var child0 := HashToCasadiNode(c0, Operands(hash, e).0);
          var child1 := HashToCasadiNode(c1, Operands(hash, e).1);
          node := ApplyBinaryOpcode(op, child0, child1);
      }
    }

    /** hash_node again, with what it does to coherent caches. */
    method Learn(node: Expr) returns (h: int)
      requires Valid() && Recognised(node)
      requires CollisionFree(hash, expressionHashes.Keys + Subs(node))
      modifies this`recursiveHashmap, this`expressionHashes
      ensures Valid() && h == HashOf(hash, node) && View() == Hashed(hash, old(View()), node)
      ensures expressionHashes.Keys == old(expressionHashes.Keys) + Subs(node)
    {
      LearningStaysCoherent(hash, View(), node, hashedExpressions);
      h := HashNode(node);
    }

    /** cse, on a single expression */
    method Cse(node: Expr) returns (r: Expr)
      requires Valid() && Recognised(node)
      requires CollisionFree(hash, expressionHashes.Keys + Subs(node))
      modifies this
      ensures Valid()
      ensures MeansTheSame(hash, node, r)
      ensures expressionHashes.Keys == old(expressionHashes.Keys) + Subs(node)
      ensures View() == Hashed(hash, old(View()), node)
      ensures hashedExpressions == Rebuilt(hash, old(hashedExpressions), node)
    {
      var h := Learn(node);
      r := HashToCasadiNode(h, node);
      CanonIsSame(hash, node);
      SameMeansTheSame<real>(r, node);
      SameIsSameNumber(r, node);
    }

    /** map(hash_node, l) */
    method HashAll(l: seq<Expr>) returns (hashes: seq<int>)
      requires Valid() && (forall i :: 0 <= i < |l| ==> Recognised(l[i]))
      requires CollisionFree(hash, expressionHashes.Keys + AllSubs(l))
      modifies this`recursiveHashmap, this`expressionHashes
      ensures Valid() && expressionHashes.Keys == old(expressionHashes.Keys) + AllSubs(l)
      ensures hashes == HashesOf(hash, l) && View() == HashedAll(hash, old(View()), l)
    {
      ghost var known := expressionHashes.Keys;
      hashes := [];
      for i := 0 to |l|
        invariant Valid() && expressionHashes.Keys == known + AllSubs(l[..i])
        invariant hashes == HashesOf(hash, l[..i]) && View() == HashedAll(hash, old(View()), l[..i])
      {
        NextIsCovered(known, l, i);
        HashesOfStep(hash, l, i);
        HashedAllStep(hash, old(View()), l, i);
        FewerCollideLess(hash, expressionHashes.Keys + Subs(l[i]), known + AllSubs(l));
        var h := Learn(l[i]);
        hashes := hashes + [h];
      }
      assert l[..|l|] == l;
    }

    /** map(hash_to_casadi_node, hashes) */
    method RebuildAll(hashes: seq<int>, ghost l: seq<Expr>) returns (nodes: seq<Expr>)
      requires Valid() && hashes == HashesOf(hash, l)
      requires forall j :: 0 <= j < |l| ==> l[j] in expressionHashes && Recognised(l[j])
      modifies this`hashedExpressions
      ensures Valid()
      ensures nodes == CanonsOf(hash, l) && hashedExpressions == RebuiltAll(hash, old(hashedExpressions), l)
    {
      nodes := [];
      for i := 0 to |hashes|
        invariant Valid() && nodes == CanonsOf(hash, l[..i])
        invariant hashedExpressions == RebuiltAll(hash, old(hashedExpressions), l[..i])
      {
        RebuiltAllStep(hash, old(hashedExpressions), l, i);
        CanonsOfStep(hash, l, i);
        var node := HashToCasadiNode(hashes[i], l[i]);
        nodes := nodes + [node];
      }
      assert l[..|l|] == l;
    }

    /** cse, on a matrix: its entries are all hashed, column by column, before any is rebuilt;
        the column of results is brought into the shape of the matrix again. */
    method CseMatrix(m: Matrix) returns (r: Matrix)
      requires m.Valid() && Valid() && (forall k :: 0 <= k < |m.entries| ==> Recognised(m.entries[k]))
      requires CollisionFree(hash, expressionHashes.Keys + AllSubs(m.entries))
      modifies this
      ensures Valid() && expressionHashes.Keys == old(expressionHashes.Keys) + AllSubs(m.entries)
      ensures View() == HashedAll(hash, old(View()), m.entries)
      ensures hashedExpressions == RebuiltAll(hash, old(hashedExpressions), m.entries)
      ensures r.Valid() && r.rows == m.rows && r.cols == m.cols
      ensures forall i, j :: 0 <= i < m.rows && 0 <= j < m.cols ==>
                MeansTheSame(hash, m.At(i, j), r.At(i, j))
    {
      var hashes := HashAll(m.entries);
      AllAreAmongTheirSubs(m.entries);
      var nodes := RebuildAll(hashes, m.entries);
      r := Matrix(m.rows, m.cols, nodes);
      EntriesAreCanonical(hash, m, r);
    }
  }

  lemma EntriesAreCanonical(hash: Hash, m: Matrix, r: Matrix)
    requires m.Valid() && r.Valid() && r.rows == m.rows && r.cols == m.cols
    requires r.entries == CanonsOf(hash, m.entries)
    ensures forall i, j :: 0 <= i < m.rows && 0 <= j < m.cols ==>
              MeansTheSame(hash, m.At(i, j), r.At(i, j))
  {
    forall i, j | 0 <= i < m.rows && 0 <= j < m.cols
      ensures MeansTheSame(hash, m.At(i, j), r.At(i, j))
    {
      Inside(m.rows, m.cols, i, j);
      CanonIsSame(hash, m.At(i, j));
      SameMeansTheSame<real>(r.At(i, j), m.At(i, j));
      SameIsSameNumber(r.At(i, j), m.At(i, j));
    }
  }
}
