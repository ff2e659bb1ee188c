/**
 * What the operators come to, told by what holds of their answers: remainders and quotients,
 * comparisons, the machine's own instructions, and words put into memory and read out again.
 */
module Operators {
  import opened Ints
  import opened Wasm
  import opened Types
  import opened Run
  import opened Compile
  import opened CompileRuns
  import Exact
  import Fates
  import CompileTheorem
  import Program
  import HashEngines
  import Ir

  // -- quotients and remainders ----------------------------------------------

  /**
   * Division towards zero with its remainder: they make up the dividend again, the remainder is
   * nearer zero than the divisor, and it is zero or on the dividend's side of zero.
   */
  predicate Divides(l: int, r: int, q: int, n: int) {
    && l == q * r + n
    && -Exact.Abs(r) < n < Exact.Abs(r)
    && (n == 0 || (n > 0 <==> l > 0))
  }

  /** There is only one such pair. */
  lemma OneDivision(l: int, r: int, q: int, n: int, p: int, m: int)
    requires r != 0 && Divides(l, r, q, n) && Divides(l, r, p, m)
    ensures q == p && n == m
  {
    assert (q - p) * r == m - n;
    if r > 0 {
      Exact.NoSmallMultiple(q - p, r);
    } else {
      assert (p - q) * -r == m - n;
      Exact.NoSmallMultiple(p - q, -r);
    }
  }

  lemma Signs(m: int, b: int)
    ensures (-m) * (-b) == m * b && (-m) * b == -(m * b) && m * (-b) == -(m * b)
  {
  }

  lemma RestOnSide(l: int, r: int)
    requires r != 0
    ensures Divides(l, r, TruncDiv(l, r), TruncRem(l, r))
  {
    var a, b := Exact.Abs(l), Exact.Abs(r);
    var m := a / b;
    assert a == m * b + a % b;
    Exact.QuotientSign(l, r);
    Exact.QuotientBound(a, b);
    Splits(l, r, m, a % b, TruncDiv(l, r));
  }

  lemma SignedProduct(up: bool, right: bool, m: int, b: int, q: int, r: int)
    requires r == if right then b else -b
    requires q == if up == right then m else -m
    ensures q * r == if up then m * b else -(m * b)
  {
    Signs(m, b);
  }

  lemma NotNegative(m: int, b: int)
    requires m >= 0 && b >= 0
    ensures m * b >= 0
  {
  }

  lemma Splits(l: int, r: int, m: int, k: int, q: int)
    requires r != 0 && Exact.Abs(l) == m * Exact.Abs(r) + k && 0 <= k < Exact.Abs(r)
    requires q == (if (l >= 0) == (r > 0) then m else -m) && m >= 0
    ensures Divides(l, r, q, l - q * r)
  {
    NotNegative(m, Exact.Abs(r));
    SignedProduct(l >= 0, r > 0, m, Exact.Abs(r), q, r);
    Lies(l, r, q, q * r, m * Exact.Abs(r), k);
  }

  lemma Lies(l: int, r: int, q: int, product: int, size: int, k: int)
    requires product == q * r && Exact.Abs(l) == size + k && 0 <= k < Exact.Abs(r)
    requires product == if l >= 0 then size else -size
    requires size >= 0
    ensures Divides(l, r, q, l - product)
  {
  }

  /** The two arithmetic operators the IR gives no answer for zero or for the least integer by -1 agree on one division otherwise. */
  lemma RemainderMeans(l: i64, r: i64, env: seq<Ir.Val>)
    ensures r == 0 || (l == MIN_64 && r == -1) ==>
      && Ir.Arith(Ir.DivInt, l, r, env) == Ir.Fails(Ir.ARITHMETIC_CODE, Ir.ARITHMETIC_MESSAGE)
      && Ir.Arith(Ir.RemInt, l, r, env) == Ir.Fails(Ir.ARITHMETIC_CODE, Ir.ARITHMETIC_MESSAGE)
    ensures r != 0 && !(l == MIN_64 && r == -1) ==>
      && Ir.Arith(Ir.DivInt, l, r, env).Gives? && Ir.Arith(Ir.RemInt, l, r, env).Gives?
      && Divides(l, r, Ir.AsInt(Ir.Arith(Ir.DivInt, l, r, env).value), Ir.AsInt(Ir.Arith(Ir.RemInt, l, r, env).value))
  {
    hide TruncRem, TruncDiv, Wrap64;
    if r != 0 {
      Exact.QuotientTest(l, r);
      RestOnSide(l, r);
      WrapFits(TruncRem(l, r));
    }
  }

  /** The emitted code for a quotient and for a remainder, run on the same pair, leave the two halves of one division. */
  lemma RemainderRuns(w: World, s: State, cx: Cx, d: Draft, placed: seq<(Text, nat)>, left: nat, right: nat, l: i64, r: i64)
    returns (quotient: Fates.Fate, rest: Fates.Fate)
    requires Holds(s, left, l) && Holds(s, right, r) && left < Fresh(cx, d) && right < Fresh(cx, d)
    requires Params(cx.f) + |CheckedOp(cx, d, Ir.RemInt, left, right).draft.extra| <= |s.locals|
    requires Primed(s.memory, placed) && CheckedOp(cx, d, Ir.RemInt, left, right).draft.strings.placed <= placed
    ensures Fates.Meets(w, CheckedOp(cx, d, Ir.DivInt, left, right).code, s, quotient)
    ensures Fates.Meets(w, CheckedOp(cx, d, Ir.RemInt, left, right).code, s, rest)
    ensures r == 0 || (l == MIN_64 && r == -1) ==>
      && quotient.Dies? && quotient.trap == NO_ANSWER && rest.Dies? && rest.trap == NO_ANSWER
    ensures r != 0 && !(l == MIN_64 && r == -1) ==>
      exists q: i64, n: i64 ::
        && Divides(l, r, q, n)
        && quotient.Ends? && quotient.state.stack == s.stack + [V64(q)]
        && rest.Ends? && rest.state.stack == s.stack + [V64(n)]
  {
    RemainderMeans(l, r, []);
    quotient := CheckedOpRuns(w, s, cx, d, Ir.DivInt, placed, left, right, l, r);
    rest := CheckedOpRuns(w, s, cx, d, Ir.RemInt, placed, left, right, l, r);
    if r != 0 && !(l == MIN_64 && r == -1) {
      var q := Ir.AsInt(Ir.Arith(Ir.DivInt, l, r, []).value);
      var n := Ir.AsInt(Ir.Arith(Ir.RemInt, l, r, []).value);
      assert Divides(l, r, q, n);
    }
  }

  /** Seven by minus two, and minus seven by two. */
  lemma SevenByTwo()
    ensures Ir.Arith(Ir.DivInt, 7, -2, []) == Ir.Gives(Ir.IntV(-3), []) && Ir.Arith(Ir.RemInt, 7, -2, []) == Ir.Gives(Ir.IntV(1), [])
    ensures Ir.Arith(Ir.DivInt, -7, 2, []) == Ir.Gives(Ir.IntV(-3), []) && Ir.Arith(Ir.RemInt, -7, 2, []) == Ir.Gives(Ir.IntV(-1), [])
  {
  }

  /** Sums, differences and products are exact, and there is none exactly when it is past 64 bits. */
  lemma ExactOrNone(l: i64, r: i64, env: seq<Ir.Val>)
    ensures
      var sum := Ir.Arith(Ir.AddInt, l, r, env);
      if MIN_64 <= l + r <= MAX_64 then sum.Gives? && sum.value.IntV? && sum.value.n - r == l
      else sum == Ir.Fails(Ir.ARITHMETIC_CODE, Ir.ARITHMETIC_MESSAGE)
    ensures
      var difference := Ir.Arith(Ir.SubInt, l, r, env);
      if MIN_64 <= l - r <= MAX_64 then difference.Gives? && difference.value.IntV? && difference.value.n + r == l
      else difference == Ir.Fails(Ir.ARITHMETIC_CODE, Ir.ARITHMETIC_MESSAGE)
    ensures
      var product := Ir.Arith(Ir.MulInt, l, r, env);
      if MIN_64 <= l * r <= MAX_64 then
        product.Gives? && product.value.IntV? && (r != 0 ==> Divides(product.value.n, r, l, 0)) && (r == 0 ==> product.value.n == 0)
      else product == Ir.Fails(Ir.ARITHMETIC_CODE, Ir.ARITHMETIC_MESSAGE)
  {
  }

  /** Of two numbers one is less, equal or greater, and the other comparisons say which. */
  lemma ComparesMean(x: i64, y: i64)
    ensures Ir.Compare(Ir.LtInt, Ir.IntV(x), Ir.IntV(y)) <==> y - x > 0
    ensures Ir.Compare(Ir.GtInt, Ir.IntV(x), Ir.IntV(y)) <==> x - y > 0
    ensures Ir.Compare(Ir.Eq, Ir.IntV(x), Ir.IntV(y)) <==> x - y == 0
    ensures Ir.Compare(Ir.LeInt, Ir.IntV(x), Ir.IntV(y)) <==> !Ir.Compare(Ir.GtInt, Ir.IntV(x), Ir.IntV(y))
    ensures Ir.Compare(Ir.GeInt, Ir.IntV(x), Ir.IntV(y)) <==> !Ir.Compare(Ir.LtInt, Ir.IntV(x), Ir.IntV(y))
    ensures Ir.Compare(Ir.Ne, Ir.IntV(x), Ir.IntV(y)) <==> !Ir.Compare(Ir.Eq, Ir.IntV(x), Ir.IntV(y))
  {
  }

  /** Run lazily, `and` and `or` leave the right side alone when the left decides, and are the right side when it does not. */
  lemma LazyDecides(p: Ir.Program, depth: nat, env: seq<Ir.Val>, e: Ir.Expr)
    ensures Ir.EvalExpr(p, Ir.Lazy, depth, env, Ir.Binary(Ir.And, Ir.BoolLit(false), e)) == Ir.Gives(Ir.BoolV(false), env)
    ensures Ir.EvalExpr(p, Ir.Lazy, depth, env, Ir.Binary(Ir.Or, Ir.BoolLit(true), e)) == Ir.Gives(Ir.BoolV(true), env)
    ensures
      var r := Ir.EvalExpr(p, Ir.Lazy, depth, env, e);
      r.Gives? && r.value.BoolV? ==>
        && Ir.EvalExpr(p, Ir.Lazy, depth, env, Ir.Binary(Ir.And, Ir.BoolLit(true), e)) == r
        && Ir.EvalExpr(p, Ir.Lazy, depth, env, Ir.Binary(Ir.Or, Ir.BoolLit(false), e)) == r
  {
    hide Ir.EvalExpr;
    LeftKnown(p, depth, env, Ir.And, false, e);
    LeftKnown(p, depth, env, Ir.And, true, e);
    LeftKnown(p, depth, env, Ir.Or, false, e);
    LeftKnown(p, depth, env, Ir.Or, true, e);
  }

  lemma LeftKnown(p: Ir.Program, depth: nat, env: seq<Ir.Val>, op: Ir.BinaryOp, b: bool, e: Ir.Expr)
    requires op == Ir.And || op == Ir.Or
    ensures
      var whole, r := Ir.EvalExpr(p, Ir.Lazy, depth, env, Ir.Binary(op, Ir.BoolLit(b), e)), Ir.EvalExpr(p, Ir.Lazy, depth, env, e);
      if b == (op == Ir.Or) then whole == Ir.Gives(Ir.BoolV(b), env)
      else r.Gives? && r.value.BoolV? ==> whole == r
  {
    assert Ir.EvalExpr(p, Ir.Lazy, depth, env, Ir.BoolLit(b)) == Ir.Gives(Ir.BoolV(b), env);
  }

  // -- the machine's own instructions ----------------------------------------

  /** The answer is the one that is right up to a multiple of this. */
  predicate Congruent(n: int, exact: int, turn: int)
    requires turn > 0
  {
    (n - exact) % turn == 0
  }

  lemma TurnsAway(n: int, exact: int, turn: int, k: int)
    requires turn > 0 && n - exact == turn * k
    ensures Congruent(n, exact, turn)
  {
    var q := (n - exact) / turn;
    assert turn * k == turn * q + (n - exact) % turn;
    assert turn * (k - q) == (n - exact) % turn;
    Exact.NoSmallMultiple(k - q, turn);
  }

  lemma WrapsCongruent(x: int)
    ensures Congruent(Wrap32(x), x, TWO_32) && Congruent(Wrap64(x), x, TWO_64)
  {
    hide Congruent;
    var narrow := (x + 0x8000_0000) / TWO_32;
    assert Wrap32(x) - x == TWO_32 * -narrow;
    TurnsAway(Wrap32(x), x, TWO_32, -narrow);
    if MIN_64 <= x <= MAX_64 {
      TurnsAway(Wrap64(x), x, TWO_64, 0);
    } else {
      var wide := (x - MIN_64) / TWO_64;
      assert Wrap64(x) - x == TWO_64 * -wide;
      TurnsAway(Wrap64(x), x, TWO_64, -wide);
    }
  }

  /** Narrow arithmetic is exact up to multiples of 2^32, and wide arithmetic up to multiples of 2^64. */
  lemma ArithmeticWraps(a: i64, b: i64)
    ensures
      var sum, difference, product := BinaryOn(I64Add, a, b), BinaryOn(I64Sub, a, b), BinaryOn(I64Mul, a, b);
      && sum.Ok? && sum.value.V64? && Congruent(sum.value.m, a + b, TWO_64)
      && difference.Ok? && difference.value.V64? && Congruent(difference.value.m, a - b, TWO_64)
      && product.Ok? && product.value.V64? && Congruent(product.value.m, a * b, TWO_64)
    ensures
      var sum, difference, product := BinaryOn(I32Add, a, b), BinaryOn(I32Sub, a, b), BinaryOn(I32Mul, a, b);
      && sum.Ok? && sum.value.V32? && Congruent(sum.value.n, a + b, TWO_32)
      && difference.Ok? && difference.value.V32? && Congruent(difference.value.n, a - b, TWO_32)
      && product.Ok? && product.value.V32? && Congruent(product.value.n, a * b, TWO_32)
  {
    hide Wrap32, Wrap64;
    WrapsTwice(a + b);
    WrapsTwice(a - b);
    WrapsTwice(a * b);
  }

  lemma WrapsTwice(x: int)
    ensures Congruent(Wrap64(x), x, TWO_64) && Congruent(Wrap32(Wrap64(x)), x, TWO_32)
  {
    hide Wrap32, Wrap64;
    WrapsCongruent(x);
    WrapsCongruent(Wrap64(x));
    CongruentThen(Wrap32(Wrap64(x)), Wrap64(x), x);
  }

  lemma CongruentThen(n: int, m: int, x: int)
    requires Congruent(n, m, TWO_32) && Congruent(m, x, TWO_64)
    ensures Congruent(n, x, TWO_32)
  {
    var i, j := (n - m) / TWO_32, (m - x) / TWO_64;
    assert n - x == TWO_32 * (i + TWO_32 * j);
    TurnsAway(n, x, TWO_32, i + TWO_32 * j);
  }

  /** Division by zero traps; otherwise the two instructions are one division, but for the quotient that wraps. */
  lemma DivisionSplits(a: i64, b: i64)
    ensures b == 0 ==> BinaryOn(I64DivS, a, b) == Stops(DivideByZero) && BinaryOn(I64RemS, a, b) == Stops(DivideByZero)
    ensures b != 0 ==>
      var quotient, rest := BinaryOn(I64DivS, a, b), BinaryOn(I64RemS, a, b);
      && quotient.Ok? && quotient.value.V64? && rest.Ok? && rest.value.V64?
      && if a == MIN_64 && b == -1 then quotient.value.m == MIN_64 && rest.value.m == 0
         else Divides(a, b, quotient.value.m, rest.value.m)
  {
    hide TruncDiv, TruncRem, Wrap64;
    if b != 0 {
      RestOnSide(a, b);
      Exact.QuotientTest(a, b);
      WrapFits(TruncDiv(a, b));
      WrapFits(TruncRem(a, b));
      if a == MIN_64 && b == -1 {
        LeastWraps();
      }
    }
  }

  lemma LeastWraps()
    ensures Wrap64(TruncDiv(MIN_64, -1)) == MIN_64 && Wrap64(TruncRem(MIN_64, -1)) == 0
  {
  }

  /** Every comparison, narrow or wide, answers one or zero by the order of the integers. */
  lemma ComparisonsOrder(op: NumOp, a: i64, b: i64)
    ensures op in {I32Eq, I64Eq} ==> BinaryOn(op, a, b) == Ok(V32(if a - b == 0 then 1 else 0))
    ensures op in {I32Ne, I64Ne} ==> BinaryOn(op, a, b) == Ok(V32(if a - b == 0 then 0 else 1))
    ensures op in {I32LtS, I64LtS} ==> BinaryOn(op, a, b) == Ok(V32(if b - a > 0 then 1 else 0))
    ensures op in {I32LeS, I64LeS} ==> BinaryOn(op, a, b) == Ok(V32(if a - b > 0 then 0 else 1))
    ensures op in {I32GtS, I64GtS} ==> BinaryOn(op, a, b) == Ok(V32(if a - b > 0 then 1 else 0))
    ensures op in {I32GeS, I64GeS} ==> BinaryOn(op, a, b) == Ok(V32(if b - a > 0 then 0 else 1))
  {
  }

  /** `i32.and` and `i32.or` are the two truth tables, and a test for zero is the third. */
  lemma TruthTables(a: bool, b: bool)
    ensures BinaryOn(I32And, AsI64(Boolean(a)), AsI64(Boolean(b))) == Ok(Boolean(a && b))
    ensures BinaryOn(I32Or, AsI64(Boolean(a)), AsI64(Boolean(b))) == Ok(Boolean(a || b))
    ensures UnaryOn(I32Eqz, AsI64(Boolean(a))) == Boolean(!a)
    ensures AsBool(Boolean(a)) == a && Boolean(true) == V32(1) && Boolean(false) == V32(0)
  {
  }

  /** Widening keeps the number, and narrowing undoes it. */
  lemma WidensAndNarrows(n: i32, m: i64)
    ensures UnaryOn(I64ExtendI32S, n) == V64(n) && UnaryOn(I32WrapI64, n) == V32(n)
    ensures UnaryOn(I32WrapI64, m).V32? && Congruent(UnaryOn(I32WrapI64, m).n, m, TWO_32)
    ensures UnaryOn(I64Eqz, m) == V32(if m == 0 then 1 else 0)
  {
    hide Wrap32;
    WrapsCongruent(m);
    NarrowFits(n);
  }

  lemma NarrowFits(n: i32)
    ensures Wrap32(n) == n
  {
  }

  // -- bits ------------------------------------------------------------------

  function Bit(n: nat, k: nat): nat { if k == 0 then n % 2 else Bit(n / 2, k - 1) }

  /** The unsigned number with the same 64 bits. */
  function Plain(a: i64): nat { if a >= 0 then a else a + TWO_64 }

  lemma {:induction false} XorBit(a: nat, b: nat, width: nat, k: nat)
    requires k < width
    ensures Bit(XorBits(a, b, width), k) == if Bit(a, k) == Bit(b, k) then 0 else 1
    decreases k
  {
    if k > 0 {
      XorBit(a / 2, b / 2, width - 1, k - 1);
    }
  }

  /** Every bit of an exclusive or is set exactly when it is set in one operand and not in the other. */
  lemma XorMeans(a: i64, b: i64, k: nat)
    requires k < 64
    ensures BinaryOn(I64Xor, a, b).Ok? && BinaryOn(I64Xor, a, b).value.V64?
    ensures Bit(Plain(BinaryOn(I64Xor, a, b).value.m), k) == 1 <==> Bit(Plain(a), k) != Bit(Plain(b), k)
  {
    hide Wrap64, Bit, XorBits, HashEngines.Pow2;
    HashEngines.Pow64();
    HashEngines.BitsBelow(Plain(a), Plain(b), 64);
    PlainWraps(XorBits(Plain(a), Plain(b), 64));
    XorBit(Plain(a), Plain(b), 64, k);
  }

  lemma PlainWraps(n: nat)
    requires n < TWO_64
    ensures Plain(Wrap64(n)) == n
  {
  }

  // -- words in memory -------------------------------------------------------

  /** The byte of a word at this place: the lowest comes first. */
  lemma {:induction false} LowestFirst(n: nat, width: nat, k: nat)
    requires k < width
    ensures LeBytes(n, width)[k] == n / Pow256(k) % 256
    decreases k
  {
    if k > 0 {
      LowestFirst(n / 256, width - 1, k - 1);
      DividesTwice(n, Pow256(k - 1));
    }
  }

  lemma DividesTwice(n: nat, p: nat)
    requires p > 0
    ensures 256 * p > 0 && n / 256 / p == n / (256 * p)
  {
    var q, r := n / 256, n % 256;
    var a, b := q / p, q % p;
    assert q == p * a + b;
    assert n == (256 * p) * a + (256 * b + r);
    assert 0 <= 256 * b + r < 256 * p;
    assert n / (256 * p) == a by {
      var c, d := n / (256 * p), n % (256 * p);
      assert n == (256 * p) * c + d;
      assert (c - a) * (256 * p) == (256 * b + r) - d;
      Exact.NoSmallMultiple(c - a, 256 * p);
    }
  }

  predicate Wants(ins: Ins, v: Value) {
    match ins case I64Store(_) => v.V64? case I32Store(_) => v.V32? case I32Store8(_) => v.V32? case _ => false
  }

  /** How many bytes a store covers. */
  function Covers(ins: Ins): nat { if ins.I32Store8? then 1 else 8 }

  /** The load that goes with a store, and what a value is once only those bytes of it are left. */
  function LoadFor(ins: Ins): Ins
    requires ins.I32Store? || ins.I64Store? || ins.I32Store8?
  {
    match ins case I64Store(o) => I64Load(o) case I32Store(o) => I32Load(o) case I32Store8(o) => I32Load8U(o)
  }

  function Kept(ins: Ins, v: Value): Value { if ins.I32Store8? then V32(AsI64(v) % 256) else v }

  lemma Stores(ins: Ins, s: State, address: i32, v: Value)
    requires (ins.I32Store? || ins.I64Store? || ins.I32Store8?) && address >= 0
    ensures
      var stored := ExecSimple(ins, Pushed(Pushed(s, V32(address)), v));
      if address + ins.offset + Covers(ins) > |s.memory| then stored == Stops(OutOfBounds)
      else stored == Ok(s.(memory := if ins.I32Store8? then s.memory[address + ins.offset := AsI64(v) % 256]
                                     else Splice(s.memory, address + ins.offset, WordBytes(AsI64(v)))))
  {
    hide WordBytes, BytesWord, Wrap32;
    var under := Pushed(s, V32(address));
    assert Popped(Pushed(under, v)) == Ok((v, under));
    assert Popped(under) == Ok((V32(address), s));
  }

  lemma Loads(ins: Ins, s: State, address: i32)
    requires (ins.I32Load? || ins.I64Load? || ins.I32Load8U?) && address >= 0
    requires address + ins.offset + (if ins.I32Load8U? then 1 else 8) <= |s.memory|
    ensures
      var at := address + ins.offset;
      ExecSimple(ins, Pushed(s, V32(address))) == Ok(Pushed(s,
        if ins.I32Load8U? then V32(s.memory[at])
        else if ins.I64Load? then V64(BytesWord(s.memory[at..at + 8])) else V32(Wrap32(BytesWord(s.memory[at..at + 8])))))
  {
    hide BytesWord, Wrap32;
    assert Popped(Pushed(s, V32(address))) == Ok((V32(address), s));
  }

  /** What was stored is what is loaded from there, a byte as a number below 256, and no other byte changes. */
  lemma StoredIsLoaded(ins: Ins, s: State, address: i32, v: Value)
    requires ins.I32Store? || ins.I64Store? || ins.I32Store8?
    requires Wants(ins, v) && address >= 0
    ensures
      var stored := ExecSimple(ins, Pushed(Pushed(s, V32(address)), v));
      if address + ins.offset + Covers(ins) > |s.memory| then stored == Stops(OutOfBounds)
      else
        && stored.Ok? && stored.value.stack == s.stack && stored.value.locals == s.locals
        && ExecSimple(LoadFor(ins), Pushed(stored.value, V32(address))) == Ok(Pushed(stored.value, Kept(ins, v)))
        && |stored.value.memory| == |s.memory|
        && forall i | 0 <= i < |s.memory| && !(address + ins.offset <= i < address + ins.offset + Covers(ins)) ::
             stored.value.memory[i] == s.memory[i]
  {
    hide WordBytes, BytesWord, Wrap32, ExecSimple;
    Stores(ins, s, address, v);
    var at := address + ins.offset;
    if at + Covers(ins) <= |s.memory| {
      var after := ExecSimple(ins, Pushed(Pushed(s, V32(address)), v)).value;
      Loads(LoadFor(ins), after, address);
      if !ins.I32Store8? {
        WordRoundTrip(AsI64(v));
        assert after.memory[at..at + 8] == WordBytes(AsI64(v));
      }
      if ins.I32Store? {
        NarrowFits(v.n);
      }
    }
  }

  /** A word in memory is its eight bytes, lowest first. */
  lemma WordIsBytes(memory: seq<byte>, at: nat, m: i64, k: nat)
    requires at + 8 <= |memory| && k < 8
    ensures Splice(memory, at, WordBytes(m))[at + k] == Plain(m) / Pow256(k) % 256
  {
    hide Pow256, LeBytes;
    LowestFirst(Plain(m), 8, k);
  }

  // -- locals and pages ------------------------------------------------------

  /** What is put in a local is what is got from it; a tee leaves it on the stack as well. */
  lemma LocalsKeep(s: State, i: nat, j: nat, v: Value)
    requires i < |s.locals| && j < |s.locals|
    ensures
      var kept := ExecSimple(LocalSet(i), Pushed(s, v));
      kept.Ok? && kept.value.stack == s.stack && kept.value.memory == s.memory
      && ExecSimple(LocalGet(j), kept.value) == Ok(Pushed(kept.value, if j == i then v else s.locals[j]))
      && ExecSimple(LocalTee(i), Pushed(s, v)) == Ok(Pushed(kept.value, v))
  {
    assert Popped(Pushed(s, v)) == Ok((v, s));
  }

  /** Memory grows by whole pages of zeros after what was there, or not at all past 4096 of them. */
  lemma GrowMeans(s: State, n: i32)
    requires |s.memory| % 65536 == 0 && |s.memory| / 65536 <= 4096
    ensures ExecSimple(MemorySize, s) == Ok(Pushed(s, V32(|s.memory| / 65536)))
    ensures
      var pages := |s.memory| / 65536;
      var grown := ExecSimple(MemoryGrow, Pushed(s, V32(n)));
      if n < 0 || pages + n > 4096 then grown == Ok(Pushed(s, V32(-1)))
      else
        && grown.Ok? && grown.value.stack == s.stack + [V32(pages)] && grown.value.locals == s.locals
        && |grown.value.memory| == |s.memory| + 65536 * n && grown.value.memory[..|s.memory|] == s.memory
        && forall i | |s.memory| <= i < |grown.value.memory| :: grown.value.memory[i] == 0
  {
    var pages := |s.memory| / 65536;
    NarrowFits(pages);
    assert Popped(Pushed(s, V32(n))) == Ok((V32(n), s));
    assert |s.memory| == 65536 * pages;
    assert ExecSimple(MemoryGrow, Pushed(s, V32(n))) == ExecGrow(Pushed(s, V32(n)));
    if 0 <= n && pages + n <= 4096 {
      assert (pages + n) * 65536 == |s.memory| + 65536 * n;
    }
  }

  // -- calls -----------------------------------------------------------------

  /** A call through a table that maps an index to itself is a call of that index. */
  lemma TableCalls(w: World, fuel: nat, at: nat, k: i32, s: State)
    requires !w.checks && fuel > 0 && 0 <= k < |w.m.table| && w.m.table[k] == k
    ensures Instr(w, fuel, CallIndirect(at), Pushed(s, V32(k))) == Instr(w, fuel, Ins.Call(k), s)
  {
    hide Apply;
    assert Popped(Pushed(s, V32(k))) == Ok((V32(k), s));
    assert Instr(w, fuel, CallIndirect(at), Pushed(s, V32(k))) == ApplyTable(w, fuel, at, Pushed(s, V32(k)));
    assert Instr(w, fuel, Ins.Call(k), s) == Apply(w, fuel - 1, k, s);
  }

  /** In a compiled program calling through the table by a function's index is calling that function. */
  lemma TableIsDirect(w: World, p: Ir.Program, fuel: nat, at: nat, k: i32, s: State)
    requires w.m == Program.CompileProgram(p) && !w.checks && fuel > 0 && 0 <= k < |p|
    ensures Instr(w, fuel, CallIndirect(at), Pushed(s, V32(k))) == Instr(w, fuel, Ins.Call(k), s)
  {
    hide Program.CompileProgram, Program.Compiled, Program.StringsAt, Program.Bumps, Program.Signatures, Instr;
    CompileTheorem.ProgramShape(p);
    TableCalls(w, fuel, at, k, s);
  }

  /** Calling an import hands the host the arguments in order and the memory, and goes on with what it answers. */
  lemma HostGets(w: World, fuel: nat, index: nat, s: State, args: seq<Value>)
    requires fuel > 0 && w.host.Some? && index < |w.m.imports|
    requires w.m.imports[index] < |w.m.types| && |w.m.types[w.m.imports[index]].params| == |args|
    ensures
      var called, answer := Instr(w, fuel, Ins.Call(index), s.(stack := s.stack + args)), w.host.value(index, args, s.memory);
      && (answer.Refuses? ==> called == Trapped(answer.trap))
      && (answer.Answer? ==>
            called == Done(fuel - 1, (State(answer.memory, s.locals, s.stack + if answer.value.Some? then [answer.value.value] else []),
                                      Normal)))
  {
    var full := s.(stack := s.stack + args);
    var cut := |full.stack| - |args|;
    assert full.stack[cut..] == args && full.stack[..cut] == s.stack;
    assert Instr(w, fuel, Ins.Call(index), full) == Apply(w, fuel - 1, index, full);
    assert s.stack + [] == s.stack;
    var answer := w.host.value(index, args, s.memory);
    assert Invoke(w, fuel - 1, index, args, s.memory)
        == if answer.Answer? then Done(fuel - 1, (answer.memory, answer.value)) else Trapped(answer.trap);
  }

  /** The room a run reports is how far the word at address zero rose, and its steps are what it spent of the budget. */
  lemma RoomReported(w: World, index: nat, args: seq<Value>, budget: nat, memory: seq<byte>)
    requires |memory| >= 8 && RunExport(w, index, args, budget, memory).Ok?
    ensures
      var ran := RunExport(w, index, args, budget, memory).value;
      && ran.steps <= budget && Invoke(w, budget, index, args, memory) == Done(budget - ran.steps, (ran.memory, ran.value))
      && (|ran.memory| >= 8 && LeValue(ran.memory[..8]) >= LeValue(memory[..8]) ==>
            LeValue(memory[..8]) + ran.grown == LeValue(ran.memory[..8]))
  {
    hide Invoke;
    assert memory[0..8] == memory[..8];
  }
}
