/**
 * The compiler is correct on whole scalar programs: the module it makes validates, running
 * it is safe, and within any budget the run of an exported function gives the IR's answer,
 * gives the IR's failure, or runs out, and does run out when the IR is not done.
 */
module CompileTheorem {
  import opened Ints
  import opened Wasm
  import opened Types
  import opened Run
  import opened Compile
  import opened Program
  import opened Slots
  import opened CompileRuns
  import opened Simulation
  import opened CallsAndWalks
  import opened CompileMeans
  import opened Literals
  import Validate
  import CompileChecks
  import Combinators
  import Soundness
  import Fuel
  import Fates
  import Ir
  import L = Layout

  // -- the module is linked --------------------------------------------------

  lemma {:induction false} LiteralsInOrder(p: Ir.Program, k: nat)
    requires k <= |p|
    ensures InOrder(StringsAt(p, k))
    decreases k
  {
    if k > 0 {
      LiteralsInOrder(p, k - 1);
      var cx := Cx(p, p[k - 1], 0);
      BlockInOrder(cx, Begin(p[k - 1], StringsAt(p, k - 1)), p[k - 1].body);
    }
  }

  lemma {:induction false} LiteralsGrow(p: Ir.Program, k: nat, n: nat)
    requires k <= n <= |p|
    ensures StringsAt(p, k).placed <= StringsAt(p, n).placed
    decreases n
  {
    if k < n {
      LiteralsGrow(p, k, n - 1);
      var start := Begin(p[n - 1], StringsAt(p, n - 1));
      assert Grows(start, CompileBlock(Cx(p, p[n - 1], 0), start, p[n - 1].body).draft);
    }
  }

  function Starts(p: Ir.Program): (r: seq<Strings>)
    ensures |r| == |p|
  {
    seq(|p|, k requires 0 <= k < |p| => StringsAt(p, k))
  }

  /** The parts of the module that do not take compiling a body to know. */
  lemma ProgramShape(p: Ir.Program)
    ensures var m := CompileProgram(p);
      && |m.funcs| == |p| + 1 && m.imports == [] && m.memoryPages == Some(16)
      && (forall g | 0 <= g < |p| :: m.funcs[g] == Compiled(p, g))
      && m.funcs[|p|].locals == [] && m.funcs[|p|].body == Combinators.GrowToFit()
      && m.funcs[|p|].typeIndex < |m.types| && m.types[m.funcs[|p|].typeIndex] == FuncType([], [])
      && Signatures(p, []) <= m.types
      && |m.table| == |p| && (forall g | 0 <= g < |p| :: m.table[g] == g)
      && m.data == StringsAt(p, |p|).data + Bumps(StringsAt(p, |p|).next)
  {
    hide Compiled, Combinators.GrowToFit, Signatures, Bumps, StringsAt;
  }

  lemma FunctionLinked(w: World, p: Ir.Program, g: nat)
    requires w.m == CompileProgram(p) && g < |p|
    ensures LinkedAt(w, p, g, StringsAt(p, g), StringsAt(p, |p|).placed)
  {
    hide CompileProgram;
    ProgramShape(p);
    LiteralsGrow(p, g + 1, |p|);
    assert p[g] in p;
    var types := Signatures(p, []);
    var at := Intern(types, Signature(p[g]));
    assert at.0 == types <= w.m.types;
  }

  lemma ProgramLinked(w: World, p: Ir.Program)
    requires w.m == CompileProgram(p) && Ir.ProgramOk(p)
    ensures Linked(w, p, Starts(p), StringsAt(p, |p|).placed)
  {
    hide LinkedAt, CompileProgram, StringsAt, Ir.ProgramOk;
    ProgramShape(p);
    forall g | 0 <= g < |p| ensures LinkedAt(w, p, g, Starts(p)[g], StringsAt(p, |p|).placed) {
      FunctionLinked(w, p, g);
    }
  }

  /** Laid one after another, the literals end inside the starting memory. */
  predicate LiteralsFit(p: Ir.Program) { StringsAt(p, |p|).next <= 16 * L.PAGE }

  lemma MemoryPrimed(p: Ir.Program)
    requires LiteralsFit(p)
    ensures Primed(MemoryOf(CompileProgram(p)), StringsAt(p, |p|).placed)
  {
    hide CompileProgram, InOrder, StringsAt, Bumps;
    ProgramShape(p);
    LiteralsInOrder(p, |p|);
    MemoryReads(seq(16 * L.PAGE, _ => 0), StringsAt(p, |p|));
  }

  // -- the module validates --------------------------------------------------

  lemma FunctionValidates(p: Ir.Program, g: nat)
    requires Ir.ProgramOk(p) && g < |p|
    ensures Validate.FuncChecks(CompileProgram(p), CompileProgram(p).funcs[g], Validate.Tight)
  {
    hide CompileProgram, StringsAt;
    var m := CompileProgram(p);
    ProgramShape(p);
    SignaturesKnown(p);
    assert p[g] in p;
    FunctionLinked(World(m, None, false), p, g);
    BodyValidates(m, p, g, StringsAt(p, g), m.funcs[g]);
  }

  lemma SignaturesKnown(p: Ir.Program)
    ensures var m := CompileProgram(p);
      forall h | 0 <= h < |p| ::
        FuncTypeOf(m, h + 0) == Some(FuncType(Represented(p[h].params), Results(ValTypeOf(p[h].ret))))
  {
    hide CompileProgram, StringsAt, CompileBody;
    ProgramShape(p);
    forall h | 0 <= h < |p|
      ensures FuncTypeOf(CompileProgram(p), h + 0) == Some(FuncType(Represented(p[h].params), Results(ValTypeOf(p[h].ret))))
    {
      FunctionLinked(World(CompileProgram(p), None, false), p, h);
    }
  }

  lemma BodyValidates(m: Module, p: Ir.Program, g: nat, start: Strings, func: Func)
    requires g < |p| && Ir.FunctionOk(p, p[g]) && m.memoryPages.Some?
    requires forall h | 0 <= h < |p| ::
               FuncTypeOf(m, h + 0) == Some(FuncType(Represented(p[h].params), Results(ValTypeOf(p[h].ret))))
    requires var body := CompileBody(Cx(p, p[g], 0), start); func.locals == body.draft.extra && func.body == body.code
    requires func.typeIndex < |m.types|
    requires m.types[func.typeIndex] == FuncType(Represented(p[g].params), Results(ValTypeOf(p[g].ret)))
    ensures Validate.FuncChecks(m, func, Validate.Tight)
  {
    hide CompileBody, Ir.FunctionOk;
    var env := Validate.Env(m, m.types[func.typeIndex].params + func.locals, Validate.Tight);
    CompileChecks.BodyChecks(env, Cx(p, p[g], 0), start);
  }

  lemma HelperValidates(m: Module, at: nat)
    requires at < |m.types| && m.types[at] == FuncType([], []) && m.memoryPages.Some?
    ensures Validate.FuncChecks(m, Func(at, [], Combinators.GrowToFit()), Validate.Tight)
  {
    var env := Validate.Env(m, [] + [], Validate.Tight);
    var c := Validate.Entry([]);
    Combinators.GrowToFitTurns(env, c);
    CompileChecks.PushAllNone(c);
    hide Combinators.GrowToFit;
    assert Validate.PopFrame(c).Some?;
  }

  lemma GrowingValidates(p: Ir.Program)
    ensures Validate.FuncChecks(CompileProgram(p), CompileProgram(p).funcs[|p|], Validate.Tight)
  {
    hide Validate.FuncChecks, Combinators.GrowToFit, CompileProgram, Signatures, StringsAt;
    var m := CompileProgram(p);
    ProgramShape(p);
    HelperValidates(m, m.funcs[|p|].typeIndex);
    assert m.funcs[|p|] == Func(m.funcs[|p|].typeIndex, [], Combinators.GrowToFit());
  }

  /** Every compiled program validates, with every branch tight. */
  lemma ProgramValidates(p: Ir.Program)
    requires Ir.ProgramOk(p)
    ensures Validate.Validates(CompileProgram(p), Validate.Tight)
  {
    hide Validate.FuncChecks, Combinators.GrowToFit, CompileProgram, Signatures, StringsAt, Ir.ProgramOk, Bumps, Compiled;
    var m := CompileProgram(p);
    ProgramShape(p);
    forall i | 0 <= i < |m.funcs| ensures Validate.FuncChecks(m, m.funcs[i], Validate.Tight) {
      if i < |p| {
        FunctionValidates(p, i);
      } else {
        GrowingValidates(p);
      }
    }
  }

  ghost predicate Single(types: seq<FuncType>) { forall i | 0 <= i < |types| :: |types[i].results| <= 1 }

  lemma InternSingle(types: seq<FuncType>, wanted: FuncType)
    requires Single(types) && |wanted.results| <= 1
    ensures Single(Intern(types, wanted).0)
  {
  }

  lemma {:induction false} OneResult(p: Ir.Program, types: seq<FuncType>)
    requires Single(types)
    ensures Single(Signatures(p, types))
    decreases |p|
  {
    hide Single, Intern;
    if p != [] {
      InternSingle(types, Signature(p[0]));
      OneResult(p[1..], Intern(types, Signature(p[0])).0);
    }
  }

  /** What soundness asks of a world, a compiled program has. */
  lemma ProgramWellFormed(p: Ir.Program, host: Option<HostFn>, checks: bool)
    requires Ir.ProgramOk(p)
    ensures Soundness.WellFormed(World(CompileProgram(p), host, checks))
  {
    hide Validate.Validates, CompileProgram;
    ProgramShape(p);
    ProgramValidates(p);
    TypesHaveOneResult(p);
  }

  lemma TypesHaveOneResult(p: Ir.Program)
    ensures Single(CompileProgram(p).types)
  {
    hide Compiled, Bumps, StringsAt;
    OneResult(p, []);
    InternSingle(Signatures(p, []), FuncType([], []));
  }

  // -- running it ------------------------------------------------------------

  /** A program, one of its functions, and arguments of its parameters' types. */
  ghost predicate Callable(p: Ir.Program, g: nat, vs: seq<Ir.Val>) {
    Ir.ProgramOk(p) && LiteralsFit(p) && g < |p| && HasTypes(vs, p[g].params)
  }

  /** What the IR says calling it comes to. */
  function Meant(p: Ir.Program, g: nat, vs: seq<Ir.Val>, depth: nat): Ir.Eval<Ir.Val>
    requires g < |p|
  {
    Ir.EvalFunction(p, Ir.Strict, depth, p[g], vs)
  }

  /** What a run of the compiled export comes to, from the memory the module starts with. */
  function Ran(p: Ir.Program, g: nat, vs: seq<Ir.Val>, budget: nat): Step<Outcome> {
    var m := CompileProgram(p);
    RunExport(World(m, None, false), g, EncAll(vs), budget, MemoryOf(m))
  }

  lemma ExportInvokes(p: Ir.Program, g: nat, vs: seq<Ir.Val>, depth: nat) returns (cost: nat)
    requires Callable(p, g, vs)
    ensures Invokes(World(CompileProgram(p), None, false), g, EncAll(vs), MemoryOf(CompileProgram(p)), Meant(p, g, vs, depth), depth, cost)
  {
    hide CompileProgram, StringsAt, Linked, Primed, MemoryOf, Invokes, Compiled, Signatures, Bumps,
         Ir.EvalFunction, Ir.ProgramOk, Combinators.GrowToFit;
    var w := World(CompileProgram(p), None, false);
    ProgramShape(p);
    ProgramLinked(w, p);
    MemoryPrimed(p);
    var t := Setting(w, Cx(p, p[g], 0), Starts(p), StringsAt(p, |p|).placed);
    cost := RunsFunction(t, g, vs, depth, MemoryOf(w.m));
  }

  /**
   * Within every budget the run ends with the answer the IR gives, having allocated nothing
   * and left memory as it was, or stops with the failure the IR stops with, or runs out.
   */
  lemma RunIsMeant(p: Ir.Program, g: nat, vs: seq<Ir.Val>, budget: nat)
    requires Callable(p, g, vs)
    ensures match Ran(p, g, vs, budget)
      case Ok(outcome) =>
        && Meant(p, g, vs, budget).Gives? && outcome.value == Reply(Meant(p, g, vs, budget).value)
        && outcome.grown == 0 && outcome.memory == MemoryOf(CompileProgram(p))
      case Stops(trap) =>
        trap == TooLong || (Meant(p, g, vs, budget).Fails?
                              && trap == Failed(Meant(p, g, vs, budget).code, Meant(p, g, vs, budget).message))
      case Panic => false
  {
    hide CompileProgram, MemoryOf, EncAll, Meant;
    var cost := ExportInvokes(p, g, vs, budget);
    var w := World(CompileProgram(p), None, false);
    WithinBudget(w, g, EncAll(vs), MemoryOf(w.m), Meant(p, g, vs, budget), budget, cost, budget);
  }

  lemma WithinBudget(
    w: World, index: nat, args: seq<Value>, memory: seq<byte>, r: Ir.Eval<Ir.Val>, depth: nat, cost: nat, budget: nat)
    requires Invokes(w, index, args, memory, r, depth, cost)
    ensures var run := RunExport(w, index, args, budget, memory);
      match r
      case Gives(v, _) =>
        run == if cost <= budget then Ok(Run.Outcome(Reply(v), 0, cost, memory)) else Stops(TooLong)
      case Returns(_) => false
      case Fails(code, message) => run == Stops(Failed(code, message)) || (budget < cost && run == Stops(TooLong))
      case Deep => budget <= depth ==> run == Stops(TooLong)
  {
    var enough := if r.Deep? then depth else cost;
    if enough <= budget {
      if !r.Deep? {
        Fuel.InvokeSpares(w, w, enough, budget - enough, index, args, memory);
      }
    } else if Invoke(w, budget, index, args, memory) != Trapped(TooLong) {
      Fuel.InvokeSpares(w, w, budget, enough - budget, index, args, memory);
    }
  }

  /** What the IR answers or fails with, the run does within every large enough budget. */
  lemma MeantIsRun(p: Ir.Program, g: nat, vs: seq<Ir.Val>, depth: nat) returns (cost: nat)
    requires Callable(p, g, vs)
    ensures Meant(p, g, vs, depth).Gives? ==>
              forall budget: nat | cost <= budget ::
                Ran(p, g, vs, budget) == Ok(Run.Outcome(Reply(Meant(p, g, vs, depth).value), 0, cost, MemoryOf(CompileProgram(p))))
    ensures Meant(p, g, vs, depth).Fails? ==>
              forall budget: nat | cost <= budget ::
                Ran(p, g, vs, budget) == Stops(Failed(Meant(p, g, vs, depth).code, Meant(p, g, vs, depth).message))
    ensures Meant(p, g, vs, depth).Deep? ==> forall budget: nat | budget <= depth :: Ran(p, g, vs, budget) == Stops(TooLong)
  {
    hide CompileProgram, MemoryOf, EncAll, Meant;
    cost := ExportInvokes(p, g, vs, depth);
    var w := World(CompileProgram(p), None, false);
    forall budget: nat
      ensures Meant(p, g, vs, depth).Gives? && cost <= budget ==>
                Ran(p, g, vs, budget) == Ok(Run.Outcome(Reply(Meant(p, g, vs, depth).value), 0, cost, MemoryOf(CompileProgram(p))))
      ensures Meant(p, g, vs, depth).Fails? && cost <= budget ==>
                Ran(p, g, vs, budget) == Stops(Failed(Meant(p, g, vs, depth).code, Meant(p, g, vs, depth).message))
      ensures Meant(p, g, vs, depth).Deep? && budget <= depth ==> Ran(p, g, vs, budget) == Stops(TooLong)
    {
      WithinBudget(w, g, EncAll(vs), MemoryOf(w.m), Meant(p, g, vs, depth), depth, cost, budget);
    }
  }

  ghost predicate RunAnswers(p: Ir.Program, g: nat, vs: seq<Ir.Val>, answer: Option<Value>) {
    exists budget: nat :: Ran(p, g, vs, budget).Ok? && Ran(p, g, vs, budget).value.value == answer
  }

  ghost predicate IrAnswers(p: Ir.Program, g: nat, vs: seq<Ir.Val>, answer: Option<Value>)
    requires g < |p|
  {
    exists depth: nat :: Meant(p, g, vs, depth).Gives? && Reply(Meant(p, g, vs, depth).value) == answer
  }

  ghost predicate RunFails(p: Ir.Program, g: nat, vs: seq<Ir.Val>, code: Text, message: Text) {
    exists budget: nat :: Ran(p, g, vs, budget) == Stops(Failed(code, message))
  }

  ghost predicate IrFails(p: Ir.Program, g: nat, vs: seq<Ir.Val>, code: Text, message: Text)
    requires g < |p|
  {
    exists depth: nat :: Meant(p, g, vs, depth) == Ir.Fails(code, message)
  }

  /** The compiled function and the function in the IR have the same answers and the same failures. */
  lemma SameMeaning(p: Ir.Program, g: nat, vs: seq<Ir.Val>, answer: Option<Value>, code: Text, message: Text)
    requires Callable(p, g, vs)
    ensures RunAnswers(p, g, vs, answer) <==> IrAnswers(p, g, vs, answer)
    ensures RunFails(p, g, vs, code, message) <==> IrFails(p, g, vs, code, message)
  {
    assert g < |p|;
    hide Meant, Ran, Callable;
    if RunAnswers(p, g, vs, answer) {
      var budget: nat :| Ran(p, g, vs, budget).Ok? && Ran(p, g, vs, budget).value.value == answer;
      RunIsMeant(p, g, vs, budget);
    }
    if IrAnswers(p, g, vs, answer) {
      var depth: nat :| Meant(p, g, vs, depth).Gives? && Reply(Meant(p, g, vs, depth).value) == answer;
      var cost := MeantIsRun(p, g, vs, depth);
      assert Ran(p, g, vs, cost).Ok?;
    }
    if RunFails(p, g, vs, code, message) {
      var budget: nat :| Ran(p, g, vs, budget) == Stops(Failed(code, message));
      RunIsMeant(p, g, vs, budget);
    }
    if IrFails(p, g, vs, code, message) {
      var depth: nat :| Meant(p, g, vs, depth) == Ir.Fails(code, message);
      var cost := MeantIsRun(p, g, vs, depth);
      assert Ran(p, g, vs, cost) == Stops(Failed(code, message));
    }
  }
}
