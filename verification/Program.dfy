/** A whole scalar program as a module, and what running that module comes to. */
module Program {
  import opened Ints
  import opened Wasm
  import opened Types
  import opened Run
  import opened Compile
  import opened Combinators
  import Ir
  import L = Layout

  // -- the module ------------------------------------------------------------

  /** The index of a type in a table that holds each type once, added if it is new. */
  function Intern(types: seq<FuncType>, wanted: FuncType): (r: (seq<FuncType>, nat))
    ensures types <= r.0 && r.1 < |r.0| && r.0[r.1] == wanted
    ensures wanted in types ==> r.0 == types
  {
    match Position(types, wanted)
    case Some(at) => (types, at)
    case None => (types + [wanted], |types|)
  }

  function Position<T(==)>(items: seq<T>, wanted: T): (r: Option<nat>)
    ensures r.Some? ==> r.value < |items| && items[r.value] == wanted
    ensures r.None? ==> wanted !in items
  {
    if items == [] then None
    else if items[0] == wanted then Some(0)
    else
      match Position(items[1..], wanted)
      case Some(at) => Some(at + 1)
      case None => None
  }

  function Signature(f: Ir.Function): FuncType {
    FuncType(Represented(f.params), Results(ValTypeOf(f.ret)))
  }

  function Signatures(p: Ir.Program, types: seq<FuncType>): (r: seq<FuncType>)
    ensures types <= r
    ensures forall f | f in p :: Signature(f) in r
  {
    if p == [] then types
    else
      var more := Intern(types, Signature(p[0]));
      assert more.0[more.1] in more.0;
      var r := Signatures(p[1..], more.0);
      assert more.0[more.1] == r[more.1];
      r
  }

  /** The literals before the function at this index is compiled. */
  function StringsAt(p: Ir.Program, k: nat): Strings
    requires k <= |p|
    decreases k
  {
    if k == 0 then NO_STRINGS else CompileBody(Cx(p, p[k - 1], 0), StringsAt(p, k - 1)).draft.strings
  }

  function Compiled(p: Ir.Program, k: nat): Func
    requires k < |p|
  {
    var body := CompileBody(Cx(p, p[k], 0), StringsAt(p, k));
    Func(Intern(Signatures(p, []), Signature(p[k])).1, body.draft.extra, body.code)
  }

  /**
   * A program as a module: its functions in order, a table that maps every index to itself, the
   * growing helper last; sixteen pages, the literals, and the two bump pointers.
   */
  function CompileProgram(p: Ir.Program): Module {
    var strings := StringsAt(p, |p|);
    var (types, growing) := Intern(Signatures(p, []), FuncType([], []));
    Module(types, [], seq(|p|, k requires 0 <= k < |p| => Compiled(p, k)) + [Func(growing, [], GrowToFit())],
           Some(16), seq(|p|, k requires 0 <= k < |p| => k),
           strings.data + Bumps(strings.next))
  }

  /** The two words the data section starts the bump pointers with. */
  function Bumps(next: nat): seq<(nat, seq<byte>)> {
    [(L.BUMP, WordBytes(AsWord(next))), (L.FRAME_BUMP, WordBytes(AsWord(L.FRAME_START)))]
  }
}
