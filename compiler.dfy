/** The syntax-directed compiler of secd.py:75-131, with the type dispatch of
    Compiler.compile_expr and Compiler.compile (definitions.py:82-100).
    Terms arrive as nested Python lists; every rule is a pure function. */
module Compiler {
  import opened Wrappers
  import opened Instructions

  /** A surface term as Python hands it over: a bool, a str, a list, or a
      value of any other type (a number, None, a tuple), which no rule accepts. */
  datatype Node = B(value: bool) | Name(name: string) | L(items: seq<Node>) | Other

  /** The compile-time scope, register `e` of the compiler's state: bound
      parameters, innermost first. A parameter is whatever node stood in the
      second place of a lambda form; only `Name` entries can ever match. */
  type Scope = seq<Node>

  datatype CompileError =
    | UnsupportedExpression                      // no rule for the node's type (definitions.py:85-86)
    | UnboundVariable(name: string)              // secd.py:88-89
    | EmptyForm                                  // `args[0]` of an empty list (secd.py:121)
    | UnknownForm(tag: string)                   // a string head with no rule: calling None (secd.py:126, 130-131)
    | ArityMismatch(expected: nat, found: nat)   // tuple unpacking of the form (secd.py:93, 101, 109)

  /** The rule `list_selector` picks for a list. */
  datatype Form = LambdaForm | IfForm | ApplicationForm

  /** Every `LD` addresses a slot below `depth`, where the body of a closure
      sees one slot more than the code around it. */
  predicate InstrScoped(i: Instr, depth: nat) {
    match i
    case LD(n) => 0 <= n < depth
    case MKCLO(c) => forall k :: 0 <= k < |c| ==> InstrScoped(c[k], depth + 1)
    case TEST(c1, c2) =>
      (forall k :: 0 <= k < |c1| ==> InstrScoped(c1[k], depth)) &&
      (forall k :: 0 <= k < |c2| ==> InstrScoped(c2[k], depth))
    case _ => true
  }

  predicate WellScoped(code: seq<Instr>, depth: nat) {
    forall k :: 0 <= k < |code| ==> InstrScoped(code[k], depth)
  }

  lemma WellScopedAppend(a: seq<Instr>, b: seq<Instr>, depth: nat)
    ensures WellScoped(a + b, depth) <==> WellScoped(a, depth) && WellScoped(b, depth)
  {
    if WellScoped(a, depth) && WellScoped(b, depth) {
      forall k | 0 <= k < |a + b| ensures InstrScoped((a + b)[k], depth) {
        if k < |a| { assert (a + b)[k] == a[k]; } else { assert (a + b)[k] == b[k - |a|]; }
      }
    }
    if WellScoped(a + b, depth) {
      forall k | 0 <= k < |a| ensures InstrScoped(a[k], depth) {
        assert (a + b)[k] == a[k];
      }
      forall k | 0 <= k < |b| ensures InstrScoped(b[k], depth) {
        assert (a + b)[|a| + k] == b[k];
      }
    }
  }

  /** `e.index(name)`: the first (innermost) position of the name. */
  function IndexOf(scope: Scope, name: string): (i: nat)
    requires Name(name) in scope
    ensures i < |scope| && scope[i] == Name(name)
    ensures forall j :: 0 <= j < i ==> scope[j] != Name(name)
  {
    if scope[0] == Name(name) then 0 else IndexOf(scope[1..], name) + 1
  }

  /** compile_bool (secd.py:77-80). */
  function CompileBool(b: bool): seq<Instr> {
    [LDB(b)]
  }

  /** compile_variable (secd.py:82-89): a bound name loads its innermost slot,
      an unbound one is an error and yields no code. */
  function CompileVariable(name: string, scope: Scope): (r: Result<seq<Instr>, CompileError>)
    ensures r.Ok? <==> Name(name) in scope
    ensures r.Err? ==> r.error == UnboundVariable(name)
    ensures r.Ok? ==>
      |r.value| == 1 && r.value[0].LD? &&
      0 <= r.value[0].index < |scope| && scope[r.value[0].index] == Name(name) &&
      forall j :: 0 <= j < r.value[0].index ==> scope[j] != Name(name)
  {
    if Name(name) in scope then Ok([LD(IndexOf(scope, name))]) else Err(UnboundVariable(name))
  }

  /** list_selector (secd.py:114-126): a head that is not a string means an
      application; a string head must be one of the three tags. */
  function ListSelector(items: seq<Node>): (r: Result<Form, CompileError>)
    ensures r.Err? <==> items == [] || (items[0].Name? && items[0].name !in {"lambda", "if", "application"})
    ensures r == Ok(LambdaForm) <==> items != [] && items[0] == Name("lambda")
    ensures r == Ok(IfForm) <==> items != [] && items[0] == Name("if")
  {
    if items == [] then Err(EmptyForm)
    else if !items[0].Name? then Ok(ApplicationForm)
    else if items[0].name == "lambda" then Ok(LambdaForm)
    else if items[0].name == "if" then Ok(IfForm)
    else if items[0].name == "application" then Ok(ApplicationForm)
    else Err(UnknownForm(items[0].name))
  }

  /** compile_expr (definitions.py:82-88): dispatch on the node's type.
      Whatever it produces is non-empty and addresses only bound slots. */
  function CompileExpr(n: Node, scope: Scope): (r: Result<seq<Instr>, CompileError>)
    ensures r.Ok? ==> |r.value| > 0 && WellScoped(r.value, |scope|)
    decreases n, 2
  {
    match n
    case B(b) => Ok(CompileBool(b))
    case Name(x) => CompileVariable(x, scope)
    case L(items) => CompileList(items, scope)
    case Other => Err(UnsupportedExpression)
  }

  /** compile_list (secd.py:128-131). */
  function CompileList(items: seq<Node>, scope: Scope): (r: Result<seq<Instr>, CompileError>)
    ensures r.Ok? ==> |r.value| > 0 && WellScoped(r.value, |scope|)
    decreases L(items), 1
  {
    match ListSelector(items)
    case Err(e) => Err(e)
    case Ok(LambdaForm) => CompileLambda(items, scope)
    case Ok(IfForm) => CompileIf(items, scope)
    case Ok(ApplicationForm) => CompileApplication(items, scope)
  }

  /** compile_lambda (secd.py:91-97): the body is compiled with the parameter
      in front of the scope, and the closure code returns. */
  function CompileLambda(items: seq<Node>, scope: Scope): (r: Result<seq<Instr>, CompileError>)
    ensures r.Ok? ==> |r.value| == 1 && r.value[0].MKCLO? && WellScoped(r.value, |scope|)
    decreases L(items), 0
  {
    if |items| != 3 then Err(ArityMismatch(3, |items|))
    else
      match CompileExpr(items[2], [items[1]] + scope)
      case Err(e) => Err(e)
      case Ok(body) =>
        WellScopedAppend(body, [RET], |scope| + 1);
        Ok([MKCLO(body + [RET])])
  }

  /** compile_if (secd.py:99-105): condition, then the two branches nested in TEST. */
  function CompileIf(items: seq<Node>, scope: Scope): (r: Result<seq<Instr>, CompileError>)
    ensures r.Ok? ==> |r.value| > 1 && r.value[|r.value| - 1].TEST? && WellScoped(r.value, |scope|)
    decreases L(items), 0
  {
    if |items| != 4 then Err(ArityMismatch(4, |items|))
    else
      match CompileExpr(items[1], scope)
      case Err(e) => Err(e)
      case Ok(cond) =>
        match CompileExpr(items[2], scope)
        case Err(e) => Err(e)
        case Ok(thn) =>
          match CompileExpr(items[3], scope)
          case Err(e) => Err(e)
          case Ok(els) =>
            WellScopedAppend(cond, [TEST(thn, els)], |scope|);
            Ok(cond + [TEST(thn, els)])
  }

  /** compile_application (secd.py:107-112): function, argument, then AP. */
  function CompileApplication(items: seq<Node>, scope: Scope): (r: Result<seq<Instr>, CompileError>)
    ensures r.Ok? ==> |r.value| > 2 && r.value[|r.value| - 1] == AP && WellScoped(r.value, |scope|)
    decreases L(items), 0
  {
    if |items| != 2 then Err(ArityMismatch(2, |items|))
    else
      match CompileExpr(items[0], scope)
      case Err(e) => Err(e)
      case Ok(fn) =>
        match CompileExpr(items[1], scope)
        case Err(e) => Err(e)
        case Ok(arg) =>
          WellScopedAppend(fn, arg, |scope|);
          WellScopedAppend(fn + arg, [AP], |scope|);
          Ok(fn + arg + [AP])
  }

  /** Compiler.compile (definitions.py:90-100) as reached from SECD.compile
      (secd.py:153-154): `None` stands for a falsy state, which means empty
      registers; otherwise the scope is the state's `e` register. The
      exception is returned as a value instead of raised. */
  function Compile(term: Node, state: Option<Scope>): (r: Result<seq<Instr>, CompileError>)
    ensures r.Ok? ==> |r.value| > 0
    ensures state.None? && r.Ok? ==> WellScoped(r.value, 0)
  {
    CompileExpr(term, if state.Some? then state.value else [])
  }
}
