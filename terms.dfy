/** A reference definition of the compiler in two phases: classification and
    name resolution into a nameless term whose variables are slot
    positions, followed by code generation. The fused rules of secd.py are proved equal
    to the composition, and generated code is proved to decode back to its
    term, so compiled code determines the resolved term. */
module Terms {
  import opened Wrappers
  import opened Instructions
  import opened Compiler

  /** A classified term whose variables are slot positions (innermost = 0). */
  datatype Term =
    | TBool(value: bool)
    | TVar(index: nat)
    | TLam(body: Term)
    | TIf(cond: Term, thn: Term, els: Term)
    | TApp(fn: Term, arg: Term)

  /** Classification and name resolution, failing exactly as the compiler does. */
  function Resolve(n: Node, scope: Scope): Result<Term, CompileError>
    decreases n
  {
    match n
    case B(b) => Ok(TBool(b))
    case Name(x) => if Name(x) in scope then Ok(TVar(IndexOf(scope, x))) else Err(UnboundVariable(x))
    case Other => Err(UnsupportedExpression)
    case L(items) =>
      match ListSelector(items)
      case Err(e) => Err(e)
      case Ok(LambdaForm) =>
        if |items| != 3 then Err(ArityMismatch(3, |items|))
        else
          (match Resolve(items[2], [items[1]] + scope)
           case Err(e) => Err(e)
           case Ok(body) => Ok(TLam(body)))
      case Ok(IfForm) =>
        if |items| != 4 then Err(ArityMismatch(4, |items|))
        else
          (match Resolve(items[1], scope)
           case Err(e) => Err(e)
           case Ok(c) =>
             match Resolve(items[2], scope)
             case Err(e) => Err(e)
             case Ok(t) =>
               match Resolve(items[3], scope)
               case Err(e) => Err(e)
               case Ok(f) => Ok(TIf(c, t, f)))
      case Ok(ApplicationForm) =>
        if |items| != 2 then Err(ArityMismatch(2, |items|))
        else
          match Resolve(items[0], scope)
          case Err(e) => Err(e)
          case Ok(f) =>
            match Resolve(items[1], scope)
            case Err(e) => Err(e)
            case Ok(a) => Ok(TApp(f, a))
  }

  /** Code generation for a classified term. */
  function Emit(t: Term): seq<Instr> {
    match t
    case TBool(b) => [LDB(b)]
    case TVar(i) => [LD(i)]
    case TLam(body) => [MKCLO(Emit(body) + [RET])]
    case TIf(c, thn, els) => Emit(c) + [TEST(Emit(thn), Emit(els))]
    case TApp(f, a) => Emit(f) + Emit(a) + [AP]
  }

  /** Reads code left to right, keeping a stack of the terms recognised so
      far; `None` when the code is not the shape code generation produces. */
  function Decode(code: seq<Instr>, stack: seq<Term>): Option<seq<Term>>
    decreases CodeSize(code), 0
  {
    if code == [] then Some(stack)
    else
      var rest := code[1..];
      assert CodeSize(code) == InstrSize(code[0]) + CodeSize(rest);
      match code[0]
      case LDB(b) => Decode(rest, stack + [TBool(b)])
      case LD(i) => if i < 0 then None else Decode(rest, stack + [TVar(i)])
      case MKCLO(c) =>
        if c == [] || c[|c| - 1] != RET then None
        else
          CodeSizeLast(c);
          (match DecodeTerm(c[..|c| - 1])
           case None => None
           case Some(body) => Decode(rest, stack + [TLam(body)]))
      case TEST(c1, c2) =>
        if stack == [] then None
        else
          (match DecodeTerm(c1)
           case None => None
           case Some(thn) =>
             match DecodeTerm(c2)
             case None => None
             case Some(els) => Decode(rest, stack[..|stack| - 1] + [TIf(stack[|stack| - 1], thn, els)]))
      case AP =>
        if |stack| < 2 then None
        else Decode(rest, stack[..|stack| - 2] + [TApp(stack[|stack| - 2], stack[|stack| - 1])])
      case RET => None
  }

  /** The single term a piece of code stands for. */
  function DecodeTerm(code: seq<Instr>): Option<Term>
    decreases CodeSize(code), 1
  {
    match Decode(code, [])
    case Some(st) => if |st| == 1 then Some(st[0]) else None
    case None => None
  }

  /** Decoding the code generated for `t` pushes exactly `t`. */
  lemma {:induction false} DecodeEmit(t: Term, rest: seq<Instr>, stack: seq<Term>)
    ensures Decode(Emit(t) + rest, stack) == Decode(rest, stack + [t])
    decreases t, 0
  {
    match t
    case TBool(b) =>
      assert ([LDB(b)] + rest)[1..] == rest;
    case TVar(i) =>
      assert ([LD(i)] + rest)[1..] == rest;
    case TLam(body) =>
      var c := Emit(body) + [RET];
      assert ([MKCLO(c)] + rest)[1..] == rest;
      assert c[..|c| - 1] == Emit(body);
      DecodeTermEmit(body);
    case TIf(cond, thn, els) =>
      DecodeEmitIf(cond, thn, els, rest, stack);
    case TApp(f, a) =>
      DecodeEmitApp(f, a, rest, stack);
  }

  lemma {:induction false} DecodeEmitIf(cond: Term, thn: Term, els: Term, rest: seq<Instr>, stack: seq<Term>)
    ensures Decode(Emit(TIf(cond, thn, els)) + rest, stack) == Decode(rest, stack + [TIf(cond, thn, els)])
    decreases TIf(cond, thn, els), 0, 0
  {
    var test := TEST(Emit(thn), Emit(els));
    assert Emit(TIf(cond, thn, els)) + rest == Emit(cond) + ([test] + rest);
    DecodeEmit(cond, [test] + rest, stack);
    DecodeTermEmit(thn);
    DecodeTermEmit(els);
    var code := [test] + rest;
    assert code[0] == test && code[1..] == rest;
    var st := stack + [cond];
    assert st[..|st| - 1] == stack && st[|st| - 1] == cond;
    assert Decode(code, st) == Decode(rest, stack + [TIf(cond, thn, els)]);
  }

  lemma {:induction false} DecodeEmitApp(f: Term, a: Term, rest: seq<Instr>, stack: seq<Term>)
    ensures Decode(Emit(TApp(f, a)) + rest, stack) == Decode(rest, stack + [TApp(f, a)])
    decreases TApp(f, a), 0, 0
  {
    assert Emit(TApp(f, a)) + rest == Emit(f) + (Emit(a) + ([AP] + rest));
    DecodeEmit(f, Emit(a) + ([AP] + rest), stack);
    DecodeEmit(a, [AP] + rest, stack + [f]);
    var code := [AP] + rest;
    assert code[0] == AP && code[1..] == rest;
    var st := stack + [f] + [a];
    assert st[..|st| - 2] == stack && st[|st| - 2] == f && st[|st| - 1] == a;
    assert Decode(code, st) == Decode(rest, stack + [TApp(f, a)]);
  }

  /** Generated code decodes back to the term it was generated from. */
  lemma {:induction false} DecodeTermEmit(t: Term)
    ensures DecodeTerm(Emit(t)) == Some(t)
    decreases t, 1
  {
    DecodeEmit(t, [], []);
    assert Emit(t) + [] == Emit(t);
  }

  /** The fused compiler of secd.py is classification followed by code
      generation, failures included. */
  lemma {:induction false} CompileIsResolveThenEmit(n: Node, scope: Scope)
    ensures CompileExpr(n, scope) ==
      match Resolve(n, scope)
      case Ok(t) => Ok(Emit(t))
      case Err(e) => Err(e)
    decreases n
  {
    match n
    case B(b) =>
    case Name(x) =>
    case Other =>
    case L(items) =>
      match ListSelector(items)
      case Err(e) =>
      case Ok(LambdaForm) =>
        assert CompileExpr(n, scope) == CompileLambda(items, scope);
        if |items| == 3 { CompileIsResolveThenEmit(items[2], [items[1]] + scope); }
      case Ok(IfForm) =>
        assert CompileExpr(n, scope) == CompileIf(items, scope);
        if |items| == 4 {
          CompileIsResolveThenEmit(items[1], scope);
          CompileIsResolveThenEmit(items[2], scope);
          CompileIsResolveThenEmit(items[3], scope);
        }
      case Ok(ApplicationForm) =>
        assert CompileExpr(n, scope) == CompileApplication(items, scope);
        if |items| == 2 {
          CompileIsResolveThenEmit(items[0], scope);
          CompileIsResolveThenEmit(items[1], scope);
        }
  }

  /** Compiled code decodes to the resolved term. */
  lemma CompiledCodeDecodes(n: Node, scope: Scope)
    requires CompileExpr(n, scope).Ok?
    ensures Resolve(n, scope).Ok?
    ensures DecodeTerm(CompileExpr(n, scope).value) == Some(Resolve(n, scope).value)
  {
    CompileIsResolveThenEmit(n, scope);
    DecodeTermEmit(Resolve(n, scope).value);
  }

  /** Two terms that compile to the same code resolve to the same nameless
      term: the compiler loses nothing but the names. */
  lemma CompileInjective(n1: Node, s1: Scope, n2: Node, s2: Scope)
    requires CompileExpr(n1, s1).Ok? && CompileExpr(n2, s2).Ok?
    requires CompileExpr(n1, s1).value == CompileExpr(n2, s2).value
    ensures Resolve(n1, s1) == Resolve(n2, s2)
  {
    CompiledCodeDecodes(n1, s1);
    CompiledCodeDecodes(n2, s2);
  }
}
