/** The term of example.py, compiled and run on empty registers. */
module Example {
  import opened Wrappers
  import opened Instructions
  import opened Compiler
  import opened Machine

  /** `[['lambda', 'x', ['if', 'x', b, not b]], arg]`. */
  function Term(b: bool, arg: bool): Node {
    L([L([Name("lambda"), Name("x"), L([Name("if"), Name("x"), B(b), B(!b)])]), B(arg)])
  }

  function Body(b: bool): seq<Instr> {
    [LD(0), TEST([LDB(b)], [LDB(!b)]), RET]
  }

  /** example.py:5-6 compiles to a closure, its argument and AP. */
  lemma ExampleCompiles(b: bool, arg: bool)
    ensures Compile(Term(b, arg), Some([])) == Ok([MKCLO(Body(b)), LDB(arg), AP])
  {
    var scope := [Name("x")];
    assert IndexOf(scope, "x") == 0;
    assert CompileExpr(Name("x"), scope) == Ok([LD(0)]);
    var ifItems := [Name("if"), Name("x"), B(b), B(!b)];
    assert CompileExpr(B(b), scope) == Ok([LDB(b)]) && CompileExpr(B(!b), scope) == Ok([LDB(!b)]);
    assert [LD(0)] + [TEST([LDB(b)], [LDB(!b)])] == [LD(0), TEST([LDB(b)], [LDB(!b)])];
    assert CompileIf(ifItems, scope) == Ok([LD(0), TEST([LDB(b)], [LDB(!b)])]);
    assert CompileExpr(L(ifItems), scope) == CompileIf(ifItems, scope);
    var lamItems := [Name("lambda"), Name("x"), L(ifItems)];
    assert [lamItems[1]] + [] == scope;
    assert [LD(0), TEST([LDB(b)], [LDB(!b)])] + [RET] == Body(b);
    assert CompileLambda(lamItems, []) == Ok([MKCLO(Body(b))]);
    assert CompileExpr(L(lamItems), []) == CompileLambda(lamItems, []);
    var appItems := [L(lamItems), B(arg)];
    assert CompileExpr(B(arg), []) == Ok([LDB(arg)]);
    assert [MKCLO(Body(b))] + [LDB(arg)] + [AP] == [MKCLO(Body(b)), LDB(arg), AP];
    assert CompileApplication(appItems, []) == Ok([MKCLO(Body(b)), LDB(arg), AP]);
    assert CompileExpr(L(appItems), []) == CompileApplication(appItems, []);
  }

  /** example.py:8 on the machine as written: one flat pass ends with the
      closure's code in the control register, the argument alone on the
      stack and one saved frame; the closure body, and with it the
      conditional, is never run. */
  lemma ExampleRuns(b: bool, arg: bool)
    ensures Run(AsControl([MKCLO(Body(b)), LDB(arg), AP]), State([], [], [], [])) ==
      Ok(State(AsControl(Body(b)), [Bool(arg)], [], [Frame([], [], [])]))
  {
    var code := AsControl([MKCLO(Body(b)), LDB(arg), AP]);
    var s0 := State([], [], [], []);
    var s1 := State([], [Clo(Body(b), [])], [], []);
    var s2 := State([], [Clo(Body(b), []), Bool(arg)], [], []);
    assert code[..1] == [Ins(MKCLO(Body(b)))] && code[..2] == [Ins(MKCLO(Body(b))), Ins(LDB(arg))];
    assert code[..2][..1] == code[..1] && code[..3] == code && code[..3][..2] == code[..2];
    assert Fold(code[..0], s0) == Ok(s0);
    assert Fold(code[..1], s0) == Ok(s1);
    assert code[1] == Ins(LDB(arg)) && code[2] == Ins(AP);
    assert s1.pi + [Bool(arg)] == s2.pi;
    assert ExecLDB(arg, s1) == Ok(s2);
    assert Fold(code[..2], s0) == Ok(s2);
    assert s2.pi[..0] == [] && [] + [Frame([], [], [])] == [Frame([], [], [])];
    assert ExecAP(s2) == Ok(State(AsControl(Body(b)), [Bool(arg)], [], [Frame([], [], [])]));
  }

  /** So the result does not depend on the body: with the negating body
      `['if', 'x', False, True]` applied to True the stack still holds True. */
  lemma NegationIsNotEvaluated()
    ensures Compile(Term(false, true), Some([])).Ok?
    ensures Run(AsControl(Compile(Term(false, true), Some([])).value), State([], [], [], [])).Ok?
    ensures Run(AsControl(Compile(Term(false, true), Some([])).value), State([], [], [], [])).value.pi == [Bool(true)]
  {
    ExampleCompiles(false, true);
    ExampleRuns(false, true);
  }
}
