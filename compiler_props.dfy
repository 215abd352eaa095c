/** What the compiler of secd.py promises for each surface form, stated
    through the type dispatch, and the forms it rejects. */
module CompilerProps {
  import opened Wrappers
  import opened Instructions
  import opened Compiler

  /** A boolean literal becomes exactly one LDB (secd.py:77-80). */
  lemma CompileBoolLiteral(b: bool, scope: Scope)
    ensures CompileExpr(B(b), scope) == Ok([LDB(b)])
  {
  }

  /** `['lambda', x, body]` becomes one MKCLO whose code is the body compiled
      with `x` in front of the scope, followed by RET (secd.py:91-97). */
  lemma CompileLambdaForm(x: Node, body: Node, scope: Scope)
    ensures var r := CompileExpr(L([Name("lambda"), x, body]), scope);
      var inner := CompileExpr(body, [x] + scope);
      (r.Ok? <==> inner.Ok?) &&
      (r.Err? ==> r.error == inner.error) &&
      (r.Ok? ==>
        |r.value| == 1 && r.value[0].MKCLO? &&
        var c := r.value[0].code;
        |c| > 0 && c[|c| - 1] == RET && c[..|c| - 1] == inner.value)
  {
    var items := [Name("lambda"), x, body];
    assert CompileExpr(L(items), scope) == CompileLambda(items, scope);
    var inner := CompileExpr(body, [x] + scope);
    if inner.Ok? {
      assert (inner.value + [RET])[..|inner.value|] == inner.value;
    }
  }

  /** `['if', c, t, f]` becomes the condition's code followed by one TEST
      that carries the two branches' code unspliced (secd.py:99-105); the
      first failing part decides the error. */
  lemma CompileIfForm(c: Node, t: Node, f: Node, scope: Scope)
    ensures var r := CompileExpr(L([Name("if"), c, t, f]), scope);
      var cc, tc, fc := CompileExpr(c, scope), CompileExpr(t, scope), CompileExpr(f, scope);
      (r.Ok? <==> cc.Ok? && tc.Ok? && fc.Ok?) &&
      (r.Ok? ==> r.value == cc.value + [TEST(tc.value, fc.value)]) &&
      (r.Err? ==> r.error == if cc.Err? then cc.error else if tc.Err? then tc.error else fc.error)
  {
    var items := [Name("if"), c, t, f];
    assert CompileExpr(L(items), scope) == CompileIf(items, scope);
  }

  /** A two-element list whose head is not a string is an application:
      function code, argument code, AP (secd.py:107-112, 123-124). */
  lemma CompileApplicationForm(fn: Node, arg: Node, scope: Scope)
    requires !fn.Name?
    ensures var r := CompileExpr(L([fn, arg]), scope);
      var fc, ac := CompileExpr(fn, scope), CompileExpr(arg, scope);
      (r.Ok? <==> fc.Ok? && ac.Ok?) &&
      (r.Ok? ==> r.value == fc.value + ac.value + [AP]) &&
      (r.Err? ==> r.error == if fc.Err? then fc.error else ac.error)
  {
    var items := [fn, arg];
    assert CompileExpr(L(items), scope) == CompileApplication(items, scope);
  }

  /** The tag 'application' selects the application rule, which then
      compiles the tag itself as a variable (secd.py:109-110, 118): the form
      compiles only where the name `application` is bound. */
  lemma ApplicationTagIsAVariable(arg: Node, scope: Scope)
    ensures var r := CompileExpr(L([Name("application"), arg]), scope);
      (r.Ok? ==> Name("application") in scope) &&
      (Name("application") !in scope ==> r == Err(UnboundVariable("application"))) &&
      (Name("application") in scope ==>
        (r.Ok? <==> CompileExpr(arg, scope).Ok?) &&
        (r.Err? ==> r.error == CompileExpr(arg, scope).error) &&
        (r.Ok? ==> r.value == [LD(IndexOf(scope, "application"))] + CompileExpr(arg, scope).value + [AP]))
  {
    var items := [Name("application"), arg];
    assert CompileExpr(L(items), scope) == CompileApplication(items, scope);
    assert CompileExpr(Name("application"), scope) == CompileVariable("application", scope);
  }

  /** A list headed by any other string is rejected, even when that string
      is a bound name (secd.py:126, 130-131). */
  lemma CompileRejectsUnknownTag(x: string, rest: seq<Node>, scope: Scope)
    requires x != "lambda" && x != "if" && x != "application"
    ensures CompileExpr(L([Name(x)] + rest), scope) == Err(UnknownForm(x))
  {
  }

  /** A recognised form with the wrong number of elements is rejected before
      any part of it is compiled (secd.py:93, 101, 109). */
  lemma CompileRejectsWrongArity(items: seq<Node>, scope: Scope)
    requires ListSelector(items).Ok?
    requires var arity := match ListSelector(items).value
        case LambdaForm => 3
        case IfForm => 4
        case ApplicationForm => 2;
      |items| != arity
    ensures CompileExpr(L(items), scope).Err?
    ensures CompileExpr(L(items), scope).error.ArityMismatch?
    ensures CompileExpr(L(items), scope).error.found == |items|
  {
    assert CompileExpr(L(items), scope) == CompileList(items, scope);
    match ListSelector(items).value
    case LambdaForm => assert CompileList(items, scope) == CompileLambda(items, scope);
    case IfForm => assert CompileList(items, scope) == CompileIf(items, scope);
    case ApplicationForm => assert CompileList(items, scope) == CompileApplication(items, scope);
  }

  /** An empty list and a value of a type with no rule are rejected
      (secd.py:121, definitions.py:85-86). */
  lemma CompileRejectsOtherShapes(scope: Scope)
    ensures CompileExpr(L([]), scope) == Err(EmptyForm)
    ensures CompileExpr(Other, scope) == Err(UnsupportedExpression)
  {
  }

  /** A falsy state compiles under the empty scope, like `[[], [], [], []]`
      does (definitions.py:91-92). */
  lemma FalsyStateIsEmptyScope(term: Node)
    ensures Compile(term, None) == Compile(term, Some([]))
  {
  }
}
