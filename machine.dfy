/** The SECD machine as secd.py:12-72 and 133-150 write it. The registers are
    values: `l` control, `pi` operand stack (top = last element, as Python's
    append/pop), `e` environment, `d` dump (top = last element). Each
    instruction's `execute` is a transition from state to state; an
    exception becomes `Err`. */
module Machine {
  import opened Wrappers
  import opened Instructions

  /** A runtime value: a boolean, or a closure `[code, env]` (secd.py:48). */
  datatype Value = Bool(b: bool) | Clo(code: seq<Instr>, env: seq<Value>)

  /** An element of the control register: an instruction, or a whole code
      list that TEST put there as one element (secd.py:29). */
  datatype Ctrl = Ins(instr: Instr) | Block(block: seq<Instr>)

  /** A dump frame `[l, pi, e]` saved by AP (secd.py:59). */
  datatype Frame = Frame(l: seq<Ctrl>, pi: seq<Value>, e: seq<Value>)

  datatype State = State(l: seq<Ctrl>, pi: seq<Value>, e: seq<Value>, d: seq<Frame>)

  datatype Fault =
    | StackUnderflow                   // pi.pop() on an empty stack
    | DumpUnderflow                    // d.pop() on an empty dump
    | NotAClosure(v: Value)            // AP unpacking a boolean as [l', e']
    | EnvIndexOutOfRange(index: int)   // e[index] outside the environment
    | UnsupportedInstruction(item: Ctrl)   // secd.py:137-138
    | NoInstruction                    // empty code: `instruction` unbound at secd.py:143

  /** Python truthiness of a stack value: a closure is a non-empty list. */
  predicate Truthy(v: Value) {
    match v
    case Bool(b) => b
    case Clo(_, _) => true
  }

  /** Python's `e[i]`, where a negative index counts from the end. */
  function PyIndex(e: seq<Value>, i: int): Value
    requires -|e| <= i < |e|
  {
    if i >= 0 then e[i] else e[|e| + i]
  }

  /** The control register after AP: the closure's code list. */
  function AsControl(code: seq<Instr>): (l: seq<Ctrl>)
    ensures |l| == |code| && forall k :: 0 <= k < |code| ==> l[k] == Ins(code[k])
  {
    seq(|code|, k requires 0 <= k < |code| => Ins(code[k]))
  }

  /** `t` is `s` with `v` pushed on the stack and nothing else changed. */
  predicate Pushed(s: State, t: State, v: Value) {
    |t.pi| == |s.pi| + 1 && t.pi[..|s.pi|] == s.pi && t.pi[|s.pi|] == v &&
    t.l == s.l && t.e == s.e && t.d == s.d
  }

  /** LDB.execute (secd.py:12-19). */
  function ExecLDB(b: bool, s: State): (r: Result<State, Fault>)
    ensures r.Ok? && Pushed(s, r.value, Bool(b))
  {
    Ok(s.(pi := s.pi + [Bool(b)]))
  }

  /** LD.execute (secd.py:32-40): fails only when the slot does not exist. */
  function ExecLD(i: int, s: State): (r: Result<State, Fault>)
    ensures r.Ok? <==> -|s.e| <= i < |s.e|
    ensures r.Ok? ==> Pushed(s, r.value, PyIndex(s.e, i))
    ensures r.Err? ==> r.error == EnvIndexOutOfRange(i)
  {
    if -|s.e| <= i < |s.e| then Ok(s.(pi := s.pi + [PyIndex(s.e, i)]))
    else Err(EnvIndexOutOfRange(i))
  }

  /** MKCLO.execute (secd.py:42-49): the closure holds a snapshot equal to
      the current environment. */
  function ExecMKCLO(c: seq<Instr>, s: State): (r: Result<State, Fault>)
    ensures r.Ok? && Pushed(s, r.value, Clo(c, s.e))
  {
    Ok(s.(pi := s.pi + [Clo(c, s.e)]))
  }

  /** TEST.execute (secd.py:21-30): pops one value and puts the chosen code
      list, as a single element, in front of the control register. */
  function ExecTEST(c1: seq<Instr>, c2: seq<Instr>, s: State): (r: Result<State, Fault>)
    ensures r.Ok? <==> |s.pi| > 0
    ensures r.Err? ==> r.error == StackUnderflow
    ensures r.Ok? ==>
      r.value.pi == s.pi[..|s.pi| - 1] && r.value.e == s.e && r.value.d == s.d &&
      |r.value.l| == |s.l| + 1 && r.value.l[1..] == s.l &&
      r.value.l[0] == Block(if Truthy(s.pi[|s.pi| - 1]) then c1 else c2)
  {
    if s.pi == [] then Err(StackUnderflow)
    else
      var b := s.pi[|s.pi| - 1];
      Ok(State([Block(if Truthy(b) then c1 else c2)] + s.l, s.pi[..|s.pi| - 1], s.e, s.d))
  }

  /** AP.execute (secd.py:51-61): pops the argument, then the closure; saves
      exactly one frame with the caller's control, remaining stack and
      environment; continues with the closure's code and environment and a
      stack holding only the argument. */
  function ExecAP(s: State): (r: Result<State, Fault>)
    ensures r.Ok? <==> |s.pi| >= 2 && s.pi[|s.pi| - 2].Clo?
    ensures r.Err? ==> r.error == if |s.pi| < 2 then StackUnderflow else NotAClosure(s.pi[|s.pi| - 2])
    ensures r.Ok? ==>
      r.value.d == s.d + [Frame(s.l, s.pi[..|s.pi| - 2], s.e)] &&
      r.value.l == AsControl(s.pi[|s.pi| - 2].code) &&
      r.value.pi == [s.pi[|s.pi| - 1]] &&
      r.value.e == s.pi[|s.pi| - 2].env
  {
    if |s.pi| < 1 then Err(StackUnderflow)
    else
      var v := s.pi[|s.pi| - 1];
      var pi := s.pi[..|s.pi| - 1];
      if |pi| < 1 then Err(StackUnderflow)
      else
        match pi[|pi| - 1]
        case Bool(_) => Err(NotAClosure(pi[|pi| - 1]))
        case Clo(code, env) =>
          var rest := pi[..|pi| - 1];
          assert rest == s.pi[..|s.pi| - 2];
          Ok(State(AsControl(code), [v], env, s.d + [Frame(s.l, rest, s.e)]))
  }

  /** RET.execute (secd.py:63-72): pops the value, then exactly one frame,
      and resumes the caller with the value in front of its stack. */
  function ExecRET(s: State): (r: Result<State, Fault>)
    ensures r.Ok? <==> |s.pi| > 0 && |s.d| > 0
    ensures r.Err? ==> r.error == if |s.pi| == 0 then StackUnderflow else DumpUnderflow
    ensures r.Ok? ==>
      var f := s.d[|s.d| - 1];
      r.value.d == s.d[..|s.d| - 1] &&
      r.value.l == f.l && r.value.e == f.e && r.value.pi == [s.pi[|s.pi| - 1]] + f.pi
  {
    if s.pi == [] then Err(StackUnderflow)
    else
      var v := s.pi[|s.pi| - 1];
      if s.d == [] then Err(DumpUnderflow)
      else
        var f := s.d[|s.d| - 1];
        Ok(State(f.l, [v] + f.pi, f.e, s.d[..|s.d| - 1]))
  }

  /** `instruction.execute(state)`: the transition of one instruction. Only
      AP and RET touch the dump, by exactly one frame; LDB and MKCLO cannot
      fail; and no instruction faults as unsupported or missing. */
  function Step(i: Instr, s: State): (r: Result<State, Fault>)
    ensures (i.LDB? || i.MKCLO?) ==> r.Ok?
    ensures r.Ok? && i.AP? ==> |r.value.d| == |s.d| + 1 && r.value.d[..|s.d|] == s.d
    ensures r.Ok? && i.RET? ==> |r.value.d| + 1 == |s.d| && r.value.d == s.d[..|s.d| - 1]
    ensures r.Ok? && !i.AP? && !i.RET? ==> r.value.d == s.d
    ensures r.Err? ==> !r.error.UnsupportedInstruction? && r.error != NoInstruction
  {
    match i
    case LDB(b) => ExecLDB(b, s)
    case LD(n) => ExecLD(n, s)
    case MKCLO(c) => ExecMKCLO(c, s)
    case AP => ExecAP(s)
    case RET => ExecRET(s)
    case TEST(c1, c2) => ExecTEST(c1, c2, s)
  }

  /** One pass of the executor's loop body: anything that is not one of the
      six instructions is refused (secd.py:137-138, 149), and that is the
      only way this fault arises. */
  function StepItem(item: Ctrl, s: State): (r: Result<State, Fault>)
    ensures item.Block? ==> r == Err(UnsupportedInstruction(item))
    ensures r.Err? && r.error.UnsupportedInstruction? ==> item.Block?
    ensures item.Ins? ==> r == Step(item.instr, s)
  {
    match item
    case Block(_) => Err(UnsupportedInstruction(item))
    case Ins(i) => Step(i, s)
  }

  /** The left fold of the transitions over the top-level items: each is
      applied once, in order, and the first fault stops the run. */
  function Fold(code: seq<Ctrl>, s: State): Result<State, Fault>
    decreases |code|
  {
    if code == [] then Ok(s)
    else
      match Fold(code[..|code| - 1], s)
      case Err(f) => Err(f)
      case Ok(t) => StepItem(code[|code| - 1], t)
  }

  /** A fault stops the run: once a prefix faults, the whole fold does. */
  lemma {:induction false} FoldStopsAtFault(code: seq<Ctrl>, k: nat, s: State)
    requires k <= |code| && Fold(code[..k], s).Err?
    ensures Fold(code, s) == Fold(code[..k], s)
    decreases |code| - k
  {
    if k < |code| {
      assert code[..k + 1][..k] == code[..k];
      FoldStopsAtFault(code, k + 1, s);
    } else {
      assert code[..k] == code;
    }
  }

  /** What the executor computes: empty code fails on the unbound
      `instruction` (secd.py:143); otherwise the fold. */
  function Run(code: seq<Ctrl>, s: State): Result<State, Fault> {
    if code == [] then Err(NoInstruction) else Fold(code, s)
  }

  /** SECD.Executor (secd.py:133-145): one flat pass over the top-level list
      that reassigns the state; the control register is never read. */
  method Executor(code: seq<Ctrl>, state: State) returns (r: Result<State, Fault>)
    ensures r == Run(code, state)
  {
    var s := state;
    for i := 0 to |code|
      invariant Fold(code[..i], state) == Ok(s)
    {
      assert code[..i + 1][..i] == code[..i];
      match code[i] {
        case Block(_) =>
          FoldStopsAtFault(code, i + 1, state);
          return Err(UnsupportedInstruction(code[i]));
        case Ins(instruction) =>
          var next := Step(instruction, s);
          if next.Err? {
            FoldStopsAtFault(code, i + 1, state);
            return Err(next.error);
          }
          s := next.value;
      }
    }
    assert code[..|code|] == code;
    if |code| == 0 {
      return Err(NoInstruction);
    }
    return Ok(s);
  }
}
