/** Properties of the machine of secd.py as written: how the executor's pass
    composes, the dump discipline of AP and RET, and what the flat pass
    leaves unexecuted. */
module MachineProps {
  import opened Wrappers
  import opened Instructions
  import opened Machine

  /** Continue a pass with `code` from the outcome of an earlier one. */
  function Then(r: Result<State, Fault>, code: seq<Ctrl>): Result<State, Fault> {
    match r
    case Err(f) => Err(f)
    case Ok(t) => Fold(code, t)
  }

  /** Running `a + b` is running `a`, then `b` from where `a` stopped. */
  lemma {:induction false} FoldAppend(a: seq<Ctrl>, b: seq<Ctrl>, s: State)
    ensures Fold(a + b, s) == Then(Fold(a, s), b)
    decreases |b|
  {
    if b == [] {
      assert a + b == a;
    } else {
      var b' := b[..|b| - 1];
      assert (a + b)[..|a + b| - 1] == a + b';
      assert (a + b)[|a + b| - 1] == b[|b| - 1];
      FoldAppend(a, b', s);
    }
  }

  /** The executor applies the first item before any other, exactly once. */
  lemma RunInOrder(item: Ctrl, rest: seq<Ctrl>, s: State)
    ensures Run([item] + rest, s) == Then(StepItem(item, s), rest)
  {
    FoldAppend([item], rest, s);
    assert [item][..0] == [];
  }

  /** The executor succeeds only on code made entirely of instructions. */
  lemma RunAcceptsOnlyInstructions(code: seq<Ctrl>, s: State)
    ensures Run(code, s).Ok? ==> forall k :: 0 <= k < |code| ==> code[k].Ins?
  {
    forall k | 0 <= k < |code| && code[k].Block?
      ensures Run(code, s).Err?
    {
      assert code[..k + 1][..k] == code[..k];
      FoldStopsAtFault(code, k + 1, s);
    }
  }

  /** Dump discipline over a whole pass: every AP adds one frame, every RET
      removes one, nothing else touches the dump. */
  lemma {:induction false} DumpDepth(code: seq<Ctrl>, s: State)
    requires Fold(code, s).Ok?
    ensures |Fold(code, s).value.d| + multiset(code)[Ins(RET)] == |s.d| + multiset(code)[Ins(AP)]
    decreases |code|
  {
    if code != [] {
      var init := code[..|code| - 1];
      var last := code[|code| - 1];
      assert code == init + [last];
      assert multiset(code) == multiset(init) + multiset{last};
      DumpDepth(init, s);
    }
  }

  /** One step of an instruction other than AP and RET keeps `e` and `d`,
      and either keeps `l` or puts one block in front of it. */
  lemma StepKeepsControl(i: Instr, u: State)
    requires i != AP && i != RET && Step(i, u).Ok?
    ensures var t := Step(i, u).value;
      t.e == u.e && t.d == u.d &&
      (t.l == u.l || (|t.l| == |u.l| + 1 && t.l[0].Block? && t.l[1..] == u.l))
  {
  }

  /** Without AP and RET, a pass never consumes control: each TEST only puts
      its chosen branch, unexecuted, in front of the initial control, and
      the environment and the dump stay as they were. */
  lemma {:induction false} ControlOnlyAccumulatesBranches(code: seq<Ctrl>, s: State)
    requires forall k :: 0 <= k < |code| ==> code[k].Ins? && code[k].instr != AP && code[k].instr != RET
    requires Fold(code, s).Ok?
    ensures var t := Fold(code, s).value;
      t.e == s.e && t.d == s.d && |t.l| >= |s.l| &&
      t.l[|t.l| - |s.l|..] == s.l &&
      forall k :: 0 <= k < |t.l| - |s.l| ==> t.l[k].Block?
    decreases |code|
  {
    if code != [] {
      var init := code[..|code| - 1];
      ControlOnlyAccumulatesBranches(init, s);
      var u := Fold(init, s).value;
      var i := code[|code| - 1].instr;
      assert Fold(code, s) == Step(i, u);
      StepKeepsControl(i, u);
      var t := Step(i, u).value;
      if t.l != u.l {
        assert t.l == [t.l[0]] + u.l;
        assert t.l[|t.l| - |s.l|..] == u.l[|u.l| - |s.l|..];
      }
    }
  }

  /** AP immediately followed by RET gives the caller back its control,
      environment and dump, with the argument in front of its stack. */
  lemma ApThenRetRestoresCaller(s: State)
    requires |s.pi| >= 2 && s.pi[|s.pi| - 2].Clo?
    ensures Run([Ins(AP), Ins(RET)], s) ==
      Ok(State(s.l, [s.pi[|s.pi| - 1]] + s.pi[..|s.pi| - 2], s.e, s.d))
  {
    assert [Ins(AP), Ins(RET)] == [Ins(AP)] + [Ins(RET)];
    RunInOrder(Ins(AP), [Ins(RET)], s);
    var t := ExecAP(s).value;
    assert [Ins(RET)][..0] == [];
    assert Fold([Ins(RET)], t) == ExecRET(t);
  }

  /** TEST follows Python truthiness: only `False` selects the second code
      list; a closure, being a non-empty list, selects the first. */
  lemma TestPicksSecondOnlyOnFalse(c1: seq<Instr>, c2: seq<Instr>, s: State)
    requires |s.pi| > 0
    ensures ExecTEST(c1, c2, s).Ok?
    ensures ExecTEST(c1, c2, s).value.l[0] == if s.pi[|s.pi| - 1] == Bool(false) then Block(c2) else Block(c1)
  {
  }

  /** Where the code departs from AP's comment (secd.py:53 against 61): the
      argument stays as the whole stack and is not added to the closure's
      environment, so a body's `LD(0)` does not reach it, and under an empty
      captured environment fails. */
  lemma ApDoesNotBindArgument(s: State, code: seq<Instr>, env: seq<Value>, v: Value)
    requires |s.pi| >= 2 && s.pi[|s.pi| - 2] == Clo(code, env) && s.pi[|s.pi| - 1] == v
    ensures ExecAP(s).Ok?
    ensures ExecAP(s).value.e == env && ExecAP(s).value.pi == [v]
    ensures env == [] ==> ExecLD(0, ExecAP(s).value) == Err(EnvIndexOutOfRange(0))
  {
  }

  /** Where the code departs from RET's comment (secd.py:65 against 70): the
      returned value goes to the bottom of the caller's stack, so the next
      pop after RET sees the caller's old top, not the returned value. */
  lemma RetPutsValueAtBottom(s: State)
    requires |s.pi| > 0 && |s.d| > 0 && |s.d[|s.d| - 1].pi| > 0
    ensures ExecRET(s).Ok?
    ensures var t := ExecRET(s).value; var callerPi := s.d[|s.d| - 1].pi;
      t.pi[0] == s.pi[|s.pi| - 1] && t.pi[|t.pi| - 1] == callerPi[|callerPi| - 1]
  {
  }

  /** The executor's single flat pass: a conditional's branch is selected
      but never run; it is left in the control register. */
  lemma TestBranchIsNotExecuted(b: bool, c1: seq<Instr>, c2: seq<Instr>, s: State)
    ensures Run([Ins(LDB(b)), Ins(TEST(c1, c2))], s) ==
      Ok(State([Block(if b then c1 else c2)] + s.l, s.pi, s.e, s.d))
  {
    assert [Ins(LDB(b)), Ins(TEST(c1, c2))] == [Ins(LDB(b))] + [Ins(TEST(c1, c2))];
    RunInOrder(Ins(LDB(b)), [Ins(TEST(c1, c2))], s);
    var t := ExecLDB(b, s).value;
    assert [Ins(TEST(c1, c2))][..0] == [];
    assert Fold([Ins(TEST(c1, c2))], t) == ExecTEST(c1, c2, t);
    assert (s.pi + [Bool(b)])[..|s.pi|] == s.pi;
  }
}
