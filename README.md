# SECD compiler and machine, in Dafny

This project models the core of a small SECD evaluator written in Python
(`secd.py`). It has two parts:

- **A compiler.** It lowers lambda-calculus terms to SECD instructions. The
  terms are nested Python lists: booleans, variable names,
  `['lambda', x, body]`, `['if', c, t, f]` and two-element applications.
  Each rule is a pure function. A compile-time scope (register `e` of the
  compiler's state) resolves a name to its innermost position.
- **The machine.** Six instruction transitions act on the four registers
  `[l, pi, e, d]` (control, operand stack, environment, dump). An executor
  loop drives them over the compiled code.

Modules, one per component:

| file | module | models |
|---|---|---|
| `wrappers.dfy` | `Wrappers` | `Option`, and `Result` for Python's exceptions |
| `instructions.dfy` | `Instructions` | the six instruction classes |
| `compiler.dfy` | `Compiler` | the rules of `SECD._compiler`, `list_selector`, the type dispatch of `Compiler.compile_expr` and `Compiler.compile` |
| `compiler_props.dfy` | `CompilerProps` | what each surface form compiles to, and which forms are rejected |
| `terms.dfy` | `Terms` | a reference compiler in two phases: classify and resolve into a nameless term, then generate code. It proves the fused rules equal the two phases, and that generated code decodes back to its term |
| `machine.dfy` | `Machine` | the `execute` methods as state transitions; `SECD.Executor` as a loop method proved against a left fold |
| `machine_props.dfy` | `MachineProps` | how runs compose, dump discipline, truthiness, and the departures from the comments |
| `example.dfy` | `Example` | the term of `example.py`, compiled and run |

Modelling choices:

- **Stack order.** The operand stack and the dump are sequences whose top is
  the last element. This matches Python's `append` and `pop`.
- **Control register.** Its items are `Ins(instruction)` or
  `Block(code list)`. `TEST` puts the chosen code list in front of `l` as a
  single element.
- **Scope entries.** A lambda parameter may be any node, because Python never
  checks that it is a string. Only a `Name` entry can match a variable.
- **Negative indices.** `LD` carries an `int`, and the machine reads `e[i]`
  with Python's negative indexing. The compiler only ever emits indices in
  `0 .. |scope| - 1`.
- **Errors.** Every exception the compiler rules and the machine's transitions
  raise on their own becomes an `Err` value (Python's recursion limit is the
  one exception; see "Left out"):
  - `UnboundVariable`;
  - `EmptyForm`, from `args[0]` of `[]`;
  - `UnknownForm`, when `list_selector` returns `None` and it is called;
  - `ArityMismatch`, from tuple unpacking;
  - `UnsupportedExpression`, when no rule matches;
  - `StackUnderflow` and `DumpUnderflow`, from `pop` on an empty list;
  - `NotAClosure`, from unpacking a boolean in `AP`;
  - `EnvIndexOutOfRange`;
  - `UnsupportedInstruction`;
  - `NoInstruction`, on empty code, where `instruction` is unbound at
    secd.py:143.

## Where the code and its comments disagree

The model follows the code. Each departure is shown by a lemma.

- **AP** (secd.py:53 and 61). The comment says the result is
  `[l', [], v:e', [l, pi, e]:d]`. The code leaves `[v]` as the stack and the
  closure's environment unchanged. So a body's `LD(0)` does not reach the
  argument, though the compiler put the parameter at slot 0. See
  `MachineProps.ApDoesNotBindArgument`.
- **RET** (secd.py:65 and 70). The comment puts `v` on top of `pi'`. The code
  builds `[v] + pi_prime`, which puts `v` at the bottom of the stack. See
  `MachineProps.RetPutsValueAtBottom`.
- **Executor** (secd.py:136-143). It makes one flat pass over the top-level
  list and never reads `l`. A branch chosen by `TEST`, and a closure body
  entered by `AP`, are left in `l` and never run. The classical SECD machine
  would run them. In the same spirit, `RET` with an empty dump is a fault
  here, not completion of the run. See:
  - `MachineProps.TestBranchIsNotExecuted`;
  - `MachineProps.ControlOnlyAccumulatesBranches`;
  - `Example.ExampleRuns`;
  - `Example.NegationIsNotEvaluated`.

  Because the pass is a walk over a finite list, every run terminates. No
  fuel is needed.

## Model

| member | source | states |
|---|---|---|
| `Compiler.IndexOf` | secd.py:86-87 | `e.index(name)`: a position in the scope that holds the name, with no earlier position holding it |
| `Compiler.CompileVariable` | secd.py:82-89 | succeeds exactly when the name is bound; then it is one `LD` of the innermost binding, inside the scope; otherwise `UnboundVariable(name)` and no code |
| `Compiler.ListSelector` | secd.py:114-126 | fails exactly on an empty list or on a string head other than `lambda`/`if`/`application`; picks the lambda rule exactly for head `'lambda'`, the if rule exactly for `'if'`, the application rule otherwise |
| `Compiler.CompileExpr` | definitions.py:82-88 | whatever a term compiles to is non-empty, and every `LD` in it, at every closure nesting depth k, addresses a slot below the scope's length plus k |
| `Compiler.CompileList` | secd.py:128-131 | compiled code of a list form is non-empty and well-scoped |
| `Compiler.CompileLambda` | secd.py:91-97 | a lambda compiles to exactly one `MKCLO`, well-scoped under the outer scope |
| `Compiler.CompileIf` | secd.py:99-105 | a conditional's code ends in a `TEST`, after a non-empty condition, and is well-scoped |
| `Compiler.CompileApplication` | secd.py:107-112 | an application's code ends in `AP`, after non-empty function and argument code, and is well-scoped |
| `Compiler.Compile` | definitions.py:90-100 | the entry point returns non-empty code or an error value; under a falsy state no `LD` appears outside a closure, and inside k nested closures every `LD` addresses a slot below k |
| `CompilerProps.CompileBoolLiteral` | secd.py:77-80 | a boolean, dispatched by `CompileExpr` to `Compiler.CompileBool`, compiles to exactly `[LDB(b)]` |
| `CompilerProps.CompileLambdaForm` | secd.py:91-97 | `['lambda', x, body]` succeeds exactly when the body compiles under `[x] + scope`; the result has length 1, a `MKCLO` whose code is that body code followed by `RET`; a body error is the form's error |
| `CompilerProps.CompileIfForm` | secd.py:99-105 | `['if', c, t, f]` is the condition's code plus one `TEST` carrying both branches unspliced; it fails exactly when a part fails, with the first failing part's error |
| `CompilerProps.CompileApplicationForm` | secd.py:107-112 | a two-element list with a non-string head is function code, argument code, `AP`; it fails exactly when a part fails, with the first error |
| `CompilerProps.ApplicationTagIsAVariable` | secd.py:107-118 | the `'application'` tag selects the application rule, which compiles the tag itself as a variable: unbound, the form fails with `UnboundVariable("application")`; bound, it succeeds exactly when the argument compiles, with the argument's error otherwise, and its code is `LD` of the tag's innermost slot, the argument code, then `AP` |
| `CompilerProps.CompileRejectsUnknownTag` | secd.py:114-131 | any other string head is rejected with `UnknownForm`, even when it is a bound name |
| `CompilerProps.CompileRejectsWrongArity` | secd.py:91-112 | a recognised form of the wrong length is rejected with `ArityMismatch` carrying that length |
| `CompilerProps.CompileRejectsOtherShapes` | definitions.py:82-86 | an empty list fails with `EmptyForm`, a value of an unsupported type with `UnsupportedExpression` |
| `CompilerProps.FalsyStateIsEmptyScope` | definitions.py:90-92 | a falsy state compiles exactly as empty registers do |
| `Terms.CompileIsResolveThenEmit` | secd.py:76-131 | the fused rules equal classification and name resolution into a nameless term followed by code generation, errors included |
| `Terms.DecodeEmit` | secd.py:91-112 | decoding the code generated for a term, followed by any code, recognises exactly that term first |
| `Terms.DecodeTermEmit` | secd.py:91-112 | generated code decodes back to its term |
| `Terms.CompiledCodeDecodes` | secd.py:76-131 | compiled code decodes to the resolved term of its source |
| `Terms.CompileInjective` | secd.py:76-131 | two terms with equal compiled code have equal resolved terms: compiling loses only the names |
| `Machine.ExecLDB` | secd.py:12-19 | `LDB(b)` never fails; it pushes `b` and leaves the stack below, `l`, `e` and `d` unchanged |
| `Machine.ExecLD` | secd.py:32-40 | `LD(i)` succeeds exactly when `e[i]` exists, with Python's negative indices; it pushes that value and nothing else changes; otherwise `EnvIndexOutOfRange(i)` |
| `Machine.ExecMKCLO` | secd.py:42-49 | `MKCLO(c)` pushes a closure of `c` over a snapshot equal to the current `e`; nothing else changes |
| `Machine.ExecTEST` | secd.py:21-30 | `TEST` succeeds exactly on a non-empty stack; it pops one value; it puts the first code list in front of `l` when the value is truthy, else the second; `e` and `d` stay unchanged; an empty stack is `StackUnderflow` |
| `Machine.ExecAP` | secd.py:51-61 | `AP` succeeds exactly when the second value from the top is a closure; it pushes exactly one frame of the caller's `l`, the stack below the two popped values, and `e`; `l` and `e` become the closure's; the stack is `[v]`; the error kind is named |
| `Machine.ExecRET` | secd.py:63-72 | `RET` succeeds exactly on a non-empty stack and dump; it pops exactly one frame and resumes its `l` and `e` with stack `[v] + pi'`; the error kind is named |
| `Machine.FoldStopsAtFault` | secd.py:136-141 | once a prefix of the code faults, the whole pass ends with that fault |
| `Machine.Step` | secd.py:141 | dispatching one instruction: `LDB` and `MKCLO` never fail; `AP` adds exactly one dump frame on top of the old dump, `RET` removes exactly the top one, and every other instruction leaves the dump unchanged; no instruction faults as unsupported or missing |
| `Machine.StepItem` | secd.py:137-141 | a control item that is not an instruction is refused with `UnsupportedInstruction` carrying it, and only such an item is; an instruction is dispatched to `Step` |
| `Machine.Executor` | secd.py:133-145 | the loop's result is exactly `Run`: empty code is `NoInstruction`, otherwise the left fold of the transitions over the top-level items |
| `MachineProps.FoldAppend` | secd.py:136-141 | a pass over `a + b` is a pass over `a`, then over `b` from where it stopped |
| `MachineProps.RunInOrder` | secd.py:136-141 | the first item is applied first, exactly once, and the rest continue from its result |
| `MachineProps.RunAcceptsOnlyInstructions` | secd.py:136-138 | a successful run's code consists only of instructions; any other element makes the run fail |
| `MachineProps.DumpDepth` | secd.py:51-72 | over a successful pass the dump grows by the number of `AP`s minus the number of `RET`s |
| `MachineProps.ControlOnlyAccumulatesBranches` | secd.py:21-30 | without `AP` and `RET` a pass keeps `e` and `d`, keeps the initial control as a suffix of `l`, and only stacks unexecuted branch blocks in front of it |
| `MachineProps.ApThenRetRestoresCaller` | secd.py:51-72 | `AP` then `RET` restores the caller's `l`, `e` and dump, with stack `[v] + caller_stack` |
| `MachineProps.TestPicksSecondOnlyOnFalse` | secd.py:26-30 | only `False` selects the second code list; a closure, truthy as a non-empty list, selects the first |
| `MachineProps.ApDoesNotBindArgument` | secd.py:53-61 | after `AP` the environment is the captured one, without the argument, and the stack is `[v]`; under an empty captured environment `LD(0)` fails |
| `MachineProps.RetPutsValueAtBottom` | secd.py:65-72 | after `RET` the returned value is at the bottom of the stack and the top is the caller's old top |
| `MachineProps.TestBranchIsNotExecuted` | secd.py:134-145 | a pass over `LDB(b); TEST(c1, c2)` only puts the chosen branch in front of `l`; the stack, `e` and `d` are as before |
| `Example.ExampleCompiles` | example.py:4-6 | the example term compiles to `[MKCLO([LD(0), TEST([LDB(b)], [LDB(not b)]), RET]), LDB(arg), AP]` |
| `Example.ExampleRuns` | example.py:8 | running it from empty registers leaves the closure code in `l`, `[arg]` on the stack, an empty `e` and one frame `[[], [], []]` |
| `Example.NegationIsNotEvaluated` | secd.py:134-145 | with a negating body applied to `True` the final stack is still `[True]`: the body is never run |

## Left out

- `SECD.execute(code)` with no state. Python would fail to unpack `None` on the first instruction. The model's executor always takes a state.
- The `execution` trace list of the executor (secd.py:135, 140, 143). It is written but never returned.
- In-place mutation and aliasing. The source appends to and pops from the caller's own `pi` and `d` lists, and a fault can leave them partly changed, for example `AP` popping `v` before failing. The model treats registers as values and returns only the result or the fault.
- Initial registers holding arbitrary Python objects. Runtime values are only booleans and closures. Control items are only instructions and code lists.
- A compiler state that is truthy but not a four-element list. The model takes the scope (register `e`) directly.
- The reflective machinery of definitions.py: type checks in `Instruction.__init__`, `__eq__`, `__str__`, `Code` formatting, the `Compiler.rule` registry and the `Machine` interface. Datatypes give structural equality and fixed field types.
- The `error_as_value` switch. Every error is returned as a value.
- Exception messages. Each error is a kind with its data, not a text.
- Python's recursion limit. A term nested several hundred levels deep makes `compile_expr`, `compile_list` and the form rules (definitions.py:88, secd.py:96, 102, 110, 131) raise `RecursionError`. The model's compiler has no depth bound and compiles such a term.
