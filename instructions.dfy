/** The six SECD instructions (secd.py:12-72). Code that an instruction carries
    (the body of a closure, the two branches of a test) is nested inside it,
    not spliced into the surrounding sequence. */
module Instructions {
  datatype Instr =
    | LDB(value: bool)                               // load a boolean constant
    | LD(index: int)                                 // load an environment slot
    | MKCLO(code: seq<Instr>)                        // build a closure over the current environment
    | AP                                             // apply a closure to an argument
    | RET                                            // return to the caller saved on the dump
    | TEST(code1: seq<Instr>, code2: seq<Instr>)     // choose a branch on the popped value

  /** Number of instructions, counting the nested ones; a termination measure. */
  function InstrSize(i: Instr): nat {
    match i
    case MKCLO(c) => 1 + CodeSize(c)
    case TEST(c1, c2) => 1 + CodeSize(c1) + CodeSize(c2)
    case _ => 1
  }

  function CodeSize(code: seq<Instr>): nat {
    if code == [] then 0 else InstrSize(code[0]) + CodeSize(code[1..])
  }

  /** Dropping the last instruction makes code strictly smaller. */
  lemma {:induction false} CodeSizeLast(code: seq<Instr>)
    requires code != []
    ensures CodeSize(code) == CodeSize(code[..|code| - 1]) + InstrSize(code[|code| - 1])
  {
    if |code| > 1 {
      CodeSizeLast(code[1..]);
      assert code[1..][..|code| - 2] == code[..|code| - 1][1..];
    } else {
      assert code[..0] == [];
    }
  }
}
