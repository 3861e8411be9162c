# Constant-expression lowering, modelled in Dafny

This project models the `LowerCstExpr` module pass of `lib/Transforms/LowerCstExpr.cc`.
The pass removes constant expressions from a program's instructions. A constant
expression is a computation such as "the sum of two constants" or "the address
of element K of array A" that is encoded as a constant. For each use, the pass:

- builds an ordinary instruction with the expression's opcode, predicate, type
  and operands;
- inserts it immediately before the using instruction, or before the terminator
  of the incoming block when the user is a PHI node;
- makes the use refer to the new instruction.

A worklist repeats this until nothing is left. New instructions are put back on
the worklist, because their operands may hide further expressions.

The model has these parts:

- **Ir** (`ir.dfy`): the intermediate representation.
  - A pool of constants addressed by identity: leaves, aggregates (any
    non-expression constant with operands) and expressions `Expr(op, args,
    pred, ty)`.
  - Functions: sequences of blocks of instruction identities, plus a map from
    identity to instruction (PHI nodes, the five built families, other
    instructions, terminators).
  - `InsertBefore`, which inserts an instruction in front of another one.
  - `Evolves`, the relation "only inserted instructions and rewrote operands".
- **Scanner** (`scanner.dfy`): `hasCstExpr`, both overloads. A depth-first,
  left-to-right walk with one visited set threaded through it. The model also
  proves that the scan finds an expression exactly when one is reachable, and
  that what it finds is reachable.
- **Materializer** (`materializer.dfy`): `lowerCstExpr`, dispatching on the
  opcode family.
- **Driver** and **Properties** (`driver.dfy`, `properties.dfy`): one
  iteration of the worklist loop, for PHI and for non-PHI instructions, and
  what it guarantees.
- **Placement** and **Origins** (`placement.dfy`, `origins.dfy`): where the
  instructions one iteration creates sit, what each rewritten operand now
  holds, and which expression each new instruction computes.
- **Measure** and **DriverFacts** (`measure.dfy`, `driverfacts.dfy`): the
  measure that makes the loop terminate when no cycle of constants leads to
  an expression (`Measure.Ranked`).
- **Invariants** (`invariants.dfy`): what the worklist loop keeps true of the
  function relative to its input: operands trace back to the input's,
  new instructions are defined before their uses, and every constant comes
  from the input.
- **Pass** (`pass.dfy`): `runOnFunction` and `runOnModule` as methods with a
  worklist loop.

Results (`results.dfy`) holds `Option` and `Result`.

Both `assert`s that abort the pass are modelled as a `Failure`: an unhandled
expression opcode, and a PHI incoming block without a terminator. The model
proves that a failure only happens on such genuinely faulty input: the
unhandled expression sits inside an operand of the input function, or the
block lacks a terminator in the input function and is the incoming block of a
slot of one of its PHI nodes.

### Where the code does not do what it evidently intends

The model follows the code as written:

- **PHI coalescing.** The `j` loop of lines 189-196 is evidently meant to
  merge duplicate `(block, value)` incoming pairs, so that they share one
  materialized instruction: it starts at `j = i` and rewrites every slot equal
  to slot `i`. But slot `i` is overwritten in the first round (`j = i`), and
  the later slots are then compared with the *rewritten* slot `i`, which
  names the fresh instruction. So no later slot matches, and each offending
  slot gets an instruction of its own. `Driver.RewriteSlotsOnlyI` and
  `Properties.PhiNoCoalescing` state the code's behaviour.
- **Nested expressions, non-PHI case.** Because `hasCstExpr` looks inside
  aggregates when it seeds the worklist, one would expect no operand to
  contain an expression once the worklist is empty. For a non-PHI
  instruction, however, `replaceUsesOfWith` (line 208) only replaces operands
  that *are* the expression, so an aggregate operand that holds one is left
  as it was.
  `Properties.NestedKept` and `Properties.NestedStaysOffending` state this. The
  "nothing left" fixpoint is proved only for a function that uses expressions
  directly (`Properties.UsesDirectly`): every non-expression constant it holds,
  at any depth, hides no expression. Constants of the pool it does not reach
  are unconstrained (`Pass.UnrelatedNestingIgnored`). The PHI case replaces the
  whole incoming value.
- **Missing terminator.** Line 183 asks for the incoming block's terminator
  before it looks at the incoming value. A block without a terminator therefore
  aborts the pass even when that slot's value is clean (`Driver.LowerIncoming`).
  A block without a terminator that no PHI slot names is never looked at.

## Model

| member | source | states |
|---|---|---|
| Scanner.ScanValue | lib/Transforms/LowerCstExpr.cc:20-45 | The visited set only grows and always gains `V`. An already-visited `V` yields nothing and leaves the set as it was. An unvisited expression is returned itself. A non-constant yields nothing. Whatever is found is an expression of the pool. The recursion terminates on cyclic constant graphs, because the set of unvisited constants shrinks. |
| Scanner.ScanOperands | lib/Transforms/LowerCstExpr.cc:33-41 | The operand loop of an aggregate threads one visited set, which only grows. Whatever it returns is an expression of the pool. |
| Scanner.HasCstExpr | lib/Transforms/LowerCstExpr.cc:47-51 | Scans from an empty visited set. An expression is its own answer, a non-constant has none, and any answer is an expression of the pool. |
| Scanner.ScanValueSound | lib/Transforms/LowerCstExpr.cc:20-45 | Any expression the scan returns is reachable from the scanned value through operand edges of non-expression constants. |
| Scanner.ScanOperandsSound | lib/Transforms/LowerCstExpr.cc:33-41 | Any expression the operand loop returns from position `k` on is reachable from one of the operands at `k` or after. |
| Scanner.ScanValueComplete | lib/Transforms/LowerCstExpr.cc:20-45 | A scan that finds nothing has explored every value it added to the visited set: none is an expression, and all of its operands are visited. |
| Scanner.ScanOperandsComplete | lib/Transforms/LowerCstExpr.cc:33-41 | The operand loop finding nothing means every value it visited was explored. |
| Scanner.HasCstExprIffContainsExpr | lib/Transforms/LowerCstExpr.cc:20-51 | The public scan finds an expression if and only if some expression is reachable from the value through non-expression constants, even on cyclic graphs. What it finds is one of the reachable ones. |
| Materializer.Build | lib/Transforms/LowerCstExpr.cc:62-143 | The built instruction has the expression's opcode and all of its operands in order. The family decides the instruction kind (binary, cast, compare, select, GEP). A cast keeps the result type and a compare keeps the predicate. A GEP takes operand 0 as its base and operands 1..n-1 as its indices. |
| Materializer.LowerCstExpr | lib/Transforms/LowerCstExpr.cc:53-152 | Fails exactly when the opcode is outside the handled families, and then names that opcode. Otherwise the new instruction is fresh and computes the expression, no existing instruction changes, and the function only grows. |
| Materializer.LowerCstExprPlacement | lib/Transforms/LowerCstExpr.cc:53-152 | The new instruction sits immediately before the insertion location, which moves one place on. Apart from the new instruction, that block is unchanged, and so is every other block. |
| Ir.ReplaceUses | lib/Transforms/LowerCstExpr.cc:208 | Every operand slot that holds the replaced value now holds the new one, every other slot is kept, and the instruction keeps its kind, opcode, predicate, type and successors. |
| Ir.TerminatorOf | lib/Transforms/LowerCstExpr.cc:183 | The terminator of a block is an instruction of the function and sits at the block's last position. There is none exactly when the block is empty or its last instruction is not a terminator. |
| Ir.EvolvesKeepsBefore | lib/Transforms/LowerCstExpr.cc:173-213 | Inserting instructions and rewriting operands keep the order of the instructions already in a block, so an instruction placed before another by one iteration stays before it through all later ones. |
| Ir.InsertBeforeLocates | lib/Transforms/LowerCstExpr.cc:83-87 | The inserted instruction takes the position of the instruction it is inserted before, and that instruction moves one place on in the same block. |
| Driver.RewriteSlots | lib/Transforms/LowerCstExpr.cc:189-196 | The `j` loop keeps every block and every slot before `i`. Each slot either keeps its pair or takes the new value. Slot `i` itself takes the new value. |
| Driver.RewriteSlotsOnlyI | lib/Transforms/LowerCstExpr.cc:189-196 | For a value no later slot holds (a fresh instruction), the loop as written changes slot `i` and nothing else, so duplicate pairs are not coalesced. |
| Driver.LowerSlot | lib/Transforms/LowerCstExpr.cc:186-196 | Lowering one PHI slot fails exactly on an unhandled opcode. Otherwise it creates one fresh instruction computing the expression, makes slot `i` (and only slot `i`) refer to it, and changes no other instruction. Its position is stated by `Driver.LowerSlotPlaced`. |
| Driver.LowerSlotPlaced | lib/Transforms/LowerCstExpr.cc:183-188 | The instruction for a PHI slot is inserted before the terminator of the slot's incoming block: it takes the terminator's position, the terminator moves one place on, and the new instruction is the last one before it. |
| Driver.LowerUse | lib/Transforms/LowerCstExpr.cc:206-208 | Lowering one operand fails exactly on an unhandled opcode. Otherwise it creates one fresh instruction computing the expression and replaces every use of the expression in the instruction. No other instruction changes. Its position is stated by `Driver.LowerUsePlaced`. |
| Driver.LowerUsePlaced | lib/Transforms/LowerCstExpr.cc:206-207 | The instruction for a non-PHI operand is inserted before its user: it takes the user's position, the user moves one place on, so the new instruction sits in the user's block, earlier than the user. |
| Driver.LowerIncoming | lib/Transforms/LowerCstExpr.cc:181-199 | The PHI loop from slot `i` on fails exactly with the first fault among those slots: a block without a terminator, or an unhandled opcode. On success it changes no other instruction. It leaves earlier slots alone, keeps every clean slot, and gives each offending slot a new instruction of its own that computes the expression found; the instructions are numbered in slot order. |
| Driver.LowerIncomingAt | lib/Transforms/LowerCstExpr.cc:186-197 | The same, for a slot that holds an expression and whose block has a terminator: lowering that slot and then the rest meets the loop's contract. |
| Driver.LowerOperands | lib/Transforms/LowerCstExpr.cc:203-211 | The non-PHI loop from operand `i` on fails exactly with the first unhandled opcode among those operands. On success every operand is either kept or now names a new instruction computing it. Every expression operand from `i` on is replaced, and equal expression operands share one instruction. |
| Driver.LowerOperandsAt | lib/Transforms/LowerCstExpr.cc:205-210 | The same, for an operand that holds an expression: lowering that operand and then the rest meets the loop's contract. |
| Driver.Process | lib/Transforms/LowerCstExpr.cc:179-212 | One worklist iteration fails exactly when the instruction has a faulty slot or operand. On success, only inserted instructions appear and only this instruction's operands change, blocks and terminators are kept, and the created set is exactly the new instructions. The PHI or non-PHI lowering is as described above; where the new instructions sit is stated by `Placement.ProcessPlaced`. |
| Placement.LowerIncomingPlaced | lib/Transforms/LowerCstExpr.cc:181-199 | After the PHI loop from slot `i` on, every offending slot from `i` on keeps its block and names an instruction that sits in that block before its terminator. |
| Placement.LowerOperandsPlaced | lib/Transforms/LowerCstExpr.cc:203-211 | Every instruction the non-PHI loop creates from operand `i` on sits in the user's block before the user. |
| Placement.ProcessPlaced | lib/Transforms/LowerCstExpr.cc:179-212 | One iteration defines before it uses: each PHI slot it rewrites names an instruction before the terminator of the slot's incoming block, and each other operand it changes names an instruction earlier in the user's block, as does every instruction it creates. |
| Origins.ProcessReplaces | lib/Transforms/LowerCstExpr.cc:179-212 | After one iteration, each operand of the processed instruction is the operand it was, or an instruction of this iteration that computes the expression the scanner found in that operand. |
| Origins.LowerIncomingBuilds | lib/Transforms/LowerCstExpr.cc:181-199 | Every instruction the PHI loop creates from slot `i` on computes the expression the scanner found in one of those slots. |
| Origins.LowerOperandsBuilds | lib/Transforms/LowerCstExpr.cc:203-211 | Every instruction the non-PHI loop creates from operand `i` on computes the expression the scanner found in one of those operands. |
| Origins.ProcessBuilds | lib/Transforms/LowerCstExpr.cc:179-212 | Every instruction one iteration creates computes an expression the scanner found in an operand of the processed instruction. |
| DriverFacts.LowerIncomingPot | lib/Transforms/LowerCstExpr.cc:181-199 | The instructions the PHI loop creates from slot `i` on weigh at most what those slots' values weigh, in expressions of their tree unfolding. |
| DriverFacts.LowerOperandsPot | lib/Transforms/LowerCstExpr.cc:203-211 | The same bound for the non-PHI loop from operand `i` on. |
| DriverFacts.ProcessPot | lib/Transforms/LowerCstExpr.cc:173-213 | On a `Measure.Ranked` pool, the instructions one iteration adds to the worklist weigh strictly less in total than the instruction it removed. This is the termination argument of the worklist loop. |
| Properties.SlotsDistinct | lib/Transforms/LowerCstExpr.cc:181-197 | After the PHI loop, two different offending slots hold different instructions. |
| Properties.PhiNoCoalescing | lib/Transforms/LowerCstExpr.cc:189-196 | Two offending incoming slots of a processed PHI node never share an instruction, even when they held the same value for the same block: duplicates are not coalesced. |
| Properties.PhiCleaned | lib/Transforms/LowerCstExpr.cc:181-199 | After its processing, no incoming value of a PHI node holds an expression, even a nested one. |
| Properties.UsesShared | lib/Transforms/LowerCstExpr.cc:205-209 | In the non-PHI case, operands that were the same expression hold the same new instruction. |
| Properties.NestedKept | lib/Transforms/LowerCstExpr.cc:205-208 | In the non-PHI case, an operand that is not itself an expression is left unchanged, even when it contains one. |
| Properties.NestedStaysOffending | lib/Transforms/LowerCstExpr.cc:205-208 | So a non-PHI instruction with an expression nested inside an operand still needs lowering after processing. |
| Properties.NonPhiCleaned | lib/Transforms/LowerCstExpr.cc:203-211 | When the instruction's operands use expressions only directly, a processed non-PHI instruction has no operand holding an expression. |
| Properties.ProcessCleans | lib/Transforms/LowerCstExpr.cc:179-212 | Processing leaves an instruction nothing to lower: always for a PHI node, and for any other instruction when its operands use expressions only directly. |
| Properties.FoundFromFunction | lib/Transforms/LowerCstExpr.cc:20-51 | The scanner, run on a value that sits inside an operand of a function, finds only an expression that sits inside an operand of that function too. |
| Properties.UseFaultsGenuine | lib/Transforms/LowerCstExpr.cc:144-148 | A fault found among operands names an unhandled opcode of an expression that sits inside an operand of the function. |
| Properties.IncomingFaultsGenuine | lib/Transforms/LowerCstExpr.cc:183-184 | A fault found among PHI slots is either a block of the function that has no terminator and is the incoming block of one of those slots, or an unhandled opcode of an expression that sits inside an operand of the function. |
| Properties.NoPhiNoMissingTerminator | lib/Transforms/LowerCstExpr.cc:181-184 | A function without PHI nodes never has a genuine missing-terminator fault, whatever its blocks hold, because the terminator is only looked up for the incoming block of a PHI slot. |
| Properties.ProcessFaultGenuine | lib/Transforms/LowerCstExpr.cc:179-212 | A failing iteration fails only with a genuine fault of the input. |
| Invariants.FaithfulStart | lib/Transforms/LowerCstExpr.cc:157-171 | The loop's invariant holds of the input itself: its operands trace to themselves, and it uses no instruction numbered from its own `next` on. |
| Invariants.TracedStep | lib/Transforms/LowerCstExpr.cc:173-213 | One iteration keeps every instruction of the input, with as many operands, and each operand still either is the input's operand or names a new instruction shaped like the one built for the expression the scanner found in the input's operand. |
| Invariants.DefinedStep | lib/Transforms/LowerCstExpr.cc:173-213 | One iteration keeps every new instruction defined before its use: before the incoming block's terminator for a PHI slot, earlier in the user's block otherwise. |
| Invariants.RootedStep | lib/Transforms/LowerCstExpr.cc:173-213 | One iteration keeps every constant operand of the function inside an operand of the input. |
| Invariants.NoNewPhisStep | lib/Transforms/LowerCstExpr.cc:173-213 | One iteration creates no PHI node: each instruction it creates is built for an expression, and PHI nodes keep their kind. So every PHI node of the function is one of the input's. |
| Invariants.FaithfulStep | lib/Transforms/LowerCstExpr.cc:173-213 | One successful iteration keeps all four of the facts above. |
| Pass.HasOffendingOperand | lib/Transforms/LowerCstExpr.cc:163-167 | The operand loop answers yes if and only if some operand holds an expression. |
| Pass.CollectSeeds | lib/Transforms/LowerCstExpr.cc:157-168 | The initial worklist is exactly the set of instructions with an operand that holds an expression. |
| Pass.GenuineFaultBack | lib/Transforms/LowerCstExpr.cc:173-213 | A fault that is genuine in a function the loop has evolved was already genuine in the input function: blocks and terminators are kept, every PHI node of the evolved function is one of the input's with the same incoming blocks, and every constant the evolved function holds sits inside an operand of the input. |
| Pass.WorklistStep | lib/Transforms/LowerCstExpr.cc:173-213 | Taking one instruction off the worklist and adding what its processing created keeps the worklist within the function and strictly lowers the worklist's potential. |
| Pass.WorklistCovers | lib/Transforms/LowerCstExpr.cc:173-213 | When the instruction taken off is a PHI node or its operands use expressions only directly, a worklist holding every instruction that still needs lowering keeps holding all of them after one iteration. |
| Pass.RootedDirect | lib/Transforms/LowerCstExpr.cc:173-213 | If the input function uses expressions only directly, so does every instruction of any version the loop evolves from it, because each of their operands is a constant the input holds. |
| Pass.NestingPoolAccepted | lib/Transforms/LowerCstExpr.cc:20-51 | A pool in which an aggregate wraps an expression is well formed and `Measure.Ranked`, so the pass's contract covers it. |
| Pass.NestingPoolHides | lib/Transforms/LowerCstExpr.cc:20-51 | In that pool the scanner finds the expression inside the aggregate. |
| Pass.UnrelatedNestingIgnored | lib/Transforms/LowerCstExpr.cc:173-213 | A function that uses only the expression itself, not the aggregate around it, still uses expressions only directly, so the "nothing left to lower" clause of `Pass.Rewritten` applies to it. |
| Pass.RunOnFunction | lib/Transforms/LowerCstExpr.cc:154-215 | Reports a change if and only if the seed set is non-empty, and without a change returns the function unchanged. On success the result is `Pass.Rewritten` from the input. It is well formed, and only instructions were inserted and operands rewritten: no block or instruction is removed, every block keeps its instructions in their order and its terminator, and no instruction changes its kind, opcode, predicate, type or successors. Each operand of an input instruction either is what it was, or names a new instruction (numbered from the input's `next` on) shaped like the instruction built for the expression the scanner found in that operand. Every new instruction a PHI slot uses sits before the terminator of the slot's incoming block, and every one another instruction uses sits earlier in the user's block. When the input uses expressions only directly (`Properties.UsesDirectly`: every non-expression constant it holds, at any depth, hides no expression), no operand holds an expression afterwards. A failure is a genuine fault of the input: an unhandled expression that sits inside one of its operands, or a block without a terminator that is the incoming block of a slot of one of its PHI nodes. All of this, termination included, is proved on a `Measure.Ranked` pool, one where no cycle of constants leads to an expression. |
| Pass.RunOnModule | lib/Transforms/LowerCstExpr.cc:223-227 | Processes every function in order and reports a change if and only if some function had something to lower. Each result is `Pass.Rewritten` from its function, as by `runOnFunction`. A failure is a genuine fault of some function. |

## Left out

- Which source files are covered:
  - `tools/crabllvm-pp.cc`, with command-line handling, reading and writing of bitcode, and the pipeline of other passes, is not part of this model. It is I/O and orchestration over library code.
  - Pass registration (`ID`, the constructor, `createLowerCstExprPass`), `getPassName` and `getAnalysisUsage` are left out. They have no behaviour to model. The "preserves all" declaration is reflected only by `Ir.Evolves`: no block, instruction or terminator is removed; operands change, but no instruction changes its kind, opcode, predicate, type or successors, so the control-flow edges stay as they were.
- Semantics and names:
  - Opcodes, predicates and types are opaque tags. Arithmetic, cast semantics and type checking are not modelled.
  - The name given to a new instruction (`getName()`) is not modelled.
  - Wrap and exactness flags (`nsw`, `nuw`, `exact`) and a GEP's `inbounds` are not modelled. `BinaryOperator::Create` (lines 83-87) and `GetElementPtrInst::Create` (lines 137-140) do not copy them from the expression, so the new instruction can lose them. The model's instruction agrees with the expression only in kind, opcode, predicate, type and operands.
- Worklist and use lists:
  - LLVM's use lists and the iteration order of `SmallPtrSet` are not modelled. The worklist is a set, and the instruction taken next is an arbitrary member (`:|`). Every property holds for every choice.
- Dominance:
  - Placement is stated within a block, not through a dominator tree: a new instruction that a non-PHI instruction uses sits earlier in the user's block, and one that a PHI slot uses sits in the slot's incoming block before its terminator (`Invariants.DefinedBeforeUse`). That such a position dominates the use follows from the block positions, but no dominator tree is modelled and dominance is not stated.
  - `Invariants.DefinedBeforeUse` speaks only of the new instructions. That the input's own operands are defined before their uses is the input's property, which the model does not assume.
- Failure handling:
  - The `assert`s at lines 147, 150 and 184 are modelled as a `Failure` that stops the pass, which is what a build with assertions does.
  - In a build without assertions, the code differs from the model in two ways. At lines 147 and 150 it goes on with a null instruction, which is undefined behaviour and is not modelled. At line 184, when the slot's value is clean, the null terminator is never used (it is only used at line 188), so such a build proceeds normally where the model fails with `MissingTerminator`.
  - `Materializer.LowerCstExpr` does not model the `assert(NewInst)` of line 150 separately. Every handled family produces an instruction, so the assert can only fail where the `default` case already failed.
- Termination and the fixpoint:
  - `Pass.RunOnFunction`: all of its contract, the safety clauses as well as termination, is proved only on a `Measure.Ranked` pool. In such a pool, the constants from which an expression can be reached are ordered by identity: each refers only to such constants of smaller identity (when no cycle leads to an expression, identities can always be chosen this way). This excludes every pool with a cycle of constants from which an expression can be reached. Cycles that lead to no expression are allowed, for example a self-referential global whose initializer holds no expression, such as an intrusive list head (`Measure.SelfReferenceRanked`).
  - On some excluded input the code really does loop forever. In LLVM a global variable is a constant whose initializer is its operand. A global whose initializer holds an expression over that same global makes every iteration create a new instruction with that global as operand, which still needs lowering. On other excluded input the code stops, and the model states nothing about it: for example a global whose initializer refers both to itself and to an expression over a plain constant. The safety clauses are not stated apart from termination, because the loop's termination measure is part of the method's proof.
  - `Pass.RunOnModule`: every function of a module shares one constant pool, so the same condition applies to the whole module. One constant cycle leading to an expression, anywhere in the pool, puts every function of the module outside the proved domain, even a function that never uses it.
  - `Pass.RunOnFunction` states the "nothing left to lower" fixpoint only for an input that uses expressions only directly (`Properties.UsesDirectly`). The condition is about the constants the function holds, not the whole pool. The code does not reach that fixpoint when an expression is nested in an aggregate operand of a non-PHI instruction; see `Properties.NestedStaysOffending`.
- Shape of new instructions:
  - `Pass.RunOnFunction`: a new instruction an operand names is stated to have the shape of the instruction built for the expression (kind, opcode, predicate, type, operand count), not its exact operands, because later iterations may have lowered its own operands in turn. `Origins.ProcessReplaces` states the exact instruction for one iteration.
- Scanner order:
  - `Scanner.ScanOperands`: its contract does not restate the left-to-right, first-found order over the operands. That order is the function's definition. The contracts state what is found (soundness and completeness) rather than which of several reachable expressions.
