# A verified model of Joker's core

Joker compiles a script in one pass, without building a tree, into bytes for a stack machine. It brings its own
closures, hash table, string interning, garbage collector, block allocator and lock-free object pool. This project
models those parts in Dafny and proves what they are for. `dafny verify dfyconfig.toml` checks all of it.

## How it is laid out

**From tokens to the final stack.** The subset is i32, `bool` and `None` values, locals, every unary and binary operator,
`and`, `or`, the ternary, assignment, blocks, `var`, `if`, `while`, `for`, `loop`, `break`, `continue` and literal
`match`.

- `Syntax`, `Arith`, `Semantics`: trees, and an evaluator that knows names and values but no bytes and no slots.
- `Bytecode`: instructions, their bytes, and the machine as a step function over (ip, stack). `Arithmetic`: what a step
  over an operator computes, in plain integers, without reference to `Arith`.
- `Grammar`: precedence climbing and the statements, as functions from tokens to trees. `Forms` and `Texts` are the ways
  expressions and statements can be written, optional tokens included, and `Readings` proves that the grammar reads these
  and nothing else. `Grouping` gives the order of the operators as one list. `Printing` prints expressions with no
  parenthesis too many; `Showing` prints every tree that scripts can have.
- `CodeGen`: the bytes of a tree as a function. It is what the one-pass compiler is measured against.
- `Emission`, `ExprEmission`, `StmtEmission`, `MatchEmission`, `SinglePass`: class `Compiler`, which consumes tokens and
  appends to and patches a code buffer exactly as `src/parser.c` does, and is proved to write what `CodeGen` says of the
  tree that `Grammar` reads.
- `StackSemantics`: an evaluator over raw stacks, slots and heights, for every tree whether or not its code is right.
- `Layout`, `ExprCorrect`, `StmtCorrect`: running the bytes of `CodeGen` does what `StackSemantics` says, for every
  statement: it ends, faults or runs on with it.
- `Acceptance`: which scripts compile, from names, counts and sizes that are read off the trees.
- `Agreement`: on programs the emitter handles, `StackSemantics` is `Semantics`. `Heights`: which statements keep the
  stack's height, exactly. `Limits`: where emitter and language part company, each case with the guard that decides it.
- `Boundaries`: every jump of a finished chunk lands on an instruction.
- `Machine`: class `VirtualMachine`, the handlers over a stack array. `EndToEnd` puts the pieces together for whole
  scripts.

**Closures.** `Closures` holds the chain of compilers and its (is_local, index) descriptors; `OpenUpvalues` holds the
linked list of upvalues that realises them at run time.

**The pool.** `Pool` has threads as small state machines, one atomic access to a step, interleaved in every way, under
sequential consistency and with versions that do not wrap.

**Tables and memory.** `Hashing`, `HashTable`, `Interning`, `Collector`, `Allocator`, `LineTable`.

**Text.** `Scanning` and `Formatter`.

A method of a class is proved against a function of the old state; the lemmas beside it are about that function.

## Where the code is followed against its comments

- `src/hashmap.c:52-56` says a lookup that fails returns NULL. `find_entry` returns the first tombstone on the way, or
  the empty slot; `FindEntry` states that.
- `src/parser.c:467-472` says there can be 127 upvalues. The guard allows 128, and `UPVALUES_MAX` is 128.
- `src/chunk.c:30` takes an index to be in range. `get_rle_line` has a branch for one that is not, and for a negative
  index it answers the first line; both are in `GetRleLine`.
- The drawing above `capture_upvalue` (`src/upvalue.c:53-68`) has open upvalues only. Closed ones stay on the list, and
  they come first since a heap address compares above the stack; `Captures.Valid` says so.

## Properties that fail, and exactly when they hold

- `pool_alloc` can return NULL while a node is free (`Pool.NullWithNodesLeft`). The load that decides it is right about
  its own list, so the whole pool is empty then if and only if the other list is (`Pool.NullIsRight`); a NULL decided on
  the head list means that list is empty for good (`Pool.NullLeavesNoHead`); with no other call in progress NULL means
  that both lists are empty (`Pool.AllocAlone`).
- A resolved upvalue leads to its variable if and only if the variable's slot is below 128 (`Closures.AddressedRight`).
- A name that an enclosing function declares and has defined is found if and only if no function from there inwards has
  128 descriptors already: a full table refuses even a variable it has a descriptor for, since it is never searched
  (`Closures.Compilers.ResolveUpvalue`, `Closures.Compilers.AddUpvalue`).
- A `match` keeps the stack's height in every way through it if and only if no arm of it, nor of a `match` nested in an
  arm, has a variable in its own scope (`Heights.MatchKeepsIffClear`). One arm is too high by the number of its variables
  when taken and too low by it when not (`Limits.ArmKeepsHeight`), with a program of twenty bytes for either
  (`Limits.OneVariableRuns`).
- A variable reads its own value if and only if the stack was as high as there were locals when it was declared, or the
  value in its slot happens to be the same (`Limits.VariableReads`).
- A `break` lands on its loop's end if and only if it is the first in its loop (`Limits.BreakLands`). In a body that keeps
  the height otherwise, it lands at the right height if and only if no variable was declared and no arm entered since the
  loop began, and a `continue` comes back as many values too high as it is under variables and arms
  (`Heights.LoopLeft`, `Limits.BreakKeeps`, `Limits.ContinueKeeps`). `Limits.BreakInArm` and `Limits.ContinueInArm` are
  programs that declare nothing and fail.
- Returning from a function keeps the value of every captured variable but one in slot 0 (`OpenUpvalues.Captures.Return`).
- A word taken for a keyword is spelled like that keyword unless it is a longer word starting with `fn`
  (`Scanning.KeywordSpelling`).
- Freeing needs a header that names the block's part; the last block of a part has none, and a part of the largest class
  has no other block (`Allocator.NeverFreed`).

## Model

| member | source | states |
|---|---|---|
| `EndToEnd.CompiledRuns` | src/parser.c:601-625 | For every script that compiles and that the emitter handles: the machine gets from byte 0 to the end of the emitted bytes with a stack if and only if the evaluator finishes with those values, one to a slot; where the evaluator faults the machine faults, and where it runs on so does the machine. |
| `EndToEnd.CompiledExactly` | src/parser.c:1020-1541 | For every script that compiles, without exception: the machine gets to the end of the bytes with a stack if and only if the trees, read as stack operations, leave that stack. |
| `EndToEnd.CompiledMoves` | src/vm.c:1150-2188 | The bytes of every script end, fault or run on exactly as its trees do, and no run leaves the code by a loop exit that is not there. |
| `EndToEnd.CompiledCompletes` | src/vm.c:1150-2188 | Whenever the trees get to the end there are a stack size and a step count from which on every machine completes the emitted bytes. |
| `EndToEnd.Interpret` | src/vm.c:1081-1092 | Compiling and then running on real arrays succeeds if and only if the tokens compile and the step function gets to the end within the given room and steps; the stack it returns is the one the trees leave, and for a script the emitter handles the evaluator's values. |
| `SinglePass.Compile` | src/parser.c:601-607 | The one-pass compiler takes statements until the tokens end; it accepts exactly the token lists that the grammar reads as statements without a compile error, and its patched buffer and constants are their code. |
| `SinglePass.Compiler.ParsePrecedence` | src/parser.c:1478-1541 | Appends exactly the code of the tree that precedence climbing reads at this level, leaves the tokens after it, and fails exactly when there is no such tree or it has a compile error. |
| `SinglePass.Compiler.NamedVariable` | src/parser.c:988-1013 | A local is read or, where assignment is allowed and `=` follows, assigned after its right side; the slot is looked up before the right side is compiled. A name that is no local of this function is outside the subset and fails. |
| `SinglePass.Compiler.ParseAnd` | src/parser.c:1671-1678 | The buffer after emitting a jump, the right side and the patch is the code of `and` over the tree to the left; it fails exactly when the right side does or the jump is too long. |
| `SinglePass.Compiler.ParseOr` | src/parser.c:1680-1689 | The same for `or`, with its two jumps. |
| `SinglePass.Compiler.ParseTernary` | src/parser.c:1819-1837 | The same for the ternary, with both arms and both patches. |
| `SinglePass.Compiler.ParseIf` | src/parser.c:1429-1453 | The same for `if` with or without `else`; without one the bytes are those of an empty else part. |
| `SinglePass.Compiler.ParseWhile` | src/parser.c:1373-1398 | The same for `while`: exit jump, backward jump and the loop's break operand all patched. |
| `SinglePass.Compiler.ParseLoop` | src/parser.c:1415-1426 | The same for `loop`. |
| `SinglePass.Compiler.ParseFor` | src/parser.c:1291-1354 | The same for `for` with an increment, with or without initialiser and condition, in a scope of its own. |
| `SinglePass.Compiler.ParseMatch` | src/parser.c:1097-1174 | The same for `match` of any number of arms with or without a default: every arm's end jump, kept on a stack until the end, is patched to land past the arms. |
| `SinglePass.Compiler.ParseMember` | src/parser.c:1225-1254 | One arm appends pattern, test, body and end jump, patches its own test only, ends its scope and hands back where its open jump lies. |
| `SinglePass.Compiler.ParseBlock` | src/parser.c:1455-1460 | A block appends its items' code and a pop for each local of its scope, and leaves locals and depth as they were. |
| `SinglePass.Compiler.EndScope` | src/parser.c:525-539 | Exactly the newest locals deeper than the enclosing scope go, and one pop is emitted for each; without inner functions none is captured (`Closures.Compilers.EndScope` has those). |
| `SinglePass.Compiler.ParseVarDeclaration` | src/parser.c:945-973 | Each variable is declared before its initialiser is compiled and usable only after it; the code of a whole `var` list is the code of its declarations in order. |
| `SinglePass.Compiler.DeclareVariable` | src/parser.c:400-446 | Refuses a name already declared in the same scope or still undefined, and the 257th local; otherwise the local is there and undefined. |
| `SinglePass.Compiler.ParseBreak` | src/parser.c:1061-1076 | Outside a loop it fails; the first of a loop emits a jump and takes the loop's slot; a later one emits nothing. |
| `SinglePass.Compiler.ParseContinue` | src/parser.c:1078-1086 | Outside a loop, or too far from the loop's start, it fails; otherwise it emits the jump back to the start. |
| `SinglePass.Compiler.PatchJump` | src/parser.c:314-322 | Fails exactly when the distance does not fit in 16 bits; otherwise only the two operand bytes change and they hold the distance to the end of the code. |
| `SinglePass.Compiler.EndLoop` | src/compiler.c:80-85 | The loop's one break operand, if taken, is made to land at the end of the code, and the enclosing loop is current again. |
| `MatchEmission.ArmsPatched` | src/parser.c:1160-1166 | Patching the stacked end jumps of any number of arms, one after the other, gives the bytes that the arms have with every jump known from the start; it fails exactly when that does. |
| `StmtCorrect.StmtMoves` | src/parser.c:1020-1472 | The code of every statement, placed anywhere, over any stack and for every iteration count, does what the tree does to the stack: it falls off its end, lands on its loop's end or start, faults or runs on with it. |
| `StmtCorrect.ArmsMove` | src/parser.c:1097-1254 | The same for the arms of a `match`: patterns are tried in order against the value on top, an arm not taken makes its scope's pops, a taken one jumps over them and over all later arms. |
| `StmtCorrect.DeclsMove` | src/parser.c:945-973 | The same for a list of declarations and statements. |
| `ExprCorrect.ExprMoves` | src/parser.c:1606-1837 | The same for every expression; skipped arms of `and`, `or` and the ternary are not run. |
| `Agreement.StmtAgrees` | src/parser.c:1020-1472 | Every statement the emitter handles does to the stack exactly what it means, with slot i holding local i: same values, same ways out, same faults, and no end where there is none, over any values below. |
| `Agreement.ArmsAgree` | src/parser.c:1097-1254 | A `match` the emitter handles runs the first arm whose pattern equals the matched value, else the default, else nothing, and leaves the matched value on top, for any number of arms and nested matches. |
| `Agreement.DeclsAgree` | src/parser.c:945-973 | After each declaration the stack holds exactly the bindings made so far, in order. |
| `Agreement.ExprAgrees` | src/parser.c:1606-1837 | Where every slot holds its local, an expression pushes exactly its value and makes its assignments, and faults if and only if the evaluator does. |
| `Agreement.StmtRuns` | src/vm.c:1150-2188 | The code of a statement the emitter handles, placed anywhere, ends where and with the bindings that the evaluator says. |
| `Agreement.ExprRuns` | src/vm.c:1150-2188 | The code of every expression, placed anywhere, pushes exactly the evaluator's value or faults with it. |
| `Agreement.ResolveIsLookup` | src/parser.c:454-465 | The slot found at compile time for a name holds the binding that the name has at run time. |
| `Heights.StmtHeight` | src/parser.c:525-539 | If no arm has a variable of its own and inner loops are left where they began: every run of a statement ends at the height it began with, leaves its loop by `break` at the one height that its emitted `break` has, and goes back by `continue` at the height of one of them. |
| `Heights.LoopLeft` | src/parser.c:1061-1086 | A loop's body, whose arms have no variables of their own and whose inner loops keep the height, is, left by its `break`, as high as it began if and only if the `break` is under no variable and no arm begun in the body; left by `continue`, it is as many values too high as that `continue` is under. |
| `Heights.StmtRises` | src/parser.c:1097-1254 | Every run that falls off a statement has changed the height as one of the ways through its arms says, nested arms and blocks with variables included. |
| `Heights.KeepsIffClear` | src/parser.c:1176-1254 | Every way through a statement keeps the height if and only if no arm in it outside inner loops, however nested, has a variable in its own scope. |
| `Heights.MatchKeepsIffClear` | src/parser.c:1097-1254 | The same for the arms of one `match`. |
| `Boundaries.ProgramGood` | src/parser.c:298-367 | A finished chunk is whole instructions from its first byte to its end, and every jump in it, forward or backward, lands on the start of one of them or on the end. |
| `Boundaries.AlwaysAtStart` | src/vm.c:2447-2483 | Every run of any length that begins at an instruction is at an instruction of the chunk, or at its end, after every step. |
| `Boundaries.PatchStarts` | src/parser.c:314-322 | Patching a jump's operand changes no instruction's start. |
| `Bytecode.DecodeEncode` | src/chunk.c:138-152 | An instruction written anywhere is read back as itself, with its own width: one-byte constants below 255, two-byte ones below 65535, jump operands high byte first. |
| `Printing.ParsePrinted` | src/parser.c:1478-1541 | Every tree over the rule table's operators, printed with parentheses only where an operand binds too loosely, is read back whole with nothing left over. |
| `Printing.PrintingIsInjective` | include/parser.h:90-161 | Two trees print alike only if they are one tree. |
| `Forms.ExpressionIs` | src/parser.c:1478-1541 | An expression is read off the front of a token list exactly if the list begins with a written form of it in which every operand binds tightly enough at its place, and nothing that follows could go on with it. |
| `Grouping.TwoOperators` | include/parser.h:26-43 | Two operators between three operands nest to the side of the tighter one, by the list: bitwise or, bitwise xor, bitwise and, `== !=`, `< <= > >=`, `<< >>`, `+ -`, `* / %`, from loosest to tightest; two of one place in the list nest left, or right if they are bitwise or shifts. |
| `Grouping.OneTier` | include/parser.h:26-43 | Each of the sixteen operators has exactly one place in that list. |
| `Grouping.Logical` | src/parser.c:1671-1689 | `and` is looser than every operator and `or` looser than `and`; both nest to the right. |
| `Grouping.Ternary` | src/parser.c:1819-1837 | The ternary takes every operator on its left whole as its condition and everything after it as its branches, other ternaries and assignments included. |
| `Grouping.Assignments` | src/parser.c:988-1013 | An assignment takes every operator, ternary and further assignment on its right. |
| `Grouping.NotTargets` | src/parser.c:1497-1540 | A name after an operator is not assignable: `a + v = ...` and `-v = ...` are refused. |
| `Grouping.PrefixOperators` | src/parser.c:1606-1622 | A prefix operator is tighter than everything after its operand, and may follow any operator. |
| `Texts.ReadsLines` | src/parser.c:601-607 | Every script written by the rules, with or without the `;` after an expression, the parentheses of a condition, an empty `else`, a `for`'s initialiser and condition, and the commas after an arm, is read as the trees it means. |
| `Texts.ReadsText` | src/parser.c:1020-1472 | The same for one statement, with what follows it left over. |
| `Readings.ScriptIs` | src/parser.c:601-607 | A token list is a script of some trees if and only if it is written by those rules with that meaning. |
| `Readings.StatementIs` | src/parser.c:1020-1472 | The same for one statement: what is read, and what is left. |
| `Showing.ScriptShown` | src/parser.c:601-607 | Every tree a script can have, printed with each optional token in place and every operand in parentheses, is read back whole. |
| `Showing.WritableIs` | src/parser.c:1020-1472 | The trees a script can have are exactly these: a `for` is a block of its initialiser and its loop, an arm's body is an expression, a block in braces, a `loop` or a `match`, and no variable is outside a block. |
| `Acceptance.CompiledIs` | src/parser.c:400-465 | A token list compiles if and only if it is a written script in which names are used after their declaration, outside their own initialiser and inside its block, none is declared twice in a block, at most 256 slots are in use, `break` and `continue` are in loops, there are at most 65535 literals and 255 patterns to a `match`, and every jump, by sizes counted on the trees, spans at most 65535 bytes. The emitted code has the counted size. |
| `Acceptance.ShownCompiles` | src/parser.c:601-607 | Every tree a script can have compiles from its printed text exactly if it is so accepted. |
| `Arithmetic.Sums` | src/vm.c:740-742 | One machine step over `+`, `-` or `*` leaves the exact integer when 32 bits hold it and faults otherwise, for all operands and whatever is below them. |
| `Arithmetic.Quotients` | src/vm.c:743-758 | `/` and `%` give the one pair q, r with a = qb + r, r smaller than b in size and zero or of a's sign; they fault for b zero, and for the one quotient that does not fit. |
| `Arithmetic.Comparisons` | src/vm.c:759-764 | The six comparisons compare the integers. |
| `Arithmetic.Bits` | src/vm.c:767-769 | Bitwise and, or and xor combine the bits at each of the 32 places, and that decides the result. |
| `Arithmetic.Shifts` | src/vm.c:765-766 | Left shifts multiply by the power of two, right shifts divide by it rounding down; a negative left operand of `<<`, an amount outside 0 to 31 or a product that does not fit is a fault. |
| `Arithmetic.OtherTypes` | src/vm.c:867-890 | On two bools, and with None on the left, only `==` and `!=` give a value. |
| `Arithmetic.MixedTypes` | src/vm.c:892-954 | A number or bool with an operand of another type is a fault. |
| `Arithmetic.Prefixes` | src/vm.c:956-1074 | `-` negates exactly or faults, `~` flips each of the 32 bits, `!` takes a bool, and nothing else is taken. |
| `Printing.PrintedIsShortest` | src/parser.c:1478-1541 | Of all texts read as a given tree the printed one is the shortest, and no other is as short. |
| `Printing.ParensNeeded` | src/parser.c:1478-1541 | Whichever parentheses are dropped from a printed text, however deep they are, the rest is not read as the same tree. |
| `Printing.Least` | src/parser.c:1478-1541 | At every level, what precedence climbing takes for a tree is longer than the tree printed for that level or equal to it, and it stops before anything that binds at the level. |
| `Machine.VirtualMachine.StepOnce` | src/vm.c:1239-1246 | One turn of the dispatch loop on the stack array is one step of the step function, and it fails exactly when there is no such step or its stack does not fit. |
| `Machine.VirtualMachine.Run` | src/vm.c:1150-2188 | The loop gets to the given end within its steps exactly when the step function does with every stack on the way within capacity, and then to the same state. |
| `Machine.EnoughRoom` | src/vm.c:292-298 | Every finite run of the step function is completed by every machine above some size. |
| `Machine.OneEnd` | src/vm.c:2447-2483 | No two runs from one state reach the end of the code in different states. |
| `Limits.BreakLands` | src/parser.c:1068-1075 | A `break` lands on its loop's end with the stack it has if the loop has no `break` yet, and otherwise is no code at all. |
| `Limits.SecondBreakIsLost` | src/parser.c:1068-1075 | `if (false) break; else break;` leaves the loop in the language, and falls through in the emitted code. |
| `Limits.BreakKeeps` | src/parser.c:1061-1076 | A `break` takes along all variables declared and values being matched since the loop began, so it lands with the loop's stack if and only if there are none. |
| `Limits.ContinueKeeps` | src/parser.c:1078-1086 | A `continue` comes back to the loop's start with all of them, and so with the loop's stack if and only if there are none. |
| `Limits.BreakInArm` | src/parser.c:1068-1075 | `loop { match 1 { 1 => { break; } } }`, with one `break` and nothing declared: its 23 bytes leave the matched value on the stack, where the language leaves nothing. |
| `Limits.ContinueInArm` | src/parser.c:1078-1086 | With `continue` in its place the bytes come back to the loop's start one value higher, over any stack. |
| `Limits.ArmKeepsHeight` | src/parser.c:1176-1254 | A taken arm ends too high by the number of variables in its own scope, and after an arm that is not taken the stack is too low by it; so the arm keeps the height if and only if it has none. Its block may hold anything else, blocks with variables included, as long as that keeps the height. |
| `Limits.VariableReads` | src/parser.c:945-973 | A variable declared over a stack with more values than locals reads what lay in its slot, so its own value if and only if nothing lay there or that was equal; with fewer values it cannot be read. |
| `Limits.ScriptHeight` | src/parser.c:601-607 | No run of a compiled script whose inner loops keep the height reaches the end at a height that no way through it has; if no arm outside loops has a variable of its own, every run that reaches the end leaves slot 0 and nothing else. |
| `Limits.OneVariableCode` | src/parser.c:1097-1254 | The twenty bytes that a `match` with one arm declaring one variable compiles to. |
| `Limits.OneVariableRuns` | src/parser.c:1097-1254 | `match` over `1 => { var x = 2; }`: the emitted bytes end one value too high when 1 is matched and with slot 0 itself popped when 0 is, where the language leaves nothing behind. |
| `Pool.PoolCreate` | src/pool.c:36-67 | Fails for no capacity; otherwise every node is on the head list, each linked to the one before, and the free list is empty. |
| `Pool.Ownership` | src/pool.c:70-131 | In every reachable state of every interleaving each node is in exactly one of the head list, the free list, a caller's hands or one thread's hands. |
| `Pool.AlwaysMoves` | src/pool.c:70-131 | In every reachable state a thread inside a call has a next step, every node it reads through a head it loaded, however stale, is a node of the pool, and one outside a call can begin one. |
| `Pool.HandedOutOnce` | src/pool.c:94-100 | A node about to be returned is in no list, no caller's and no other thread's hands. |
| `Pool.LeakCheck` | src/pool.c:293-310 | At rest the difference of the counters is the number of nodes out, so `pool_destroy` goes through exactly when all are back, and then the two lists hold the whole pool. |
| `Pool.AllocIsPop` | src/pool.c:81-97 | A compare-and-swap of `pool_alloc` that succeeds takes the top of an unbroken stack and leaves the rest and the other list as they are. |
| `Pool.FreeIsPush` | src/pool.c:113-128 | A compare-and-swap of `pool_free` that succeeds pushes the thread's node on an unbroken stack and changes nothing else. |
| `Pool.VersionsGrow` | src/pool.c:92-96 | Over any run a list's version never goes down, and while it is the same the list is the same, node for node. |
| `Pool.NoAba` | src/pool.c:75-97 | If a list has the loaded head again, it had that head and those nodes at every moment in between. |
| `Pool.NullMeansEmpty` | src/pool.c:81-82 | A call that has loaded null returns NULL, and if the list it loaded has the same version still, that list is empty. |
| `Pool.AllocEnds` | src/pool.c:70-101 | In every state a `pool_alloc` ends in two ways only: after a swap that succeeded, with its node counted and in the caller's hands, or at a load that was null, with nothing changed. |
| `Pool.NullAfterEmpty` | src/pool.c:75-82 | Over every run, a call about to return NULL has, during that very call, loaded from a list that was empty at that moment. |
| `Pool.LostAlloc` | src/pool.c:84-97 | A compare-and-swap of `pool_alloc` that fails, for a changed head or for no reason, leaves both stacks and every other thread as they are, and the thread goes on with that list's present head. |
| `Pool.LostFree` | src/pool.c:113-128 | One of `pool_free` that fails changes nothing either; the thread still has its node and loads again. |
| `Pool.FreeEnds` | src/pool.c:105-131 | A `pool_free` ends only when its node is on the free list and counted. |
| `Pool.HeadShrinks` | src/pool.c:75-97 | Nothing is ever pushed on the head list: it only loses nodes from its top. |
| `Pool.NullSeenAlways` | src/pool.c:75-82 | Over any run, a call that has loaded null from the head list does so on a list that is, and stays, empty. |
| `Pool.NullLeavesNoHead` | src/pool.c:81-82 | A call about to return NULL after loading `head` finds the head list empty then and ever after; if the head list has a node, the null came from the free list. |
| `Pool.NullIsRight` | src/pool.c:75-82 | At the load that decides on NULL the list loaded is empty, so the whole pool is if and only if the other list is too; a null from the free list needs a first load that was not null and a compare-and-swap that lost. |
| `Pool.AllocAlone` | src/pool.c:70-101 | A call during which no other thread moves returns NULL if and only if both lists are empty, and otherwise the top of the free list, or of the head list when that one is empty. |
| `Pool.NullWithNodesLeft` | src/pool.c:75-82 | A reachable state of two threads and two nodes in which a call returns NULL while a node lies on the head list. |
| `Closures.PackExact` | src/upvalue.c:12-14 | A packed descriptor is read back as itself if and only if its index is below 128. |
| `Closures.Compilers.ResolveUpvalue` | src/parser.c:499-519 | Through any depth: finds nothing exactly when no enclosing function declares the name; an index it gives leads to the innermost declaration's function and, up to its low seven bits, slot; it is found if and only if that variable is defined and every function from there inwards has fewer than 128 descriptors. The variable, and no other, is then marked as captured, and only the functions between get a descriptor, at most one each. |
| `Closures.Compilers.CaptureLocal` | src/parser.c:503-510 | The same for a local of the function just outside. |
| `Closures.Compilers.AddUpvalue` | src/parser.c:470-484 | A function has no descriptor twice: one that is there is found and a new one goes last. It fails, with nothing changed, exactly when there are 128, and then no larger index fits the packed form. |
| `Closures.AddressedRight` | src/parser.c:499-519 | Following a resolved descriptor to its end gives the innermost declaration if and only if that slot is below 128. |
| `Closures.FollowStable` | src/parser.c:470-519 | If the functions around it have kept their locals and no descriptor has been lost, a descriptor leads where it did. |
| `Closures.FollowForever` | src/parser.c:470-519 | Over any sequence of functions begun and finished, locals declared, defined and dropped and names resolved, a descriptor of a function that is being compiled all the while leads where it did at first. |
| `Closures.Compilers.Enter` | src/compiler.c:88-121 | An inner function begins with its reserved slot 0 and no descriptor, and disturbs no function around it. |
| `Closures.Compilers.Leave` | src/parser.c:553-575 | The innermost function goes with its descriptors; the functions around it are as they were. |
| `Closures.Compilers.DeclareLocal` | src/parser.c:432-446 | A new local leaves every descriptor of every function leading where it did; the 257th is refused. |
| `Closures.Compilers.DefineLocal` | src/parser.c:448-451 | Marking the newest local defined leaves every descriptor leading where it did. |
| `Closures.Compilers.EndScope` | src/parser.c:525-539 | The locals of the scope go, newest first, a captured one with a close and any other with a pop. |
| `OpenUpvalues.Captures.Capture` | src/upvalue.c:69-93 | Two captures of a slot that is still open give one upvalue; otherwise a new one is linked where the descending order puts it, and no other upvalue changes. |
| `OpenUpvalues.Captures.Close` | src/upvalue.c:114-121 | Exactly the upvalues strictly above the bound are closed, and every upvalue reads what it read before. |
| `OpenUpvalues.OneOpen` | src/upvalue.c:69-93 | An open slot has one upvalue. |
| `OpenUpvalues.Captures.SetLocal` | src/vm.c:2360-2364 | Writing a slot is seen by its open upvalue and by no other. |
| `OpenUpvalues.Captures.GetUpvalue` | src/vm.c:2365-2369 | Reading through an upvalue gives its slot's value while it is open and its own afterwards. |
| `OpenUpvalues.Captures.SetUpvalue` | src/vm.c:2370-2374 | Writing through an upvalue, open or closed, is seen by it and by no other upvalue. |
| `OpenUpvalues.Captures.Return` | src/vm.c:2526-2544 | Discarding a frame keeps the value of every upvalue but an open one of slot 0, which afterwards reads the function's result. |
| `OpenUpvalues.Captures.CloseTop` | src/vm.c:2513-2519 | At the end of a block the popped slot's own upvalue is not closed, only those strictly above it. |
| `OpenUpvalues.Captures.MakeClosure` | src/vm.c:2495-2512 | If the running closure's upvalues are the cells of the variables its descriptors lead to, so are the new closure's, the cells of the running frame's captured slots being added. |
| `OpenUpvalues.Captures.Nest` | src/vm.c:2495-2512 | For closures made one inside the other to any depth, every upvalue of every closure is the open cell of the slot of the very variable that its static descriptor leads to. |
| `Hashing.HashString` | src/string.c:175-182 | The loop is FNV-1a folded over the bytes, modulo 2 to the 32. |
| `Hashing.MaskIsMod` | src/hashmap.c:65-68 | As the comment claims, masking a hash with capacity - 1 is the remainder by the capacity, for every power of two. |
| `Hashing.MaskNext` | src/hashmap.c:86-87 | Masking the next index steps around the table. |
| `HashTable.FindEntry` | src/hashmap.c:64-89 | In every table under the load bound the probe ends: at the key's own slot if the key is there, and otherwise at the first slot on the way without a key, tombstone or empty. |
| `HashTable.HashMap.Set` | src/hashmap.c:37-48 | The map afterwards is the old one with the key bound; it reports a new key exactly when it was absent. The table grows, to 8 or to twice its size, exactly when one more entry would pass three quarters; otherwise only the slot that probing finds changes, and the count by one if that was empty. |
| `Hashing.HashGrows` | src/string.c:175-182 | With the constants of FNV-1a: each further byte is combined bit by bit with the hash so far, which is then multiplied by 16777619 modulo 2 to the 32, from 2166136261. |
| `HashTable.HashMap.Get` | src/hashmap.c:127-131 | The bound value, and null for an absent key. |
| `HashTable.HashMap.Remove` | src/hashmap.c:138-147 | The map afterwards is the old one without the key; it reports exactly whether it was there; only that slot changes, to a tombstone. |
| `HashTable.HashMap.AdjustCapacity` | src/hashmap.c:92-115 | Moving to a new table leaves the map as it is and no tombstone, and the count is then the number of live entries. |
| `HashTable.HashMap.FindKey` | src/hashmap.c:150-171 | The key with the given contents if the table has one, and null if and only if it has none. |
| `HashTable.AddAll` | src/hashmap.c:118-125 | The target is its old map overridden by the source's, and the source is unchanged. |
| `Interning.StringPool.NewString` | src/string.c:47-81 | Gives a string with these contents that is the same object as an interned one if and only if their contents are equal; nothing interned is lost. |
| `Interning.StringPool.Concat` | src/string.c:138-150 | The same for the joined contents. |
| `Interning.StringPool.RemoveWhite` | src/gc.c:257-264 | Exactly the marked strings stay, with the same objects and values, and interning is still canonical. |
| `Collector.Heap.MarkObject` | src/gc.c:103-137 | An unmarked object is marked and pushed, a marked one is left alone, so none is pushed twice. |
| `Collector.Heap.Blacken` | src/gc.c:164-243 | Every child is marked; marks only grow; every mark is matched by one push; no black object refers to a white one. |
| `Collector.Heap.Trace` | src/gc.c:157-162 | Terminates with an empty gray stack and exactly the objects reachable from the roots marked. |
| `Collector.Heap.Sweep` | src/gc.c:266-287 | The object list keeps exactly its marked objects in their order, still properly linked, with all marks cleared. |
| `Collector.Heap.Collect` | src/gc.c:290-300 | A whole collection leaves the list filtered to what the roots reach, in order, all marks clear, every reachable object having been pushed once and no other. |
| `Collector.KeptIsFilter` | src/gc.c:266-287 | What sweeping by marks keeps is what reachability keeps. |
| `Allocator.ClassFits` | include/allocator.h:51-83 | A size class exists exactly for sizes up to 65535 and its blocks are large enough but, above 8 bytes, less than twice too large. |
| `Allocator.ClassesAre` | include/allocator.h:68-83 | The table of classes in numbers: block sizes double from 8 up to 32768 and the last is 65535; parts have 128 blocks and up to 1024, then half as many with each class; a block lies behind its 24 bytes of header. |
| `Allocator.Apart` | src/allocator.c:39-48 | Two blocks of a part never share a user byte, and all lie within the chunk. |
| `Allocator.Part.Take` | src/allocator.c:145-150 | The first block of the free list is in use and off the list, no other changes, and used plus the free list is still the total. |
| `Allocator.Part.Put` | src/allocator.c:215-218 | A block that was in use is free and first on the list, no other changes, and used plus the free list is still the total. |
| `Allocator.Heap.AllocateMemory` | src/allocator.c:130-167 | For 1 to 65535 bytes always a block not in use and of the smallest class that is large enough, never the out-of-memory panic; it is the first free block of the first part of that class with room, and the first of a new part, put after those of its class, exactly when none has room; 0 gives null and more is refused; nothing written before is touched. |
| `Allocator.Heap.FreeMemory` | src/allocator.c:205-227 | A block in use is given back, and its part goes exactly when that was its last; a block not in use is refused; no other block is touched. |
| `Allocator.Heap.ReallocateMemory` | src/allocator.c:170-202 | The common prefix of the old and new sizes is kept, the old block is freed, every other live block keeps its bytes; a refused size frees nothing. |
| `Allocator.Heap.AddPart` | src/allocator.c:90-116 | The doubly linked list gets the part after those of its class and before the larger ones, stays sorted by class, and the capacity stays the sum over the parts. |
| `Allocator.Heap.RemovePart` | src/allocator.c:118-128 | The list loses that part only and the capacity stays the sum. |
| `Allocator.NeverFreed` | src/allocator.c:39-48 | The last block of a part has no part in its header; a part has no other block exactly for requests above 32768 bytes. |
| `LineTable.Chunk.WriteChunk` | src/chunk.c:74-117 | Every write appends its byte and its line; runs are maximal and sum to the count; the run buffer, resized by two rules, always has room for its own capacity; either capacity grows, to 8 or to twice itself, only when it is full. |
| `LineTable.Chunk.GetRleLine` | src/chunk.c:32-41 | Index i gives the line of the i-th write; past the end there is none. |
| `LineTable.TightIsUnique` | src/chunk.c:94-113 | A list of lines has only one run-length form with maximal runs. |
| `LineTable.GrowStaysBelow` | include/memory.h:19 | Of two capacities reached by growth, the smaller grown once does not pass the larger, so growing the runs never overtakes the code. |
| `Formatter.Format` | src/value.c:99-127 | For any nesting and size at least 1 the buffer holds exactly the longest prefix of the full text that fits, and a terminator, and nothing outside the given part changes; a vector or pair with size 0 is an error. |
| `Formatter.FormatValue` | src/value.c:115-125 | Every nested call has room for a terminator at least; a plain value returns its full length, a vector or pair what it wrote. |
| `Formatter.FormatVec` | src/vec.c:198-249 | The same for a vector, stopping at the first piece that does not fit. |
| `Formatter.FormatPair` | src/pair.c:44-98 | The same for a pair. |
| `Scanning.Scanner.ScanTokens` | src/scanner.c:162-168 | Ends, giving up exactly when the source leads to an unfinished comment or number; otherwise the tokens are the one reading of the source and, without error tokens, cover it: in order, with only blanks between, each line 1 plus the newlines before its end. |
| `Scanning.Scanner.ScanToken` | src/scanner.c:173-250 | Gives up exactly when stuck; otherwise the token is the one that can be read from there, an error token only for an unfinished string or a character that begins no token, and at least one character is used before the end. |
| `Scanning.Scanner.SkipWhitespace` | src/scanner.c:95-142 | Skips the longest stretch of white space and comments, counting newlines, and fails exactly at a comment that does not end. |
| `Scanning.Scanner.ScanNumber` | src/scanner.c:317-335 | All the digits, and a fraction if a point follows; it gives up exactly when the point has no digit after it. |
| `Scanning.Scanner.ScanString` | src/scanner.c:253-265 | Up to the next quote, counting newlines, and an error token exactly when there is none. |
| `Scanning.ReadsIsUnique` | src/scanner.c:173-250 | From one place only one token can be read. |
| `Scanning.CoverIsUnique` | src/scanner.c:162-168 | Only one list of tokens covers a source, as far as two lists go. |
| `Scanning.CoversInOrder` | src/scanner.c:162-168 | Covering tokens are disjoint and in order. |
| `Scanning.StuckIsFinal` | src/scanner.c:130-132 | Where the scanner gives up, no token can be read. |
| `Scanning.NotBad` | src/scanner.c:162-168 | A source that can be read to its end never makes the scanner give up. |
| `Scanning.TrieIsTable` | src/scanner.c:359-415 | The letter-by-letter decision is the keyword table, for every word. |
| `Scanning.SymbolsAre` | src/scanner.c:184-246 | The symbols of one, two and three characters are exactly the listed ones. |
| `Scanning.WordsAreOf` | src/scanner.c:46-54 | A word is of the letters, the underscore and the digits, one by one. |
| `Scanning.NumberIs` | src/scanner.c:292-315 | An integer literal is an i32 exactly if its number, summed place by place, is at most 2147483647. |
| `Scanning.KeywordSpelling` | src/scanner.c:381-390 | A word classed as a keyword is spelled like it unless it is a longer word that begins with `fn`. |

## Left out

- SinglePass.Compile: `var` at the top level makes a global and is refused.
- SinglePass.Compiler.NamedVariable: upvalues and globals, which come after locals; `Closures` has the upvalues.
- SinglePass.Compiler.EndScope: `op_close_upvalue` for captured locals, which a script without functions has none of.
- SinglePass.Compiler.ParseVarDeclaration: type labels and globals.
- Globals, calls, `return`, strings, vectors, lambdas, compound assignment and type labels in the compiled subset: each
  is one more table entry or a library call, with no jump or slot of its own.
- i64, f32, f64 and mixed operands: they depend on C floating point and on reading one member of a union as another.
  Operations C leaves undefined (`INT32_MIN` negated or divided by -1, shifts out of range) are faults of the evaluator.
- Compilation goes on after an error in the source and reports more; here the first error ends it.
- Runs after a runtime error: the dispatch loop drops the handlers' results, so the source goes on where the step function
  here faults; likewise a slot above the top of the stack is read in the source and a fault here.
- Agreement.StmtAgrees: assumes no second `break` in a loop, no `break` or `continue` under variables or arms of the body,
  and no variables anywhere in `match` arms, since there the code does something else. StmtCorrect.StmtMoves assumes
  none of this and says what; Heights and Limits say when it is wrong.
- SinglePass.Compiler.ParseFor: `for` without an increment is refused, since the source then never begins the loop whose
  end it reads.
- Enum patterns of `match`: they need the object model.
- Recursive parse functions are split into several methods of the class, and the stack size is a parameter.
- Machine.VirtualMachine.Run: stops at a given end and step count in place of the `return` that ends a script.
- Pool.Ownership: sequential consistency and unbounded versions; memory orders, `memset` and prefetching are not modelled.
- Batch allocation, batch freeing and the thread cache of the pool.
- Closures.Compilers.ResolveUpvalue: an error yields a result of its own, where the source reports it and goes on with an
  index.
- OpenUpvalues.Captures.Nest: closures one inside another while all their frames are live; MakeClosure itself has no such
  restriction.
- Roots and edges of the collector are given: what each kind of object refers to is one long case split.
- Interning.StringPool.RemoveWhite: slots with a null key are skipped.
- Interning.StringPool.NewString: null and over-long contents, which are runtime errors, are not modelled.
- Allocator.Heap.AllocateMemory: the system's `malloc` is taken to succeed, and an address is a part and an index.
- Allocator.Heap.FreeMemory: requires a header that names its part, so not the last block of a part, whose header is
  never set: freeing it reads memory that was never written.
- Allocator.Heap.ReallocateMemory: requires the same of the block that is moved.
- LineTable.Chunk.GetRleLine: an index past the end yields no line, where the source panics.
- Formatter.Format: plain values are given by their text; number formatting belongs to the C library.
- Scanning.Scanner.ScanTokens: the deprecated `print` keyword is off, and the source holds no NUL.
- Classes, structs, inheritance, vtables, option types, native functions, the console and file reading.
