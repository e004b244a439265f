# Bit-code loader and the "can see" condition, modelled in Dafny

This project models two pieces of Skript, a scripting language that runs
inside a game server.

**`BitCodeLoader`** rebuilds a parsed syntax tree from a stream of bit-code
instructions. The stream is the tree in postorder, so children come before
their parents. The loader is a stack machine. Its only state is one
`ArrayDeque`. Each instruction method pushes a leaf, or pops its operands
and pushes the node built from them.

**`CondCanSee`** is one grammar element that such a stream instantiates. Its
`init` reads a decision table over the matched pattern and the parse mark.
The table decides whether the condition is negated and which operand holds
the viewers and which the targets. Its `toString` prints the condition back
as text.

Files:

- `syntax.dfy` (module `Syntax`): the node kinds and the Java casts applied to popped entries.
- `bitcode.dfy` (modules `BitCode` and `Replaying`): the instructions; `Step`, the pure meaning of one instruction; `Replay`, a whole stream run through `Step`; and the lemmas about them.
- `loader.dfy` (module `Load`): the `ArrayDeque` and the `BitCodeLoader` class. Each instruction method changes the deque in place and is proved equal to `Step`.
- `cond_can_see.dfy` (module `CondCanSee`): the registered patterns as data, the decision table, and a class with `Init` and `ToString`.
- `wrappers.dfy`: `Option`, which stands for a Java reference that may be null.

Modelling choices:

- **Stack orientation.** A stack is a `seq<Node>` whose index 0 is the head of the deque, that is the entry pushed last. A pop loop of `k` entries therefore builds exactly `s[..k]`. Element 0 of every array the loader builds is the previous top of the stack, so the array holds the operands in the reverse of the order they were pushed (`Replaying.ExpressionListReversesPushOrder`).
- **Exceptions.** An instruction ends either in `Done(stack)` or in `Aborted(error, stack)`. The stack in `Aborted` is the deque as the exception left it. Entries popped before the failure are gone, including an entry whose cast then failed. `load` hands out that same deque object.
- **Casts.** A Java cast becomes a check on the node kind (`Syntax.Accepts`). A raw `String` pushed by `stringLiteral` is not an `Expression`.
- **Collaborators.** Code outside these two files is a field of the `BitCode.Registry` parameter. Each field only says whether the call succeeds or what it returns (`None` stands for null). This covers reflection, the class registry, `Variable.newInstance`, `VariableString.newInstance`, `getConvertedExpression` and `element.init`.
- **Registered patterns.** Each of the four patterns is `%players%` + wording + `%players%`. The wording's type forbids a `%` in it, so each pattern has exactly two slots.

Facts about the code that a reader might not expect:

- Element 0 of every array a pop loop builds is the last operand pushed, so lists, templated strings and element operands hold their operands in the reverse of push order (`Replaying.ExpressionListReversesPushOrder`, `Replaying.VariableStringReversesPushOrder`). Two unparsed literals `a` then `b` followed by `expressionList(2)` give the list `[b, a]` (`Replaying.TwoUnparsedListed`).
- Every operand of `expressionList` is cast to `Expression`, and a raw string pushed by `stringLiteral` is not one. Two raw strings followed by `expressionList(2)` throw `ClassCastException` on the first pop and leave the other string on the deque (`Replaying.StringsAreNotListOperands`).
- `initElement` pushes the element whatever `init` answers (`Replaying.InitAnswerIgnored`).
- After a failure, `load` hands out the live deque with whatever the failed instruction left on it (`Replaying.FailureEndsReplay`, `Load.BitCodeLoader.Load`).

## Model

| member | source | states |
|---|---|---|
| `BitCode.FirstRejected` | src/main/java/ch/njol/skript/lang/cache/load/BitCodeLoader.java:43-45 | How far a pop loop gets: every entry before index `k` passes the cast, and the entry at `k` fails it if `k` is below both the count and the height |
| `BitCode.Take` | src/main/java/ch/njol/skript/lang/cache/load/BitCodeLoader.java:63-65 | A pop loop of `n` with a cast (the same loop appears at 43-45, 75-77 and 98-100). If no entry fails the cast and enough are present, it yields the top `n` entries with the previous top at index 0 and leaves `s[n..]`. It fails with a class-cast error when the first rejected entry comes before the `n`-th, leaving the stack below that entry. It fails with an empty-stack error when the stack runs out, leaving nothing |
| `BitCode.PopAndPush` | src/main/java/ch/njol/skript/lang/cache/load/BitCodeLoader.java:61-69 | Popping `n` entries and pushing one: on success, `n` entries were present and the height is `|s| - n + 1` with everything below unchanged. On failure, at most `n` entries were removed from the top |
| `BitCode.Replay` | src/main/java/ch/njol/skript/lang/cache/load/BitCodeLoader.java:25-29 | One loader object's deque carried from one instruction to the next: each instruction runs on the stack the previous one left, and the first failure ends the run with that failure's error and deque |
| `BitCode.Step` | src/main/java/ch/njol/skript/lang/cache/load/BitCodeLoader.java:31-124 | Every instruction: on success, `Pops(instr)` entries were present, the height changes by `Pushes - Pops`, and the entries below the popped ones are untouched. On failure, the stack left is a suffix missing at most `Pops(instr)` entries. Therefore an instruction that needs more operands than the stack holds never succeeds |
| `Syntax.Accepts` | src/main/java/ch/njol/skript/lang/cache/load/BitCodeLoader.java:64 | The checked casts (here the `(Expression)` cast of the list loop; the same casts sit at lines 44, 76, 86 and 117): anything passes the `Object` cast, only expressions pass `(Expression)`, only literals pass `(Literal)`, only templated strings pass `(VariableString)`; a raw string is not an expression |
| `Replaying.ReplayAppend` | src/main/java/ch/njol/skript/lang/cache/load/BitCodeLoader.java:25-29 | Instructions run in stream order against the one stack: replaying `a + b` is replaying `a` and then `b` from where `a` left off, and a failure in `a` ends the whole run |
| `Replaying.ReplayHeight` | src/main/java/ch/njol/skript/lang/cache/load/BitCodeLoader.java:31-124 | A stream that runs to its end never needed more entries than the stack held (`Depth(instrs) <= |s|`), changes the stack height by the sum of each instruction's pushes minus pops, and keeps every entry below the lowest point it reached, unchanged, at the bottom of the final stack |
| `Replaying.FailureEndsReplay` | src/main/java/ch/njol/skript/lang/cache/load/BitCodeLoader.java:31-124 | Fail-fast: if the instructions before position `k` succeed and instruction `k` fails, the whole stream fails with that instruction's error and leaves the stack as that instruction left it. Nothing after it runs |
| `Replaying.LeafStep` | src/main/java/ch/njol/skript/lang/cache/load/BitCodeLoader.java:104-124 | `stringLiteral`, `unparsedLiteral` and `simpleLiteral` push one node made from their argument and touch nothing else, whatever the registry |
| `Replaying.LeavesPushReversed` | src/main/java/ch/njol/skript/lang/cache/load/BitCodeLoader.java:104-124 | Replaying leaf instructions puts their nodes on the stack in reverse stream order, on top of the untouched old stack |
| `Replaying.ExpressionListReversesPushOrder` | src/main/java/ch/njol/skript/lang/cache/load/BitCodeLoader.java:61-69 | `k` expression leaves followed by `expressionList(size = k)` give one list whose items are the leaves in the reverse of push order, on top of the untouched stack |
| `Replaying.VariableStringReversesPushOrder` | src/main/java/ch/njol/skript/lang/cache/load/BitCodeLoader.java:96-102 | `k` raw strings followed by `variableString(size = k)` hand the factory the strings in the reverse of push order; if the factory accepts them, the templated string is pushed on the untouched stack |
| `Replaying.OperandsInPopOrder` | src/main/java/ch/njol/skript/lang/cache/load/BitCodeLoader.java:42-45 | Every node built from popped entries holds them in pop order: element `i` is the `i`-th pop, and element 0 is the previous top |
| `Replaying.InitElementOutcome` | src/main/java/ch/njol/skript/lang/cache/load/BitCodeLoader.java:32-50 | `initElement` succeeds exactly when the class can be instantiated and the top `exprs.length` entries exist and are expressions. It then pushes the element built from those entries in pop order. A failed instantiation throws before anything is popped |
| `Replaying.InitAnswerIgnored` | src/main/java/ch/njol/skript/lang/cache/load/BitCodeLoader.java:48-49 | Changing what `init` answers never changes what any stream replays to |
| `Replaying.Underflow` | src/main/java/ch/njol/skript/lang/cache/load/BitCodeLoader.java:63-64 | An instruction needing more operands than the stack holds, all of them of the right kind, fails with the empty-stack error after draining the whole stack; no value is substituted |
| `Replaying.StringsAreNotListOperands` | src/main/java/ch/njol/skript/lang/cache/load/BitCodeLoader.java:61-69 | Two raw strings followed by `expressionList(2)` fail with a class-cast error on the first pop. `"a"` is left on the stack |
| `Replaying.TwoUnparsedListed` | src/main/java/ch/njol/skript/lang/cache/load/BitCodeLoader.java:110-112 | Unparsed literals `a` then `b` followed by `expressionList(2)` give the list `[b, a]` |
| `Load.ArrayDeque.constructor` | src/main/java/ch/njol/skript/lang/cache/load/BitCodeLoader.java:28 | `new ArrayDeque<>()` holds no entries |
| `Load.ArrayDeque.Push` | src/main/java/ch/njol/skript/lang/cache/load/BitCodeLoader.java:49 | `push` adds the entry at the head and keeps the rest |
| `Load.ArrayDeque.Pop` | src/main/java/ch/njol/skript/lang/cache/load/BitCodeLoader.java:44 | `pop` removes and returns the head, or fails on an empty deque and leaves it empty |
| `Load.BitCodeLoader.constructor` | src/main/java/ch/njol/skript/lang/cache/load/BitCodeLoader.java:27-29 | A new loader owns a fresh, empty deque |
| `Load.BitCodeLoader.PopInto` | src/main/java/ch/njol/skript/lang/cache/load/BitCodeLoader.java:42-45 | The in-place pop loop fills the array and leaves the deque exactly as `Take` says, or ends in `Take`'s error with the deque as `Take` leaves it |
| `Load.BitCodeLoader.InitElement` | src/main/java/ch/njol/skript/lang/cache/load/BitCodeLoader.java:32-50 | The new deque and the exception thrown, if any, are exactly what `Step` gives for `initElement` |
| `Load.BitCodeLoader.DefaultExpr` | src/main/java/ch/njol/skript/lang/cache/load/BitCodeLoader.java:53-57 | Pushes the registered default expression, or fails on a null lookup; the result is `Step`'s |
| `Load.BitCodeLoader.ExpressionList` | src/main/java/ch/njol/skript/lang/cache/load/BitCodeLoader.java:61-69 | The deque and the exception thrown, if any, are `Step`'s for `expressionList`, including a negative size |
| `Load.BitCodeLoader.LiteralList` | src/main/java/ch/njol/skript/lang/cache/load/BitCodeLoader.java:73-81 | The deque and the exception thrown, if any, are `Step`'s for `literalList` |
| `Load.BitCodeLoader.Variable` | src/main/java/ch/njol/skript/lang/cache/load/BitCodeLoader.java:84-88 | Pops one templated string and pushes one variable; the deque and the exception thrown, if any, are `Step`'s |
| `Load.BitCodeLoader.FunctionCall` | src/main/java/ch/njol/skript/lang/cache/load/BitCodeLoader.java:91-93 | Changes nothing (no frame); `Step` leaves the stack as it is, for every registry |
| `Load.BitCodeLoader.VariableString` | src/main/java/ch/njol/skript/lang/cache/load/BitCodeLoader.java:96-102 | The deque and the exception thrown, if any, are `Step`'s for `variableString` |
| `Load.BitCodeLoader.StringLiteral` | src/main/java/ch/njol/skript/lang/cache/load/BitCodeLoader.java:104-107 | Pushes the raw string itself on the unchanged deque, as `Step` does |
| `Load.BitCodeLoader.UnparsedLiteral` | src/main/java/ch/njol/skript/lang/cache/load/BitCodeLoader.java:109-112 | Pushes an unparsed literal of the text on the unchanged deque, as `Step` does |
| `Load.BitCodeLoader.ConvertedExpression` | src/main/java/ch/njol/skript/lang/cache/load/BitCodeLoader.java:116-119 | Pops one expression and pushes its conversion; the deque and the exception thrown, if any, are `Step`'s |
| `Load.BitCodeLoader.SimpleLiteral` | src/main/java/ch/njol/skript/lang/cache/load/BitCodeLoader.java:121-124 | Pushes a simple literal of the value with the flag `false` on the unchanged deque, as `Step` does |
| `Load.BitCodeLoader.Load` | src/main/java/ch/njol/skript/lang/cache/load/BitCodeLoader.java:127-129 | Returns the loader's own deque object, not a copy |
| `CondCanSee.Patterns` | src/main/java/ch/njol/skript/conditions/CondCanSee.java:45-49 | The four registered patterns in registration order, so that `matchedPattern` indexes them: "is visible for", "can see", "isn't visible for", "can't see", each between two `%players%` slots |
| `CondCanSee.Negated` | src/main/java/ch/njol/skript/conditions/CondCanSee.java:57 | The condition is negated exactly when the pattern index is above 1 or the parse mark is 1, but not both |
| `CondCanSee.ViewerSlot` | src/main/java/ch/njol/skript/conditions/CondCanSee.java:58-64 | Patterns 1 and 3 take the viewers from `exprs[0]`; every other pattern takes them from `exprs[1]` |
| `CondCanSee.TargetSlot` | src/main/java/ch/njol/skript/conditions/CondCanSee.java:58-64 | The targets come from the operand the viewers do not: `exprs[1]` for patterns 1 and 3, `exprs[0]` otherwise |
| `CondCanSee.EveryPatternHasTwoSlots` | src/main/java/ch/njol/skript/conditions/CondCanSee.java:45-49 | Each registered pattern has exactly two expression slots |
| `CondCanSee.DecisionTableFollowsWording` | src/main/java/ch/njol/skript/conditions/CondCanSee.java:57-64 | For every pattern and every parse mark it can produce, `init` negates exactly when the sentence denies sight ("isn't", "can't", "invisible", with "isn't invisible" positive). The viewers are operand 0 of "can see" and operand 1 of "is visible for", and the targets are the other operand |
| `CondCanSee.NegationExamples` | src/main/java/ch/njol/skript/conditions/CondCanSee.java:57 | Pattern 1 with mark 0 is not negated; pattern 3 with mark 0 is |
| `CondCanSee.CondCanSee.constructor` | src/main/java/ch/njol/skript/conditions/CondCanSee.java:53 | Before `init`, both operand fields are null and the condition is not negated |
| `CondCanSee.CondCanSee.Init` | src/main/java/ch/njol/skript/conditions/CondCanSee.java:56-66 | Returns true for every pattern and mark. Negation is `(matchedPattern > 1) XOR (mark == 1)`. Patterns 1 and 3 take the viewers from `exprs[0]` and the targets from `exprs[1]`; all other patterns swap them |
| `CondCanSee.Describe` | src/main/java/ch/njol/skript/conditions/CondCanSee.java:85 | The text splits into the viewers' text, then `" can't see "` when negated and `" can see "` otherwise, then the targets' text |
| `CondCanSee.CondCanSee.ToString` | src/main/java/ch/njol/skript/conditions/CondCanSee.java:84-86 | `toString` is the viewers' text, then `" can't see "` exactly when negated (`" can see "` otherwise), then the targets' text |
| `CondCanSee.InitThenDescribe` | src/main/java/ch/njol/skript/conditions/CondCanSee.java:56-86 | After `init`, the text reads "a can see b" for "a can see b" and "b can see a" for "a is visible for b". It says "can't" exactly when the sentence denies sight |

## Left out

- Reflection, the class registry, `Variable.newInstance`, `VariableString.newInstance`, `getConvertedExpression` and `element.init`: their code is not part of this model. Each is a field of `BitCode.Registry` that only says whether it succeeds or what it returns.
- A `ClassInfo` missing from the class registry is one `NullPointer` failure together with a null default expression. With Java assertions enabled, the `assert` at line 55 would throw an `AssertionError` instead.
- Exceptions thrown from inside `element.init` or the factories are not modelled. Only their null results are.
- The internal state of an element after `init` is not modelled. A built element records the arguments its `init` received.
- Java generics and the element type parameters are not modelled. Only the checked casts to `Expression`, `Literal` and `VariableString` are kept.
- Java `int` overflow of sizes is not modelled. Sizes are unbounded integers, and a negative size throws `NegativeArraySizeException` before any pop, as in Java.
- `load` returns the live deque. Whether the caller then treats a failed replay as an invalid cache is outside these files.
- Node identity is by value here. Two equal literals from two instructions are equal nodes, while in Java they are distinct objects.
- `functionCall` is a no-op in the source (an unimplemented TODO). Its intended future behaviour is not modelled.
- `CondCanSee.check` depends on the host's `Player.canSee` and on `Expression.check` quantifier semantics, whose code is not part of this model.
- The registration side effect (`Skript.registerCondition`), the documentation annotations and the host `Event` argument of `toString` are not modelled. How an operand prints is the `show` parameter.
- `CondCanSee.CondCanSee.Init` requires at least two operands. It reads `exprs[0]` and `exprs[1]`, and the parser supplies one operand per slot, two for every registered pattern.
- Null arguments to the instruction methods are not modelled: `Syntax.Node` and `HostValue` have no null, so `stringLiteral(null)` and the other leaf methods cannot reach the `NullPointerException` that `ArrayDeque.push(null)` throws at line 106 of `BitCodeLoader.java`; `Load.BitCodeLoader.StringLiteral`, `UnparsedLiteral` and `SimpleLiteral` always push.
- CondCanSee.CondCanSee.ToString: requires that `Init` has set both operand fields. Calling `toString` before `init` makes Java throw a `NullPointerException` at line 85 of `CondCanSee.java`; that path is not modelled.
- Concurrency: the loader is single-threaded, and persistence of the instruction stream happens outside these files.
