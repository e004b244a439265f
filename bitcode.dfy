/**
 * The bit-code instruction stream and the pure meaning of each instruction:
 * `Step` gives the stack after one instruction (or the error it throws and
 * what is left of the stack), `Replay` runs a whole stream.
 *
 * Stacks are sequences whose index 0 is the head of the Java `ArrayDeque`,
 * that is the most recently pushed entry.
 */
module BitCode {
  import opened Wrappers
  import opened Syntax

  /** One call of the `BitCode` interface. */
  datatype Instr =
    | InitElement(elementType: ElementType, parse: ParseResult, matchedPattern: int, isDelayed: Kleenean)
    | DefaultExpr(semanticType: TypeId)
    | ExpressionList(itemType: TypeId, size: int, and: bool)
    | LiteralList(itemType: TypeId, size: int, and: bool)
    | Variable(types: seq<TypeId>, local: bool, list: bool)
    | FunctionCall(functionName: string)
    | VariableString(original: string, size: int, isSimple: bool, mode: StringMode)
    | StringLiteral(str: string)
    | UnparsedLiteral(unparsed: string)
    | ConvertedExpression(targetType: TypeId)
    | SimpleLiteral(literal: HostValue)

  /** The Java exceptions an instruction can end in. */
  datatype Error =
    | InstantiationFailed  // `Error` wrapping the reflection failure of `type.newInstance()`
    | NegativeArraySize    // `new Expression[size]` with a negative `size`
    | EmptyStack           // `ArrayDeque.pop` on an empty deque
    | ClassCast            // a popped entry of the wrong class
    | NullPointer          // a null default, variable, string or conversion pushed or dereferenced

  /**
   * The collaborators whose code is not part of this model, each reduced to
   * whether it succeeds (or to what it returns, `None` standing for null).
   */
  datatype Registry = Registry(
    instantiable: ElementType -> bool,                               // `type.newInstance()`
    init: (ElementType, seq<Node>, int, Kleenean, ParseResult) -> bool, // `element.init(...)`
    defaultExpression: TypeId -> Option<Node>,                       // `Classes.getExactClassInfo(type).getDefaultExpression()`
    newVariable: (Node, seq<TypeId>, bool, bool) -> bool,            // `Variable.newInstance(...) != null`
    newVariableString: (string, seq<Node>, bool, StringMode) -> bool, // `VariableString.newInstance(...) != null`
    convert: (Node, TypeId) -> Option<Node>)                         // `expr.getConvertedExpression(type)`

  /** The stack after an instruction or stream, or the error and the stack as the error left it. */
  datatype Outcome = Done(stack: seq<Node>) | Aborted(error: Error, stack: seq<Node>)

  /** The result of a pop loop: the popped entries in pop order, or the error that ended it. */
  datatype Popped = Popped(items: seq<Node>, rest: seq<Node>) | PopFailed(error: Error, rest: seq<Node>)

  /**
   * How many of the first `n` entries a pop loop with cast `c` gets through
   * before it meets an entry the cast rejects (or the end of the stack).
   */
  function FirstRejected(s: seq<Node>, n: nat, c: Cast): (k: nat)
    ensures k <= n && k <= |s|
    ensures forall j :: 0 <= j < k ==> Accepts(c, s[j])
    ensures k < n && k < |s| ==> !Accepts(c, s[k])
    decreases n
  {
    if n == 0 || s == [] || !Accepts(c, s[0]) then 0 else 1 + FirstRejected(s[1..], n - 1, c)
  }

  /**
   * The loop `for (i = 0; i < n; i++) a[i] = (C) stack.pop();`, one pop at a
   * time: it either yields the top `n` entries with the head at index 0, or
   * stops at the first empty pop or failed cast, with every entry popped so
   * far (the rejected one included) gone from the stack.
   */
  function Take(s: seq<Node>, n: nat, c: Cast): (r: Popped)
    ensures var k := FirstRejected(s, n, c);
      if k < n && k < |s| then r == PopFailed(ClassCast, s[k + 1..])
      else if |s| < n then r == PopFailed(EmptyStack, [])
      else r == Popped(s[..n], s[n..])
    decreases n
  {
    if n == 0 then Popped([], s)
    else if s == [] then PopFailed(EmptyStack, [])
    else if !Accepts(c, s[0]) then PopFailed(ClassCast, s[1..])
    else
      match Take(s[1..], n - 1, c)
      case Popped(items, rest) => Popped([s[0]] + items, rest)
      case PopFailed(e, rest) => PopFailed(e, rest)
  }

  /** How many entries a successful instruction pops. */
  function Pops(instr: Instr): nat
  {
    match instr
    case InitElement(_, parse, _, _) => parse.exprCount
    case ExpressionList(_, size, _) => if size < 0 then 0 else size
    case LiteralList(_, size, _) => if size < 0 then 0 else size
    case VariableString(_, size, _, _) => if size < 0 then 0 else size
    case Variable(_, _, _) => 1
    case ConvertedExpression(_) => 1
    case _ => 0
  }

  /** How many entries a successful instruction pushes. */
  function Pushes(instr: Instr): nat
  {
    if instr.FunctionCall? then 0 else 1
  }

  /** The cast each popped operand of the instruction goes through. */
  function CastOf(instr: Instr): Cast
  {
    match instr
    case InitElement(_, _, _, _) => ToExpression
    case ExpressionList(_, _, _) => ToExpression
    case ConvertedExpression(_) => ToExpression
    case LiteralList(_, _, _) => ToLiteral
    case Variable(_, _, _) => ToVariableString
    case _ => ToObject
  }

  /**
   * The stack discipline of one instruction that pops `pops` entries and
   * pushes `pushes`: on success the `pops` entries were there and everything
   * below them is untouched under the `pushes` new ones; on failure at most
   * `pops` entries were taken off the top and nothing was pushed.
   */
  predicate Keeps(s: seq<Node>, pops: nat, pushes: nat, r: Outcome)
  {
    && (r.Done? ==> pops <= |s| && |r.stack| == |s| - pops + pushes && r.stack[pushes..] == s[pops..])
    && (r.Aborted? ==> |s| - pops <= |r.stack| <= |s| && r.stack == s[|s| - |r.stack|..])
  }

  /**
   * A pop loop of `n` entries with cast `c`, then the push of the node built
   * from the popped entries (`None` stands for a null result, which
   * `ArrayDeque.push` refuses).
   */
  function PopAndPush(s: seq<Node>, n: nat, c: Cast, build: seq<Node> -> Option<Node>): (r: Outcome)
    ensures Keeps(s, n, 1, r)
  {
    match Take(s, n, c)
    case PopFailed(e, rest) => Aborted(e, rest)
    case Popped(items, rest) =>
      match build(items)
      case None => Aborted(NullPointer, rest)
      case Some(x) => Done([x] + rest)
  }

  /**
   * One instruction. A successful step popped `Pops(instr)` entries that
   * were there, pushed `Pushes(instr)` and left everything below untouched;
   * a failed one took at most `Pops(instr)` entries off the top and pushed
   * nothing.
   */
  function Step(reg: Registry, instr: Instr, s: seq<Node>): (r: Outcome)
    ensures Keeps(s, Pops(instr), Pushes(instr), r)
  {
    match instr
    case InitElement(t, parse, pattern, delayed) =>
      // the value `init` returns is not looked at: the element is pushed anyway
      if !reg.instantiable(t) then Aborted(InstantiationFailed, s)
      else PopAndPush(s, parse.exprCount, ToExpression,
                     ops => Some(Element(t, ops, pattern, delayed, parse)))
    case DefaultExpr(t) =>
      (match reg.defaultExpression(t)
       case None => Aborted(NullPointer, s)
       case Some(d) => Done([d] + s))
    case ExpressionList(t, size, and) =>
      if size < 0 then Aborted(NegativeArraySize, s)
      else PopAndPush(s, size, ToExpression, items => Some(ExprList(items, t, and)))
    case LiteralList(t, size, and) =>
      if size < 0 then Aborted(NegativeArraySize, s)
      else PopAndPush(s, size, ToLiteral, items => Some(LitList(items, t, and)))
    case Variable(types, local, list) =>
      PopAndPush(s, 1, ToVariableString,
                items => if |items| == 1 && reg.newVariable(items[0], types, local, list)
                         then Some(Var(items[0], types, local, list)) else None)
    case FunctionCall(_) =>
      Done(s)
    case VariableString(original, size, isSimple, mode) =>
      if size < 0 then Aborted(NegativeArraySize, s)
      else PopAndPush(s, size, ToObject,
                     parts => if reg.newVariableString(original, parts, isSimple, mode)
                              then Some(Template(original, parts, isSimple, mode)) else None)
    case StringLiteral(str) =>
      Done([Str(str)] + s)
    case UnparsedLiteral(unparsed) =>
      Done([Unparsed(unparsed)] + s)
    case ConvertedExpression(t) =>
      PopAndPush(s, 1, ToExpression,
                items => if |items| == 1 then reg.convert(items[0], t) else None)
    case SimpleLiteral(value) =>
      Done([Simple(value, false)] + s)
  }

  /** Runs the instructions in stream order; the first failure ends the run. */
  function Replay(reg: Registry, instrs: seq<Instr>, s: seq<Node>): Outcome
    decreases |instrs|
  {
    if instrs == [] then Done(s)
    else
      match Step(reg, instrs[0], s)
      case Done(s') => Replay(reg, instrs[1..], s')
      case Aborted(e, rest) => Aborted(e, rest)
  }
}

/** What replaying whole instruction streams does. */
module Replaying {
  import opened Wrappers
  import opened Syntax
  import opened BitCode

  /** Running two streams one after the other is running their concatenation. */
  lemma {:induction false} ReplayAppend(reg: Registry, a: seq<Instr>, b: seq<Instr>, s: seq<Node>)
    ensures Replay(reg, a + b, s) ==
      match Replay(reg, a, s)
      case Done(s') => Replay(reg, b, s')
      case Aborted(e, rest) => Aborted(e, rest)
    decreases |a|
  {
    if a == [] {
      assert a + b == b;
    } else {
      assert (a + b)[0] == a[0] && (a + b)[1..] == a[1..] + b;
      match Step(reg, a[0], s)
      case Done(s') => ReplayAppend(reg, a[1..], b, s');
      case Aborted(_, _) =>
    }
  }

  /** The net change in stack height of a stream that runs to its end. */
  function Net(instrs: seq<Instr>): int
  {
    if instrs == [] then 0 else Pushes(instrs[0]) - Pops(instrs[0]) + Net(instrs[1..])
  }

  /**
   * How far below its starting height a stream reaches: each instruction
   * first pops its operands and then pushes, so the lowest point is either
   * the first instruction's pops or the rest's lowest point seen from the
   * height the first instruction left.
   */
  function Depth(instrs: seq<Instr>): nat
  {
    if instrs == [] then 0
    else
      var rest := Pops(instrs[0]) - Pushes(instrs[0]) + Depth(instrs[1..]);
      if rest < Pops(instrs[0]) then Pops(instrs[0]) else rest
  }

  /** `t` is what `x` holds at its bottom. */
  predicate EndsWith(x: seq<Node>, t: seq<Node>)
  {
    |t| <= |x| && x[|x| - |t|..] == t
  }

  lemma EndsWithTrans(x: seq<Node>, y: seq<Node>, z: seq<Node>)
    requires EndsWith(x, y) && EndsWith(y, z)
    ensures EndsWith(x, z)
  {
    assert x[|x| - |z|..] == x[|x| - |y|..][|y| - |z|..];
  }

  /**
   * A stream that runs to its end never reached below the bottom of the
   * stack, leaves exactly `Net(instrs)` more entries, and what was on the
   * stack below the lowest point the run reached is still there, at the
   * bottom of the final stack.
   */
  lemma {:induction false} ReplayHeight(reg: Registry, instrs: seq<Instr>, s: seq<Node>)
    requires Replay(reg, instrs, s).Done?
    ensures |Replay(reg, instrs, s).stack| == |s| + Net(instrs)
    ensures Depth(instrs) <= |s|
    ensures EndsWith(Replay(reg, instrs, s).stack, s[Depth(instrs)..])
    decreases |instrs|
  {
    if instrs != [] {
      var i := instrs[0];
      var s' := Step(reg, i, s).stack;
      var r := Replay(reg, instrs, s).stack;
      ReplayHeight(reg, instrs[1..], s');
      var d' := Depth(instrs[1..]);
      assert EndsWith(r, s'[d'..]);
      if d' < Pushes(i) {
        assert s'[d'..][Pushes(i) - d'..] == s'[Pushes(i)..] == s[Pops(i)..];
        EndsWithTrans(r, s'[d'..], s[Pops(i)..]);
      } else {
        assert s'[d'..] == s'[Pushes(i)..][d' - Pushes(i)..];
      }
    } else {
      assert Replay(reg, instrs, s).stack == s;
    }
  }

  /**
   * Fail-fast: when the instructions before position `k` run to their end
   * and instruction `k` fails, the whole stream fails with exactly that
   * error and that stack; nothing after `k` runs.
   */
  lemma FailureEndsReplay(reg: Registry, instrs: seq<Instr>, k: nat, s: seq<Node>)
    requires k < |instrs| && Replay(reg, instrs[..k], s).Done?
    requires Step(reg, instrs[k], Replay(reg, instrs[..k], s).stack).Aborted?
    ensures Replay(reg, instrs, s) == Step(reg, instrs[k], Replay(reg, instrs[..k], s).stack)
  {
    var mid := Replay(reg, instrs[..k], s).stack;
    assert instrs == instrs[..k] + instrs[k..];
    ReplayAppend(reg, instrs[..k], instrs[k..], s);
    assert instrs[k..][0] == instrs[k];
    match Step(reg, instrs[k], mid)
    case Aborted(e, rest) =>
      assert Replay(reg, instrs[k..], mid) == Aborted(e, rest);
  }

  /** The instructions that push a literal built from their own argument alone. */
  predicate IsLeaf(instr: Instr)
  {
    instr.StringLiteral? || instr.UnparsedLiteral? || instr.SimpleLiteral?
  }

  /** The node a leaf instruction pushes. */
  function LeafNode(instr: Instr): Node
    requires IsLeaf(instr)
  {
    match instr
    case StringLiteral(str) => Str(str)
    case UnparsedLiteral(unparsed) => Unparsed(unparsed)
    case SimpleLiteral(value) => Simple(value, false)
  }

  /** The nodes the leaf instructions push, in stream order. */
  function LeafNodes(leaves: seq<Instr>): (ns: seq<Node>)
    requires forall i :: 0 <= i < |leaves| ==> IsLeaf(leaves[i])
    ensures |ns| == |leaves|
  {
    if leaves == [] then [] else [LeafNode(leaves[0])] + LeafNodes(leaves[1..])
  }

  /** The nodes in the opposite order. */
  function Reversed(ns: seq<Node>): (r: seq<Node>)
    ensures |r| == |ns| && multiset(r) == multiset(ns)
  {
    if ns == [] then []
    else
      assert ns == [ns[0]] + ns[1..];
      Reversed(ns[1..]) + [ns[0]]
  }

  /** Leaves other than raw strings push expressions. */
  lemma {:induction false} LeafNodesAreExpressions(leaves: seq<Instr>)
    requires forall i :: 0 <= i < |leaves| ==> IsLeaf(leaves[i]) && !leaves[i].StringLiteral?
    ensures forall n :: n in LeafNodes(leaves) ==> IsExpression(n)
    decreases |leaves|
  {
    if leaves != [] {
      LeafNodesAreExpressions(leaves[1..]);
    }
  }

  /** Reversing moves the head to the end. */
  lemma ReversedCons(top: Node, rest: seq<Node>, s: seq<Node>)
    ensures Reversed([top] + rest) + s == Reversed(rest) + ([top] + s)
  {
    assert ([top] + rest)[1..] == rest;
  }

  /** Every leaf instruction pushes its node and touches nothing else. */
  lemma LeafStep(reg: Registry, instr: Instr, s: seq<Node>)
    requires IsLeaf(instr)
    ensures Step(reg, instr, s) == Done([LeafNode(instr)] + s)
  {
  }

  /** Replaying leaf instructions stacks their nodes with the last one on top. */
  lemma {:induction false} LeavesPushReversed(reg: Registry, leaves: seq<Instr>, s: seq<Node>)
    requires forall i :: 0 <= i < |leaves| ==> IsLeaf(leaves[i])
    ensures Replay(reg, leaves, s) == Done(Reversed(LeafNodes(leaves)) + s)
    decreases |leaves|
  {
    if leaves != [] {
      var top := LeafNode(leaves[0]);
      LeafStep(reg, leaves[0], s);
      assert Replay(reg, leaves, s) == Replay(reg, leaves[1..], [top] + s);
      LeavesPushReversed(reg, leaves[1..], [top] + s);
      var rest := LeafNodes(leaves[1..]);
      assert LeafNodes(leaves) == [top] + rest;
      ReversedCons(top, rest, s);
    }
  }

  /**
   * Pushing `k` expression leaves and then building an expression list of
   * size `k` gives a list of exactly those leaves in the reverse of the
   * order they were pushed, on top of the untouched stack.
   */
  lemma ExpressionListReversesPushOrder(reg: Registry, leaves: seq<Instr>, t: TypeId, and: bool, s: seq<Node>)
    requires forall i :: 0 <= i < |leaves| ==> IsLeaf(leaves[i]) && !leaves[i].StringLiteral?
    ensures Replay(reg, leaves + [ExpressionList(t, |leaves|, and)], s)
         == Done([ExprList(Reversed(LeafNodes(leaves)), t, and)] + s)
  {
    var ns := Reversed(LeafNodes(leaves));
    ReplayAppend(reg, leaves, [ExpressionList(t, |leaves|, and)], s);
    LeavesPushReversed(reg, leaves, s);
    assert (ns + s)[..|leaves|] == ns && (ns + s)[|leaves|..] == s;
    LeafNodesAreExpressions(leaves);
    forall j | 0 <= j < |leaves| ensures IsExpression((ns + s)[j]) {
      assert (ns + s)[j] in multiset(ns);
    }
    assert FirstRejected(ns + s, |leaves|, ToExpression) == |leaves|;
  }

  /**
   * Pushing `k` raw strings and then building a templated string of size
   * `k` hands the factory the strings in the reverse of the order they were
   * pushed, and the stack below is untouched.
   */
  lemma VariableStringReversesPushOrder(reg: Registry, strs: seq<Instr>, original: string,
                                        isSimple: bool, mode: StringMode, s: seq<Node>)
    requires forall i :: 0 <= i < |strs| ==> strs[i].StringLiteral?
    requires reg.newVariableString(original, Reversed(LeafNodes(strs)), isSimple, mode)
    ensures Replay(reg, strs + [VariableString(original, |strs|, isSimple, mode)], s)
         == Done([Template(original, Reversed(LeafNodes(strs)), isSimple, mode)] + s)
  {
    var ns := Reversed(LeafNodes(strs));
    ReplayAppend(reg, strs, [VariableString(original, |strs|, isSimple, mode)], s);
    LeavesPushReversed(reg, strs, s);
    assert (ns + s)[..|strs|] == ns && (ns + s)[|strs|..] == s;
    assert FirstRejected(ns + s, |strs|, ToObject) == |strs|;
  }

  /** The operands a composite node was built from, in the order of its array. */
  function Operands(n: Node): seq<Node>
  {
    match n
    case ExprList(items, _, _) => items
    case LitList(items, _, _) => items
    case Template(_, parts, _, _) => parts
    case Element(_, operands, _, _, _) => operands
    case Var(name, _, _, _) => [name]
    case _ => []
  }

  /**
   * Every instruction that pops builds its node from exactly the entries it
   * popped, element `i` being the `i`-th pop: index 0 is the previous top.
   */
  lemma OperandsInPopOrder(reg: Registry, instr: Instr, s: seq<Node>)
    requires Step(reg, instr, s).Done? && Pops(instr) > 0 && !instr.ConvertedExpression?
    ensures Operands(Step(reg, instr, s).stack[0]) == s[..Pops(instr)]
  {
  }

  /**
   * `InitElement` succeeds exactly when the class can be instantiated and
   * the top `exprCount` entries exist and are expressions; it then pushes
   * the element built from them whatever `init` answers. A class that
   * cannot be instantiated fails before anything is popped.
   */
  lemma InitElementOutcome(reg: Registry, t: ElementType, parse: ParseResult, pattern: int,
                           delayed: Kleenean, s: seq<Node>)
    ensures var r := Step(reg, InitElement(t, parse, pattern, delayed), s);
      && (r.Done? <==> reg.instantiable(t) && parse.exprCount <= |s| &&
                       forall j :: 0 <= j < parse.exprCount ==> IsExpression(s[j]))
      && (r.Done? ==> r.stack == [Element(t, s[..parse.exprCount], pattern, delayed, parse)] + s[parse.exprCount..])
      && (!reg.instantiable(t) ==> r == Aborted(InstantiationFailed, s))
  {
  }

  /** The answer of `init` never changes what a stream replays to. */
  lemma {:induction false} InitAnswerIgnored(reg: Registry, answer: (ElementType, seq<Node>, int, Kleenean, ParseResult) -> bool,
                                             instrs: seq<Instr>, s: seq<Node>)
    ensures Replay(reg.(init := answer), instrs, s) == Replay(reg, instrs, s)
    decreases |instrs|
  {
    if instrs != [] {
      var reg' := reg.(init := answer);
      assert Step(reg', instrs[0], s) == Step(reg, instrs[0], s);
      match Step(reg, instrs[0], s)
      case Done(s') => InitAnswerIgnored(reg, answer, instrs[1..], s');
      case Aborted(_, _) =>
    }
  }

  /** Whether the checks an instruction makes before its first pop pass. */
  predicate PrechecksPass(reg: Registry, instr: Instr)
  {
    match instr
    case InitElement(t, _, _, _) => reg.instantiable(t)
    case ExpressionList(_, size, _) => size >= 0
    case LiteralList(_, size, _) => size >= 0
    case VariableString(_, size, _, _) => size >= 0
    case _ => true
  }

  /**
   * An instruction that needs more operands than the stack holds fails with
   * an empty-stack error once it has popped the whole stack; it never
   * substitutes a value.
   */
  lemma Underflow(reg: Registry, instr: Instr, s: seq<Node>)
    requires |s| < Pops(instr) && PrechecksPass(reg, instr)
    requires forall j :: 0 <= j < |s| ==> Accepts(CastOf(instr), s[j])
    ensures Step(reg, instr, s) == Aborted(EmptyStack, [])
  {
  }

  /** A raw string is not an expression: listing two pushed strings fails on the first pop. */
  lemma StringsAreNotListOperands(reg: Registry, t: TypeId)
    ensures Replay(reg, [StringLiteral("a"), StringLiteral("b"), ExpressionList(t, 2, true)], [])
         == Aborted(ClassCast, [Str("a")])
  {
    var instrs := [StringLiteral("a"), StringLiteral("b"), ExpressionList(t, 2, true)];
    assert Step(reg, instrs[0], []) == Done([Str("a")]);
    assert Step(reg, instrs[1], [Str("a")]) == Done([Str("b"), Str("a")]);
    assert FirstRejected([Str("b"), Str("a")], 2, ToExpression) == 0;
    assert Step(reg, instrs[2], [Str("b"), Str("a")]) == Aborted(ClassCast, [Str("a")]);
    assert instrs[1..][1..] == [instrs[2]];
    assert Replay(reg, instrs[1..][1..], [Str("b"), Str("a")]) == Aborted(ClassCast, [Str("a")]);
  }

  /** Two unparsed literals listed come out with the second one first. */
  lemma TwoUnparsedListed(reg: Registry, t: TypeId)
    ensures Replay(reg, [UnparsedLiteral("a"), UnparsedLiteral("b"), ExpressionList(t, 2, true)], [])
         == Done([ExprList([Unparsed("b"), Unparsed("a")], t, true)])
  {
    var instrs := [UnparsedLiteral("a"), UnparsedLiteral("b"), ExpressionList(t, 2, true)];
    var pushed := [Unparsed("b"), Unparsed("a")];
    assert Step(reg, instrs[0], []) == Done([Unparsed("a")]);
    assert Step(reg, instrs[1], [Unparsed("a")]) == Done(pushed);
    assert FirstRejected(pushed, 2, ToExpression) == 2;
    assert pushed[..2] == pushed && pushed[2..] == [];
    assert Step(reg, instrs[2], pushed) == Done([ExprList(pushed, t, true)]);
    assert instrs[1..][1..] == [instrs[2]];
    assert Replay(reg, instrs[1..][1..], pushed) == Done([ExprList(pushed, t, true)]);
  }
}
