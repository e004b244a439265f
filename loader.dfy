/**
 * The loader as the Java code has it: an object owning one `ArrayDeque`,
 * with one method per bit-code instruction that pops and pushes on it in
 * place. Each method is proved to do exactly what `BitCode.Step` says,
 * including how much of the deque is already gone when it throws.
 */
module Load {
  import opened Wrappers
  import opened Syntax
  import opened BitCode

  /** `java.util.ArrayDeque` used as a stack: index 0 of `items` is the head. */
  class ArrayDeque {
    var items: seq<Node>

    constructor ()
      ensures items == []
    {
      items := [];
    }

    /** `push`: adds at the head. */
    method Push(x: Node)
      modifies this
      ensures items == [x] + old(items)
    {
      items := [x] + items;
    }

    /** `pop`: removes the head, or throws `NoSuchElementException` (here `None`) on an empty deque. */
    method Pop() returns (x: Option<Node>)
      modifies this
      ensures old(items) == [] ==> x == None && items == []
      ensures old(items) != [] ==> x == Some(old(items)[0]) && items == old(items)[1..]
    {
      if items == [] {
        x := None;
      } else {
        x := Some(items[0]);
        items := items[1..];
      }
    }
  }

  /** A method's way out (normal return or the exception it throws) and the stack it leaves, as an `Outcome`. */
  function Exit(err: Option<Error>, s: seq<Node>): Outcome
  {
    match err
    case None => Done(s)
    case Some(e) => Aborted(e, s)
  }

  class BitCodeLoader {
    /** The one deque the loader owns; it is never replaced, and `Load` hands it out. */
    const stack: ArrayDeque

    constructor ()
      ensures fresh(stack) && stack.items == []
    {
      stack := new ArrayDeque();
    }

    /**
     * The pop loop `for (i = 0; i < a.length; i++) a[i] = (C) stack.pop();`
     * shared by `initElement`, `expressionList`, `literalList` and
     * `variableString`.
     */
    method PopInto(a: array<Node>, c: Cast) returns (err: Option<Error>)
      modifies stack, a
      ensures Take(old(stack.items), a.Length, c) ==
        if err.None? then Popped(a[..], stack.items) else PopFailed(err.value, stack.items)
    {
      ghost var s := stack.items;
      var i := 0;
      while i < a.Length
        invariant i <= a.Length && i <= |s|
        invariant stack.items == s[i..]
        invariant a[..i] == s[..i]
        invariant forall j :: 0 <= j < i ==> Accepts(c, s[j])
      {
        var x := stack.Pop();
        if x.None? {
          assert FirstRejected(s, a.Length, c) == i;
          return Some(EmptyStack);
        }
        // the cast comes after the pop: a rejected entry is already gone
        if !Accepts(c, x.value) {
          assert FirstRejected(s, a.Length, c) == i;
          return Some(ClassCast);
        }
        a[i] := x.value;
        i := i + 1;
      }
      assert FirstRejected(s, a.Length, c) == a.Length;
      assert a[..] == a[..i];
      return None;
    }

    /** `initElement`: instantiate, pop `parseResult.exprs.length` expressions, call `init`, push. */
    method InitElement(reg: Registry, elementType: ElementType, parse: ParseResult,
                       matchedPattern: int, isDelayed: Kleenean) returns (err: Option<Error>)
      modifies stack
      ensures Exit(err, stack.items) ==
        Step(reg, Instr.InitElement(elementType, parse, matchedPattern, isDelayed), old(stack.items))
    {
      if !reg.instantiable(elementType) {
        return Some(InstantiationFailed);
      }
      var exprs := new Node[parse.exprCount];
      err := PopInto(exprs, ToExpression);
      if err.Some? {
        return;
      }
      // what `init` answers is dropped
      var initialized := reg.init(elementType, exprs[..], matchedPattern, isDelayed, parse);
      stack.Push(Element(elementType, exprs[..], matchedPattern, isDelayed, parse));
    }

    /** `defaultExpr`: push the default expression registered for the type. */
    method DefaultExpr(reg: Registry, semanticType: TypeId) returns (err: Option<Error>)
      modifies stack
      ensures Exit(err, stack.items) == Step(reg, Instr.DefaultExpr(semanticType), old(stack.items))
    {
      var d := reg.defaultExpression(semanticType);
      if d.None? {
        return Some(NullPointer);
      }
      stack.Push(d.value);
      return None;
    }

    /** `expressionList`: pop `size` expressions into an array, push the list built on it. */
    method ExpressionList(reg: Registry, itemType: TypeId, size: int, and: bool) returns (err: Option<Error>)
      modifies stack
      ensures Exit(err, stack.items) == Step(reg, Instr.ExpressionList(itemType, size, and), old(stack.items))
    {
      if size < 0 {
        return Some(NegativeArraySize);
      }
      var exprs := new Node[size];
      err := PopInto(exprs, ToExpression);
      if err.Some? {
        return;
      }
      stack.Push(ExprList(exprs[..], itemType, and));
    }

    /** `literalList`: pop `size` literals into an array, push the list built on it. */
    method LiteralList(reg: Registry, itemType: TypeId, size: int, and: bool) returns (err: Option<Error>)
      modifies stack
      ensures Exit(err, stack.items) == Step(reg, Instr.LiteralList(itemType, size, and), old(stack.items))
    {
      if size < 0 {
        return Some(NegativeArraySize);
      }
      var exprs := new Node[size];
      err := PopInto(exprs, ToLiteral);
      if err.Some? {
        return;
      }
      stack.Push(LitList(exprs[..], itemType, and));
    }

    /** `variable`: pop the name (a templated string), push the variable built on it. */
    method Variable(reg: Registry, types: seq<TypeId>, local: bool, list: bool) returns (err: Option<Error>)
      modifies stack
      ensures Exit(err, stack.items) == Step(reg, Instr.Variable(types, local, list), old(stack.items))
    {
      ghost var s := stack.items;
      var name := stack.Pop();
      if name.None? {
        return Some(EmptyStack);
      }
      if !name.value.Template? {
        assert FirstRejected(s, 1, ToVariableString) == 0;
        return Some(ClassCast);
      }
      assert FirstRejected(s, 1, ToVariableString) == 1 && s[..1] == [name.value];
      if !reg.newVariable(name.value, types, local, list) {
        return Some(NullPointer);
      }
      stack.Push(Var(name.value, types, local, list));
      return None;
    }

    /**
     * `functionCall`: not implemented in the source, so it does nothing.
     * That it changes no state follows from its having no `modifies` clause;
     * the `ensures` adds that `Step` agrees for every registry.
     */
    method FunctionCall(functionName: string)
      ensures forall reg: Registry :: Step(reg, Instr.FunctionCall(functionName), stack.items) == Done(stack.items)
    {
    }

    /** `variableString`: pop `size` segments of any class, push the templated string made of them. */
    method VariableString(reg: Registry, original: string, size: int, isSimple: bool, mode: StringMode)
      returns (err: Option<Error>)
      modifies stack
      ensures Exit(err, stack.items) ==
        Step(reg, Instr.VariableString(original, size, isSimple, mode), old(stack.items))
    {
      if size < 0 {
        return Some(NegativeArraySize);
      }
      var elements := new Node[size];
      err := PopInto(elements, ToObject);
      if err.Some? {
        return;
      }
      if !reg.newVariableString(original, elements[..], isSimple, mode) {
        return Some(NullPointer);
      }
      stack.Push(Template(original, elements[..], isSimple, mode));
    }

    /** `stringLiteral`: push the raw string itself. */
    method StringLiteral(str: string)
      modifies stack
      ensures stack.items == [Str(str)] + old(stack.items)
      ensures forall reg: Registry :: Step(reg, Instr.StringLiteral(str), old(stack.items)) == Done(stack.items)
    {
      stack.Push(Str(str));
    }

    /** `unparsedLiteral`: push a new unparsed literal of the text. */
    method UnparsedLiteral(unparsed: string)
      modifies stack
      ensures stack.items == [Unparsed(unparsed)] + old(stack.items)
      ensures forall reg: Registry :: Step(reg, Instr.UnparsedLiteral(unparsed), old(stack.items)) == Done(stack.items)
    {
      stack.Push(Unparsed(unparsed));
    }

    /** `convertedExpression`: pop an expression, push its conversion to the type. */
    method ConvertedExpression(reg: Registry, targetType: TypeId) returns (err: Option<Error>)
      modifies stack
      ensures Exit(err, stack.items) == Step(reg, Instr.ConvertedExpression(targetType), old(stack.items))
    {
      ghost var s := stack.items;
      var expr := stack.Pop();
      if expr.None? {
        return Some(EmptyStack);
      }
      if !IsExpression(expr.value) {
        assert FirstRejected(s, 1, ToExpression) == 0;
        return Some(ClassCast);
      }
      assert FirstRejected(s, 1, ToExpression) == 1 && s[..1] == [expr.value];
      var converted := reg.convert(expr.value, targetType);
      if converted.None? {
        return Some(NullPointer);
      }
      stack.Push(converted.value);
      return None;
    }

    /** `simpleLiteral`: push a simple literal of the value, not marked as generated. */
    method SimpleLiteral(literal: HostValue)
      modifies stack
      ensures stack.items == [Simple(literal, false)] + old(stack.items)
      ensures forall reg: Registry :: Step(reg, Instr.SimpleLiteral(literal), old(stack.items)) == Done(stack.items)
    {
      stack.Push(Simple(literal, false));
    }

    /** `load`: the live deque itself, not a copy. */
    method Load() returns (d: ArrayDeque)
      ensures d == stack
    {
      d := stack;
    }
  }
}
