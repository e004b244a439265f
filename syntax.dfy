/**
 * The syntax nodes that the bit-code loader puts on its stack, and the Java
 * casts it applies to them when it pops them.
 */
module Syntax {

  /** A `Class<?>` naming a semantic type (a registered value category). */
  datatype TypeId = TypeId(name: string)

  /** What a syntax element class implements besides `SyntaxElement`. */
  datatype ElementKind = Statement | ExpressionElement | LiteralElement

  /** A `Class<T extends SyntaxElement>` that the loader instantiates by reflection. */
  datatype ElementType = ElementType(name: string, kind: ElementKind)

  /** `ch.njol.util.Kleenean`, the "is delayed" flag handed to an element's `init`. */
  datatype Kleenean = False | Unknown | True

  /** `ch.njol.skript.util.StringMode`: how embedded expressions of a templated string print. */
  datatype StringMode = Message | Command | VariableName

  /**
   * The part of `SkriptParser.ParseResult` the loader and the conditions read:
   * the number of expressions the pattern matched (`exprs.length`) and the
   * parse mark.
   */
  datatype ParseResult = ParseResult(exprCount: nat, mark: int)

  /** An arbitrary host object held by a simple literal, known only by identity. */
  datatype HostValue = HostValue(handle: nat)

  /**
   * Everything the loader can push. `Str` is a raw `java.lang.String`, which
   * is not an expression; each other constructor records the arguments the
   * corresponding Java constructor or factory received.
   */
  datatype Node =
    | Str(text: string)
    | Unparsed(text: string)
    | Simple(value: HostValue, generated: bool)
    | ExprList(items: seq<Node>, itemType: TypeId, and: bool)
    | LitList(items: seq<Node>, itemType: TypeId, and: bool)
    | Var(name: Node, types: seq<TypeId>, local: bool, list: bool)
    | Template(original: string, parts: seq<Node>, isSimple: bool, mode: StringMode)
    | Element(elementType: ElementType, operands: seq<Node>, matchedPattern: int,
              isDelayed: Kleenean, parse: ParseResult)

  /** Whether the node's Java class implements `Expression`. */
  predicate IsExpression(n: Node)
  {
    match n
    case Str(_) => false
    case Element(t, _, _, _, _) => t.kind != Statement
    case _ => true
  }

  /** Whether the node's Java class implements `Literal`. */
  predicate IsLiteral(n: Node)
  {
    match n
    case Unparsed(_) => true
    case Simple(_, _) => true
    case LitList(_, _, _) => true
    case Element(t, _, _, _, _) => t.kind == LiteralElement
    case _ => false
  }

  /** The checked casts the loader applies to popped entries. */
  datatype Cast = ToObject | ToExpression | ToLiteral | ToVariableString

  /** Whether the cast succeeds on the node instead of throwing `ClassCastException`. */
  predicate Accepts(c: Cast, n: Node)
  {
    match c
    case ToObject => true
    case ToExpression => IsExpression(n)
    case ToLiteral => IsLiteral(n)
    case ToVariableString => n.Template?
  }
}
