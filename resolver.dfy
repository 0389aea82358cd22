/**
 * The query-argument resolver: the text of an argument when it is a single
 * literal token or an identifier that denotes a constant, and otherwise the
 * empty string, which the caller reads as "absent".
 */
module Resolver {
  import opened Ast

  /** The identifier occurrence denotes a declared constant. */
  predicate DenotesConst(e: Node, info: Info)
  {
    e.Ident? && e.id in info && info[e.id].Const?
  }

  /**
   * processQuery. A literal gives back its source text verbatim, whatever its
   * kind; an identifier bound to a constant gives back the constant's exact
   * text, whatever its kind; every other expression gives "".
   */
  function ProcessQuery(arg: Node, info: Info): (r: string)
    ensures arg.BasicLit? ==> r == arg.value
    ensures DenotesConst(arg, info) ==> r == info[arg.id].exact
    ensures !arg.BasicLit? && !DenotesConst(arg, info) ==> r == ""
  {
    match arg
    case BasicLit(_, value) => value
    case Ident(id, _) => if id in info && info[id].Const? then info[id].exact else ""
    case _ => ""
  }

  /**
   * The texts a resolution can produce: literal token text and constant
   * value text are never empty in Go, so "" is free to mean "absent".
   */
  predicate NonEmptyTexts(arg: Node, info: Info)
  {
    (arg.BasicLit? ==> arg.value != "") && (DenotesConst(arg, info) ==> info[arg.id].exact != "")
  }

  /**
   * With non-empty texts, the resolver yields a value exactly when the
   * argument is a literal or an identifier denoting a constant.
   */
  lemma ResolvesIffStatic(arg: Node, info: Info)
    requires NonEmptyTexts(arg, info)
    ensures ProcessQuery(arg, info) != "" <==> arg.BasicLit? || DenotesConst(arg, info)
  {
  }

  /**
   * The literal's kind is not consulted: a numeric literal is resolved like a
   * string literal, and so is a constant of any kind.
   */
  lemma KindIsNotChecked(v: string, id: nat, name: string, k: ConstKind, info: Info)
    requires id in info && info[id] == Const(k, v)
    ensures ProcessQuery(BasicLit(IntLit, v), info) == ProcessQuery(BasicLit(StringLit, v), info) == v
    ensures ProcessQuery(Ident(id, name), info) == v
  {
  }
}
