/**
 * The part of a Go syntax tree (go/ast) that the query extractor looks at,
 * together with what the type checker (go/types) knows about identifiers.
 */
module Ast {

  /** The token kind of a basic literal: INT, FLOAT, IMAG, CHAR or STRING. */
  datatype LitKind = IntLit | FloatLit | ImagLit | CharLit | StringLit

  /**
   * A syntax-tree node.
   * - BasicLit: a literal token; `value` is its source text, quotes and escapes included.
   * - Ident: an identifier occurrence; `id` stands for the identity of the
   *   *ast.Ident pointer, which is what the type checker's tables are keyed by.
   * - Selector: `x.sel`; the selected name is itself an identifier node (`selId`).
   * - Call: `fun(args...)`.
   * - Other: every other node (files, declarations, statements, other
   *   expressions), with its children in the order ast.Walk visits them.
   */
  datatype Node =
    | BasicLit(kind: LitKind, value: string)
    | Ident(id: nat, name: string)
    | Selector(x: Node, selId: nat, sel: string)
    | Call(fun: Node, args: seq<Node>)
    | Other(children: seq<Node>)

  /** The kind of a constant's value (go/constant.Kind). */
  datatype ConstKind = BoolConst | StringConst | IntConst | FloatConst | ComplexConst

  /**
   * The object an identifier denotes: a declared constant, with the exact
   * textual form of its value (constant.Value.ExactString), or anything else
   * (variable, function, type name, package name, label, builtin, nil).
   */
  datatype Object = Const(kind: ConstKind, exact: string) | NonConst

  /** The type checker's identifier table (types.Info.ObjectOf); a missing occurrence has no object. */
  type Info = map<nat, Object>

  /** The children of a node, in the order ast.Walk visits them. */
  function Children(n: Node): seq<Node>
  {
    match n
    case BasicLit(_, _) => []
    case Ident(_, _) => []
    case Selector(x, selId, sel) => [x, Ident(selId, sel)]
    case Call(fun, args) => [fun] + args
    case Other(cs) => cs
  }

  /** The number of nodes in a tree; the measure that walks over trees decrease. */
  function Size(n: Node): (r: nat)
    ensures r >= 1
  {
    match n
    case BasicLit(_, _) => 1
    case Ident(_, _) => 1
    case Selector(x, _, _) => 2 + Size(x)
    case Call(fun, args) => 1 + Size(fun) + SizeAll(args)
    case Other(cs) => 1 + SizeAll(cs)
  }

  function SizeAll(ns: seq<Node>): nat
  {
    if ns == [] then 0 else SizeAll(ns[..|ns| - 1]) + Size(ns[|ns| - 1])
  }

  lemma {:induction false} SizeAllAppend(xs: seq<Node>, ys: seq<Node>)
    ensures SizeAll(xs + ys) == SizeAll(xs) + SizeAll(ys)
    decreases |ys|
  {
    if ys != [] {
      assert (xs + ys)[..|xs + ys| - 1] == xs + ys[..|ys| - 1];
      SizeAllAppend(xs, ys[..|ys| - 1]);
    } else {
      assert xs + ys == xs;
    }
  }

  lemma ChildrenSmaller(n: Node)
    ensures SizeAll(Children(n)) < Size(n)
  {
    match n
    case Selector(x, selId, sel) =>
      assert [x, Ident(selId, sel)][..1] == [x];
      assert SizeAll([x]) == Size(x) by { assert [x][..0] == []; }
    case Call(fun, args) =>
      SizeAllAppend([fun], args);
      assert SizeAll([fun]) == Size(fun) by { assert [fun][..0] == []; }
    case _ =>
  }

  lemma {:induction false} ElementSmaller(ns: seq<Node>, i: nat)
    requires i < |ns|
    ensures Size(ns[i]) <= SizeAll(ns)
    decreases |ns|
  {
    if i < |ns| - 1 {
      ElementSmaller(ns[..|ns| - 1], i);
    }
  }
}
