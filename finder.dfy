/**
 * The call-site matcher: a visitor that walks a syntax tree, recognises calls
 * of catalogued methods, resolves their query argument and records the
 * non-empty results.
 */
module Finder {
  import opened Wrappers
  import opened Ast
  import Catalog
  import Resolver

  /** A call `x.Name(...)` whose selected name is in the catalog. */
  predicate IsCatalogCall(n: Node)
  {
    n.Call? && n.fun.Selector? && Catalog.InterfaceName(n.fun.sel) != ""
  }

  /**
   * What a walk over some nodes amounts to: the queries it records, in
   * visiting order, and whether it ended in a run-time panic (a catalogued
   * call with too few arguments for the query index).
   */
  datatype Scan = Scan(queries: seq<string>, panicked: bool)

  /** What visiting a catalogued call with these arguments records. */
  function Record(args: seq<Node>, index: Option<nat>, info: Info): Scan
  {
    match index
    case None => Scan([], false)
    case Some(k) =>
      if k < |args| then
        var q := Resolver.ProcessQuery(args[k], info);
        Scan(if q == "" then [] else [q], false)
      else
        Scan([], true)
  }

  /**
   * The walk of one tree, as a function: a catalogued call records its own
   * query and hides its subtree; every other node passes the walk on to its
   * children.
   */
  function Found(n: Node, info: Info): Scan
    decreases Size(n), 0
  {
    if IsCatalogCall(n) then
      Record(n.args, Catalog.QueryArgIndex(n.fun.sel), info)
    else
      ChildrenSmaller(n);
      FoundAll(Children(n), info)
  }

  /** The walks of several trees in order; a panic ends the run. */
  function FoundAll(ns: seq<Node>, info: Info): Scan
    decreases SizeAll(ns), 1
  {
    if ns == [] then Scan([], false)
    else
      var init := FoundAll(ns[..|ns| - 1], info);
      if init.panicked then init
      else
        var last := Found(ns[|ns| - 1], info);
        Scan(init.queries + last.queries, last.panicked)
  }

  /** Once a walk over a prefix has panicked, the rest of the trees are never walked. */
  lemma {:induction false} PanicIsFinal(ns: seq<Node>, j: nat, info: Info)
    requires j <= |ns| && FoundAll(ns[..j], info).panicked
    ensures FoundAll(ns, info) == FoundAll(ns[..j], info)
    decreases |ns| - j
  {
    if j < |ns| {
      assert ns[..|ns| - 1][..j] == ns[..j];
      PanicIsFinal(ns[..|ns| - 1], j, info);
    } else {
      assert ns[..j] == ns;
    }
  }

  /** Walking two lists of trees one after the other is walking their concatenation. */
  lemma {:induction false} FoundAllAppend(xs: seq<Node>, ys: seq<Node>, info: Info)
    ensures FoundAll(xs + ys, info) ==
      if FoundAll(xs, info).panicked then FoundAll(xs, info)
      else Scan(FoundAll(xs, info).queries + FoundAll(ys, info).queries, FoundAll(ys, info).panicked)
    decreases |ys|
  {
    if ys == [] {
      assert xs + ys == xs;
    } else {
      var ys' := ys[..|ys| - 1];
      assert (xs + ys)[..|xs + ys| - 1] == xs + ys';
      assert (xs + ys)[|xs + ys| - 1] == ys[|ys| - 1];
      FoundAllAppend(xs, ys', info);
    }
  }

  /**
   * The static texts written in a tree: the source text of every literal
   * token, and the exact text of every constant that an identifier of the
   * tree denotes.
   */
  function StaticTexts(n: Node, info: Info): set<string>
    decreases Size(n), 0
  {
    ChildrenSmaller(n);
    (if n.BasicLit? then {n.value} else {})
    + (if Resolver.DenotesConst(n, info) then {info[n.id].exact} else {})
    + StaticTextsAll(Children(n), info)
  }

  function StaticTextsAll(ns: seq<Node>, info: Info): set<string>
    decreases SizeAll(ns), 1
  {
    if ns == [] then {} else StaticTextsAll(ns[..|ns| - 1], info) + StaticTexts(ns[|ns| - 1], info)
  }

  lemma {:induction false} StaticTextsOfElement(ns: seq<Node>, i: nat, info: Info)
    requires i < |ns|
    ensures StaticTexts(ns[i], info) <= StaticTextsAll(ns, info)
    decreases |ns|
  {
    if i < |ns| - 1 {
      StaticTextsOfElement(ns[..|ns| - 1], i, info);
    }
  }

  /**
   * Every recorded query is non-empty and is either the text of a literal
   * token of the tree or the exact text of a constant that an identifier of
   * the tree denotes: the extractor never makes up text.
   */
  lemma {:induction false} FoundIsStatic(n: Node, info: Info)
    ensures forall q :: q in Found(n, info).queries ==> q != "" && q in StaticTexts(n, info)
    decreases Size(n), 0
  {
    ChildrenSmaller(n);
    if IsCatalogCall(n) {
      var k := Catalog.QueryArgIndex(n.fun.sel);
      if k.Some? && k.value < |n.args| {
        var arg := n.args[k.value];
        assert Children(n)[k.value + 1] == arg;
        StaticTextsOfElement(Children(n), k.value + 1, info);
        if arg.BasicLit? {
          assert arg.value in StaticTexts(arg, info);
        } else if Resolver.DenotesConst(arg, info) {
          assert info[arg.id].exact in StaticTexts(arg, info);
        }
      }
    } else {
      FoundAllIsStatic(Children(n), info);
    }
  }

  lemma {:induction false} FoundAllIsStatic(ns: seq<Node>, info: Info)
    ensures forall q :: q in FoundAll(ns, info).queries ==> q != "" && q in StaticTextsAll(ns, info)
    decreases SizeAll(ns), 1
  {
    if ns != [] {
      FoundAllIsStatic(ns[..|ns| - 1], info);
      FoundIsStatic(ns[|ns| - 1], info);
    }
  }

  /**
   * Two scans with the same outcome for the generated file: both panic, or
   * neither does and they record the same set of queries.
   */
  ghost predicate SameOutcome(a: Scan, b: Scan)
  {
    a.panicked == b.panicked && (!a.panicked ==> forall q :: q in a.queries <==> q in b.queries)
  }

  /**
   * A walk over several trees panics exactly when the walk of one of them
   * does, and otherwise records exactly the queries the single walks record.
   */
  lemma {:induction false} FoundAllByElements(ns: seq<Node>, info: Info)
    ensures FoundAll(ns, info).panicked <==> exists i :: 0 <= i < |ns| && Found(ns[i], info).panicked
    ensures !FoundAll(ns, info).panicked ==>
      forall q :: q in FoundAll(ns, info).queries <==> exists i :: 0 <= i < |ns| && q in Found(ns[i], info).queries
    decreases |ns|
  {
    if ns != [] {
      var init := ns[..|ns| - 1];
      var last := |ns| - 1;
      FoundAllByElements(init, info);
      assert forall i :: 0 <= i < |init| ==> init[i] == ns[i];
      if FoundAll(init, info).panicked {
        var i :| 0 <= i < |init| && Found(init[i], info).panicked;
        assert Found(ns[i], info).panicked;
      } else if !FoundAll(ns, info).panicked {
        forall q | exists i :: 0 <= i < |ns| && q in Found(ns[i], info).queries
          ensures q in FoundAll(ns, info).queries
        {
          var i :| 0 <= i < |ns| && q in Found(ns[i], info).queries;
          if i < last {
            assert q in Found(init[i], info).queries;
          }
        }
      }
    }
  }

  /** The walk over several trees, described by which trees are walked rather than where they stand. */
  lemma FoundAllByMembers(ns: seq<Node>, info: Info)
    ensures FoundAll(ns, info).panicked <==> exists n :: n in ns && Found(n, info).panicked
    ensures !FoundAll(ns, info).panicked ==>
      forall q :: q in FoundAll(ns, info).queries <==> exists n :: n in ns && q in Found(n, info).queries
  {
    FoundAllByElements(ns, info);
    if exists n :: n in ns && Found(n, info).panicked {
      var n :| n in ns && Found(n, info).panicked;
      var i :| 0 <= i < |ns| && ns[i] == n;
    }
    if !FoundAll(ns, info).panicked {
      forall q | exists n :: n in ns && q in Found(n, info).queries
        ensures q in FoundAll(ns, info).queries
      {
        var n :| n in ns && q in Found(n, info).queries;
        var i :| 0 <= i < |ns| && ns[i] == n;
      }
    }
  }

  /** Walking the same trees in another order has the same outcome. */
  lemma FoundAllPermutation(ns1: seq<Node>, ns2: seq<Node>, info: Info)
    requires multiset(ns1) == multiset(ns2)
    ensures SameOutcome(FoundAll(ns1, info), FoundAll(ns2, info))
  {
    forall n ensures n in ns1 <==> n in ns2 {
      assert n in ns1 <==> n in multiset(ns1);
      assert n in ns2 <==> n in multiset(ns2);
    }
    FoundAllByMembers(ns1, info);
    FoundAllByMembers(ns2, info);
  }

  /** Trees whose walks have the same outcome, one by one, have walks with the same outcome together. */
  lemma FoundAllPointwise(ns1: seq<Node>, ns2: seq<Node>, info: Info)
    requires |ns1| == |ns2|
    requires forall i :: 0 <= i < |ns1| ==> SameOutcome(Found(ns1[i], info), Found(ns2[i], info))
    ensures SameOutcome(FoundAll(ns1, info), FoundAll(ns2, info))
  {
    FoundAllByElements(ns1, info);
    FoundAllByElements(ns2, info);
    if FoundAll(ns1, info).panicked {
      var i :| 0 <= i < |ns1| && Found(ns1[i], info).panicked;
      assert Found(ns2[i], info).panicked;
    }
    if FoundAll(ns2, info).panicked {
      var i :| 0 <= i < |ns2| && Found(ns2[i], info).panicked;
      assert Found(ns1[i], info).panicked;
    }
    if !FoundAll(ns1, info).panicked {
      forall q ensures q in FoundAll(ns1, info).queries <==> q in FoundAll(ns2, info).queries {
        if q in FoundAll(ns1, info).queries {
          var i :| 0 <= i < |ns1| && q in Found(ns1[i], info).queries;
          assert q in Found(ns2[i], info).queries;
        }
        if q in FoundAll(ns2, info).queries {
          var i :| 0 <= i < |ns2| && q in Found(ns2[i], info).queries;
          assert q in Found(ns1[i], info).queries;
        }
      }
    }
  }

  /** Some node of the tree is a catalogued call. */
  predicate HasCatalogCall(n: Node)
    decreases Size(n), 0
  {
    ChildrenSmaller(n);
    IsCatalogCall(n) || HasCatalogCallAll(Children(n))
  }

  predicate HasCatalogCallAll(ns: seq<Node>)
    decreases SizeAll(ns), 1
  {
    ns != [] && (HasCatalogCallAll(ns[..|ns| - 1]) || HasCatalogCall(ns[|ns| - 1]))
  }

  /** A tree without a catalogued call records nothing and never panics. */
  lemma {:induction false} NoCatalogCallNoQueries(n: Node, info: Info)
    requires !HasCatalogCall(n)
    ensures Found(n, info) == Scan([], false)
    decreases Size(n), 0
  {
    ChildrenSmaller(n);
    NoCatalogCallAllNoQueries(Children(n), info);
  }

  lemma {:induction false} NoCatalogCallAllNoQueries(ns: seq<Node>, info: Info)
    requires !HasCatalogCallAll(ns)
    ensures FoundAll(ns, info) == Scan([], false)
    decreases SizeAll(ns), 1
  {
    if ns != [] {
      NoCatalogCallAllNoQueries(ns[..|ns| - 1], info);
      NoCatalogCallNoQueries(ns[|ns| - 1], info);
    }
  }

  /**
   * A catalogued call records at most its own query, and that depends on the
   * query argument alone: replacing any other argument, including one holding
   * further catalogued calls, changes nothing.
   */
  lemma CatalogCallHidesOtherArguments(n: Node, i: nat, e: Node, info: Info)
    requires IsCatalogCall(n) && i < |n.args|
    requires Catalog.QueryArgIndex(n.fun.sel) != Some(i)
    ensures |Found(n, info).queries| <= 1
    ensures Found(n.(args := n.args[i := e]), info) == Found(n, info)
  {
  }

  /** A call that is not catalogued records nothing itself: its callee and arguments are walked in order. */
  lemma UncataloguedCallDescends(n: Node, info: Info)
    requires n.Call? && !IsCatalogCall(n)
    ensures Found(n, info) == FoundAll([n.fun] + n.args, info)
  {
  }

  /** What Visit hands back to the walk: itself (go on into the children), nil (skip them), or a panic. */
  datatype Next = Descend | Prune | Panic

  /** queryFinder: the visitor and the queries it has recorded so far. */
  class QueryFinder {
    /** The type checker's identifier table of the scanned package. */
    const info: Info
    var queries: seq<string>

    constructor (info: Info)
      ensures this.info == info && queries == []
    {
      this.info := info;
      queries := [];
    }

    /**
     * Visit. A node that is not a catalogued call changes nothing and lets the
     * walk descend. A catalogued call stops the descent; it panics when it has
     * no argument at the query index, and otherwise appends the resolved
     * query unless it is "".
     */
    method Visit(node: Node) returns (next: Next)
      modifies this
      ensures !IsCatalogCall(node) ==> next == Descend && queries == old(queries)
      ensures IsCatalogCall(node) ==> next != Descend
      ensures IsCatalogCall(node) ==>
        var k := Catalog.QueryArgIndex(node.fun.sel);
        k.Some? && (k.value < |node.args| <==> next == Prune)
      ensures next == Panic ==> queries == old(queries)
      ensures next == Prune ==>
        var q := Resolver.ProcessQuery(node.args[Catalog.QueryArgIndex(node.fun.sel).value], info);
        queries == if q == "" then old(queries) else old(queries) + [q]
    {
      if !node.Call? || !node.fun.Selector? {
        return Descend;
      }
      var name := node.fun.sel;
      if Catalog.InterfaceName(name) == "" {
        return Descend;
      }
      Catalog.SwitchCoversCatalog(name);
      var query := "";
      match Catalog.QueryArgIndex(name) {
        case Some(k) =>
          if |node.args| <= k {
            return Panic;
          }
          query := Resolver.ProcessQuery(node.args[k], info);
        case None =>
      }
      if query != "" {
        queries := queries + [query];
      }
      return Prune;
    }

    /**
     * ast.Walk driven by this visitor: visit the node, then, unless the visit
     * said otherwise, walk its children in order. Its effect is exactly Found.
     */
    method Walk(n: Node) returns (ok: bool)
      modifies this
      decreases Size(n), 0
      ensures queries == old(queries) + Found(n, info).queries
      ensures ok == !Found(n, info).panicked
    {
      var next := Visit(n);
      if next == Panic {
        return false;
      }
      if next == Prune {
        return true;
      }
      ChildrenSmaller(n);
      ok := WalkList(Children(n));
    }

    /**
     * Walks several trees in order: the children of a node (ast's walkList),
     * or every file of the package in the loader's order. A panic ends it.
     */
    method WalkList(ns: seq<Node>) returns (ok: bool)
      modifies this
      decreases SizeAll(ns), 1
      ensures queries == old(queries) + FoundAll(ns, info).queries
      ensures ok == !FoundAll(ns, info).panicked
    {
      var i := 0;
      while i < |ns|
        invariant 0 <= i <= |ns|
        invariant queries == old(queries) + FoundAll(ns[..i], info).queries
        invariant !FoundAll(ns[..i], info).panicked
      {
        ElementSmaller(ns, i);
        ok := Walk(ns[i]);
        assert ns[..i + 1][..i] == ns[..i];
        if !ok {
          PanicIsFinal(ns, i + 1, info);
          return false;
        }
        i := i + 1;
      }
      assert ns[..i] == ns;
      return true;
    }
  }
}
