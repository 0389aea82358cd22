/** Concrete runs of the extractor on small packages. */
module Scenarios {
  import opened Wrappers
  import opened Ast
  import opened Finder
  import opened Pipeline
  import Emitter
  import StringOrder
  import Unique

  const Delete := "\"DELETE FROM users WHERE id = ?\""
  const Select := "\"SELECT 1\""

  /** `recv.name(args...)`, with identifier occurrences numbered from `id`. */
  function MethodCall(id: nat, recv: string, name: string, args: seq<Node>): Node
  {
    Call(Selector(Ident(id, recv), id + 1, name), args)
  }

  /** Two deletes with the same literal and one select. */
  const DeleteSelectDelete: seq<Node> := [
    MethodCall(1, "Conn", "ExecContext", [Ident(3, "ctx"), BasicLit(StringLit, Delete), Ident(4, "id")]),
    MethodCall(5, "Conn", "QueryContext", [Ident(7, "ctx"), BasicLit(StringLit, Select)]),
    MethodCall(8, "Conn", "ExecContext", [Ident(10, "ctx"), BasicLit(StringLit, Delete), Ident(11, "id2")])
  ]

  /** The walk records all three queries, in source order. */
  lemma WalkRecordsInOrder(info: Info)
    ensures FoundAll([Other(DeleteSelectDelete)], info) == Scan([Delete, Select, Delete], false)
  {
    var calls := DeleteSelectDelete;
    assert Found(calls[0], info) == Scan([Delete], false);
    assert Found(calls[1], info) == Scan([Select], false);
    assert Found(calls[2], info) == Scan([Delete], false);
    assert calls[..1][..0] == [];
    assert FoundAll(calls[..1], info) == Scan([Delete], false);
    assert calls[..2][..1] == calls[..1];
    assert FoundAll(calls[..2], info) == Scan([Delete, Select], false);
    assert calls[..3][..2] == calls[..2] && calls[..3] == calls;
    assert FoundAll(calls, info) == Scan([Delete, Select, Delete], false);
    assert [Other(calls)][..0] == [];
  }

  /** The reduction keeps one delete and sorts it before the select. */
  lemma ReductionCollapsesAndSorts()
    ensures Unique.SortUnique([Delete, Select, Delete]) == [Delete, Select]
  {
    assert StringOrder.Below(Delete, Select) by {
      assert Delete[0] == Select[0] && Delete[1..][0] == 'D' && Select[1..][0] == 'S';
    }
    StringOrder.BelowAsymmetric(Delete, Select);
    assert [Delete, Select, Delete][1..] == [Select, Delete];
    assert [Select, Delete][1..] == [Delete];
    assert Unique.SortUnique([Delete]) == [Delete];
    assert Select != Delete by { assert |Select| != |Delete|; }
    assert [Delete][1..] == [];
    assert Unique.Insert(Select, [Delete]) == [Delete, Select];
    assert Unique.SortUnique([Select, Delete]) == [Delete, Select];
  }

  /** The generated file lists the two distinct queries once each, in ascending order. */
  lemma DuplicatesCollapseAndSort(info: Info)
    ensures Generated("users", "example.com/users", [Other(DeleteSelectDelete)], info)
      == Some(Emitter.GenerateCode("users", "example.com/users", [Delete, Select]))
  {
    WalkRecordsInOrder(info);
    ReductionCollapsesAndSorts();
  }

  /** A query built by a function call is not static: the call records nothing. */
  lemma DynamicQueryIgnored(info: Info)
    ensures Found(MethodCall(1, "Conn", "GetContext",
        [Ident(3, "ctx"), Other([Ident(4, "dest")]), Call(Ident(5, "buildQuery"), []), Ident(6, "id")]), info)
      == Scan([], false)
  {
  }

  /** A query held in a declared constant is recorded as the constant's exact text. */
  lemma ConstantQueryRecorded(info: Info)
    requires 3 in info && info[3] == Const(StringConst, "\"SELECT 2\"")
    ensures Found(MethodCall(1, "db", "PrepareContext", [Ident(2, "ctx"), Ident(3, "q")]), info)
      == Scan(["\"SELECT 2\""], false)
  {
  }

  /** A catalogued call nested in the arguments of another one is never visited. */
  lemma NestedCallNotRecorded(info: Info)
    requires 3 !in info || !info[3].Const?
    ensures Found(MethodCall(1, "db", "ExecContext",
        [Ident(10, "ctx"), Ident(3, "q"),
         MethodCall(4, "db", "QueryContext", [Ident(11, "ctx"), BasicLit(StringLit, Select)])]), info)
      == Scan([], false)
  {
  }

  /** A catalogued call with too few arguments panics, and the run generates nothing. */
  lemma ShortCallPanics(info: Info)
    ensures Generated("p", "example.com/p", [MethodCall(1, "w", "ExecContext", [Ident(3, "ctx")])], info) == None
  {
    var files := [MethodCall(1, "w", "ExecContext", [Ident(3, "ctx")])];
    assert files[..0] == [];
  }

  /** A package without catalogued calls still gets a file, with the explicit empty list. */
  lemma NoCallsEmptyList(packageName: string, importPath: string, files: seq<Node>, info: Info)
    requires !HasCatalogCallAll(files)
    ensures Generated(packageName, importPath, files, info)
      == Some(Emitter.Preamble(packageName, importPath) + Emitter.InitOpen + "}\n}")
  {
    NoCatalogCallAllNoQueries(files, info);
  }
}
