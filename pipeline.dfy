/**
 * The run from the loaded package to the bytes of the generated file: walk
 * every file, reduce the recorded queries, emit the code.
 */
module Pipeline {
  import opened Wrappers
  import opened Ast
  import opened Finder
  import Unique
  import Emitter

  /** The generated file for a package, or None when the walk panics. */
  function Generated(packageName: string, importPath: string, files: seq<Node>, info: Info): Option<string>
  {
    var scan := FoundAll(files, info);
    if scan.panicked then None
    else Some(Emitter.GenerateCode(packageName, importPath, Unique.SortUnique(scan.queries)))
  }

  /**
   * The steps of a run: a fresh finder walks the files in order, its queries
   * are reduced by uniqueStrings, and the code is generated from the result.
   */
  method Run(packageName: string, importPath: string, files: seq<Node>, info: Info) returns (code: Option<string>)
    ensures code == Generated(packageName, importPath, files, info)
  {
    var finder := new QueryFinder(info);
    var ok := finder.WalkList(files);
    ghost var scan := FoundAll(files, info);
    assert finder.queries == scan.queries && ok == !scan.panicked;
    if !ok {
      return None;
    }
    var queries := Unique.UniqueStrings(finder.queries);
    assert queries == Unique.SortUnique(scan.queries);
    code := Some(Emitter.GenerateCode(packageName, importPath, queries));
  }

  /**
   * The generated file depends only on the set of queries the walk records:
   * discovery order and repetitions leave no trace in it.
   */
  lemma GeneratedDependsOnQuerySet(packageName: string, importPath: string, files1: seq<Node>, files2: seq<Node>, info: Info)
    requires !FoundAll(files1, info).panicked && !FoundAll(files2, info).panicked
    requires forall q :: q in FoundAll(files1, info).queries <==> q in FoundAll(files2, info).queries
    ensures Generated(packageName, importPath, files1, info) == Generated(packageName, importPath, files2, info)
  {
    Unique.SortUniqueOrderIndependent(FoundAll(files1, info).queries, FoundAll(files2, info).queries);
  }

  /** Walks with the same outcome generate the same bytes. */
  lemma SameOutcomeSameCode(packageName: string, importPath: string, files1: seq<Node>, files2: seq<Node>, info: Info)
    requires SameOutcome(FoundAll(files1, info), FoundAll(files2, info))
    ensures Generated(packageName, importPath, files1, info) == Generated(packageName, importPath, files2, info)
  {
    if !FoundAll(files1, info).panicked {
      GeneratedDependsOnQuerySet(packageName, importPath, files1, files2, info);
    }
  }

  /** Walking the files of the package in any other order generates the same bytes. */
  lemma FileOrderIrrelevant(packageName: string, importPath: string, files1: seq<Node>, files2: seq<Node>, info: Info)
    requires multiset(files1) == multiset(files2)
    ensures Generated(packageName, importPath, files1, info) == Generated(packageName, importPath, files2, info)
  {
    FoundAllPermutation(files1, files2, info);
    SameOutcomeSameCode(packageName, importPath, files1, files2, info);
  }

  /** Reordering the declarations inside one file generates the same bytes. */
  lemma DeclarationOrderIrrelevant(packageName: string, importPath: string, before: seq<Node>,
                                   decls1: seq<Node>, decls2: seq<Node>, after: seq<Node>, info: Info)
    requires multiset(decls1) == multiset(decls2)
    ensures Generated(packageName, importPath, before + [Other(decls1)] + after, info)
         == Generated(packageName, importPath, before + [Other(decls2)] + after, info)
  {
    var files1, files2 := before + [Other(decls1)] + after, before + [Other(decls2)] + after;
    FoundAllPermutation(decls1, decls2, info);
    assert Found(Other(decls1), info) == FoundAll(decls1, info);
    assert Found(Other(decls2), info) == FoundAll(decls2, info);
    forall i | 0 <= i < |files1|
      ensures SameOutcome(Found(files1[i], info), Found(files2[i], info))
    {
      if i != |before| {
        assert files1[i] == files2[i];
      }
    }
    FoundAllPointwise(files1, files2, info);
    SameOutcomeSameCode(packageName, importPath, files1, files2, info);
  }

  /** The same query at two call sites is listed once. */
  lemma QueryListedOnce(files: seq<Node>, info: Info, q: string)
    requires q in FoundAll(files, info).queries
    ensures multiset(Unique.SortUnique(FoundAll(files, info).queries))[q] == 1
  {
    Unique.SortUniqueOnce(FoundAll(files, info).queries, q);
  }
}
