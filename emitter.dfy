/** The code emitter: the text of the generated Go file. */
module Emitter {

  /** strings.Join: the elements with `sep` between each pair of neighbours. */
  function Join(elems: seq<string>, sep: string): string
  {
    if |elems| == 0 then ""
    else if |elems| == 1 then elems[0]
    else elems[0] + sep + Join(elems[1..], sep)
  }

  /** The go:generate directive naming the import path, and the package clause. */
  function Preamble(packageName: string, importPath: string): string
  {
    "//go:generate prep -f " + importPath + "\n\npackage " + packageName
  }

  /** The start of the init function, up to the opening brace of the slice literal. */
  const InitOpen := "\n\nfunc init() {\n\tprepStatements = []string{"

  /** One line per query: two tabs of indentation, the query verbatim, a comma. */
  function Lines(queries: seq<string>): string
  {
    if queries == [] then "" else "\n\t\t" + queries[0] + "," + Lines(queries[1..])
  }

  /** Joining with the separator and framing the result gives one line per query. */
  lemma {:induction false} JoinGivesLines(queries: seq<string>)
    requires queries != []
    ensures "\n\t\t" + Join(queries, ",\n\t\t") + "," == Lines(queries)
    decreases |queries|
  {
    if |queries| == 1 {
      assert queries[1..] == [];
    } else {
      JoinGivesLines(queries[1..]);
      calc {
        "\n\t\t" + Join(queries, ",\n\t\t") + ",";
        "\n\t\t" + queries[0] + ",\n\t\t" + Join(queries[1..], ",\n\t\t") + ",";
        "\n\t\t" + queries[0] + "," + ("\n\t\t" + Join(queries[1..], ",\n\t\t") + ",");
      }
    }
  }

  /**
   * generateCode. The file is the directive naming the import path, the
   * package clause, and an init function that assigns prepStatements a
   * string-slice literal holding one line per query, in the given order;
   * with no queries the literal is the explicit empty `[]string{}`.
   */
  function GenerateCode(packageName: string, importPath: string, queries: seq<string>): (code: string)
    ensures code == Preamble(packageName, importPath) + InitOpen
      + (if queries == [] then "" else Lines(queries) + "\n\t")
      + "}\n}"
  {
    if |queries| == 0 then
      "//go:generate prep -f " + importPath + "\n\npackage " + packageName
        + InitOpen + "}\n}"
    else
      JoinGivesLines(queries);
      "//go:generate prep -f " + importPath + "\n\npackage " + packageName
        + InitOpen + "\n\t\t" + Join(queries, ",\n\t\t") + "," + "\n\t" + "}\n}"
  }
}
