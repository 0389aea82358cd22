/**
 * The fixed catalog of recognised data-access methods and the position of
 * the query argument in each.
 */
module Catalog {
  import opened Wrappers

  /**
   * methodImplements: each recognised method name mapped to the interface that
   * declares it; in this catalog the interface carries the method's own name.
   */
  const MethodImplements: map<string, string> := map[
    "ExecContext" := "ExecContext",
    "QueryContext" := "QueryContext",
    "QueryRowContext" := "QueryRowContext",
    "NamedExecContext" := "NamedExecContext",
    "GetContext" := "GetContext",
    "SelectContext" := "SelectContext",
    "NamedQueryContext" := "NamedQueryContext",
    "PrepareContext" := "PrepareContext",
    "PrepareNamedContext" := "PrepareNamedContext"
  ]

  /** Indexing the catalog as Go does: the empty string for a name that is not a key. */
  function InterfaceName(name: string): (r: string)
    ensures r != "" <==> name in MethodImplements
    ensures name in MethodImplements ==> r == name
  {
    if name in MethodImplements then MethodImplements[name] else ""
  }

  /** The methods whose query is their second argument (after the context). */
  const QueryAfterContext: set<string> := {
    "ExecContext", "QueryContext", "QueryRowContext", "NamedExecContext",
    "NamedQueryContext", "PrepareContext", "PrepareNamedContext"
  }

  /** The methods whose query is their third argument (after the context and the destination). */
  const QueryAfterDestination: set<string> := {"GetContext", "SelectContext"}

  /**
   * The switch on the method name: the index of the argument that holds the
   * query, or None for a name neither case lists.
   */
  function QueryArgIndex(name: string): (r: Option<nat>)
    ensures r == Some(1) <==> name in QueryAfterContext
    ensures r == Some(2) <==> name in QueryAfterDestination
    ensures r.Some? ==> r == Some(1) || r == Some(2)
  {
    if name in QueryAfterContext then Some(1)
    else if name in QueryAfterDestination then Some(2)
    else None
  }

  /**
   * The parameter names of each method as the database-connection interfaces
   * declare them (context first; the query parameter is named `query`).
   */
  const Signatures: map<string, seq<string>> := map[
    "QueryContext" := ["ctx", "query", "args"],
    "QueryRowContext" := ["ctx", "query", "args"],
    "PrepareContext" := ["ctx", "query"],
    "PrepareNamedContext" := ["ctx", "query"],
    "ExecContext" := ["ctx", "query", "args"],
    "GetContext" := ["ctx", "destination", "query", "args"],
    "SelectContext" := ["ctx", "destination", "query", "args"],
    "NamedExecContext" := ["ctx", "query", "arg"],
    "NamedQueryContext" := ["ctx", "query", "arg"]
  ]

  /** The position of the first occurrence of `x` in `s`, if any. */
  function IndexOf(x: string, s: seq<string>): (r: Option<nat>)
    ensures r.Some? ==> r.value < |s| && s[r.value] == x && x !in s[..r.value]
    ensures r.None? ==> x !in s
  {
    if s == [] then None
    else if s[0] == x then Some(0)
    else match IndexOf(x, s[1..])
      case None => None
      case Some(i) => Some(i + 1)
  }

  /**
   * The switch covers exactly the catalog: a name passes the catalog test
   * exactly when the switch gives it a query position, so a recognised call
   * always reads an argument.
   */
  lemma SwitchCoversCatalog(name: string)
    ensures InterfaceName(name) != "" <==> QueryArgIndex(name).Some?
  {
  }

  /**
   * The switch reads the argument at the position where the declaring
   * interface puts its `query` parameter, for every catalogued method; the
   * catalog and the interface declarations name the same methods.
   */
  lemma SwitchMatchesSignatures(name: string)
    ensures name in MethodImplements <==> name in Signatures
    ensures name in Signatures ==> QueryArgIndex(name) == IndexOf("query", Signatures[name])
  {
    if name in Signatures {
      var ps := Signatures[name];
      if name in QueryAfterDestination {
        assert ps[0] != "query" && ps[1] != "query" && ps[2] == "query";
        assert ps[1..][1..][0] == "query";
      } else {
        assert ps[0] != "query" && ps[1] == "query";
        assert ps[1..][0] == "query";
      }
    }
  }
}
