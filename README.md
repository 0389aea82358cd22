# prep query extractor — a Dafny model

`prep` is a code generator for Go programs that talk to a database through
the `prep` connection wrappers. It loads a target package, walks the syntax
tree of every file, and finds calls such as `conn.ExecContext(ctx, "…", …)`
whose method name is in a fixed catalog of nine context-taking
data-access methods. For each such call it takes the query argument, at
position 1 or 2 depending on the method. It keeps the text of that argument
when it is a literal token or a constant. It then removes duplicates, sorts
the texts, and writes `prepared_statements.go`. That file's `init` function
assigns the list to `prepStatements`, which the library prepares against the
database at start-up.

This project models that core in Dafny:

- `Ast` (ast.dfy): the syntax-tree nodes the extractor distinguishes: literal,
  identifier, selector, call, and any other node with its children in walk
  order. It also holds the type checker's identifier table: an occurrence maps
  to a constant, with its kind and exact text, or to a non-constant object.
- `Catalog` (catalog.dfy): the `methodImplements` table and the switch that
  picks the query argument. It also holds the parameter lists of the
  connection interfaces, and proves that the switch reads each method's
  `query` parameter.
- `Resolver` (resolver.dfy): `processQuery`.
- `Finder` (finder.dfy): the `queryFinder` visitor as a class whose `queries`
  field grows by appending. `Visit` is modelled on the source. `Walk` and
  `WalkList` model `ast.Walk` driving the visitor, and the loop over the
  package's files. `Found`/`FoundAll` are the same walk written as functions,
  and the walk methods are proved equal to them.
- `StringOrder` (string_order.dfy): Go's `<` on strings, which `sort.Strings`
  uses, proved to be a strict total order.
- `Unique` (unique.dfy): `uniqueStrings` as a method: a set fill, key listing
  in an arbitrary order, then an in-place sort on an array. It is proved equal
  to an independent reference function `SortUnique` built by ordered insertion.
- `Emitter` (emitter.dfy): `strings.Join` and `generateCode`.
- `Pipeline` (pipeline.dfy): the run from the loaded files to the generated
  text, and the claim that the output does not depend on discovery order.
- `Scenarios` (scenarios.dfy): concrete packages and what they produce.

Points where the code behaves differently than one might expect from its
comments and names. The model follows the code:

- A catalogued call with too few arguments is not skipped. The code indexes
  `Args[1]`/`Args[2]` unguarded, which is a run-time panic that ends the run.
  The model makes the panic explicit: `Next.Panic` from `Visit`, and
  `Scan.panicked` with `Generated` = `None` in the functions.
- `processQuery`'s comment speaks of string literals and string constants,
  but neither the literal's token kind nor the constant's value kind is
  checked. A numeric literal or constant is recorded like a string.
- Matching is by method name alone; the receiver's type is not checked.

## Model

| member | source | states |
|---|---|---|
| `Catalog.InterfaceName` | cmd/prep/prep.go:150-166 | the catalog lookup gives a non-empty name exactly for the nine catalogued methods, and that name is the method's own name |
| `Catalog.QueryArgIndex` | cmd/prep/prep.go:189-195 | the query is argument 1 for the seven Exec/Query/QueryRow/NamedExec/NamedQuery/Prepare/PrepareNamed `…Context` methods and argument 2 for GetContext/SelectContext; no other index is ever read |
| `Catalog.SwitchCoversCatalog` | cmd/prep/prep.go:180-195 | a name passes the catalog test exactly when the switch gives it an argument position, so a recognised call always reads an argument |
| `Catalog.SwitchMatchesSignatures` | connection.go:16-50 | the catalog and the connection interfaces name the same methods, and the switch's index is the position of each interface's `query` parameter |
| `Resolver.ProcessQuery` | cmd/prep/prep.go:204-220 | a literal gives its source text verbatim, an identifier denoting a constant gives the constant's exact text, and every other expression, including an identifier that is not a constant, gives "" |
| `Resolver.ResolvesIffStatic` | cmd/prep/prep.go:204-220 | when literal and constant texts are non-empty, the resolver yields a value exactly when the argument is a literal or a constant identifier |
| `Resolver.KindIsNotChecked` | cmd/prep/prep.go:209-216 | a numeric literal resolves exactly like a string literal with the same text, and a constant of any kind resolves to its exact text |
| `Finder.QueryFinder.constructor` | cmd/prep/prep.go:74-77 | a new finder holds the package's identifier table and no queries |
| `Finder.QueryFinder.Visit` | cmd/prep/prep.go:169-202 | a node that is not a catalogued selector call changes nothing and continues the walk; a catalogued call never continues it, panics exactly when it lacks the argument at the query index, and otherwise appends the resolved query unless it is "" |
| `Finder.QueryFinder.Walk` | cmd/prep/prep.go:168-202 | driving the visitor over a tree appends exactly `Found`'s queries to the earlier ones, and reports a panic exactly when `Found` has one |
| `Finder.QueryFinder.WalkList` | cmd/prep/prep.go:79-81 | walking the package's files in order appends exactly `FoundAll`'s queries and reports a panic exactly when `FoundAll` has one |
| `Finder.PanicIsFinal` | cmd/prep/prep.go:190-195 | once a walk has panicked on an unguarded argument index, nothing later in the run is walked or recorded |
| `Finder.FoundAllAppend` | cmd/prep/prep.go:79-81 | walking two lists of files one after the other records the two query lists concatenated, unless the first panics |
| `Finder.FoundIsStatic` | cmd/prep/prep.go:197-199 | every recorded query is non-empty and is either the text of a literal token in the walked tree or the exact text of a constant that an identifier of that tree denotes |
| `Finder.FoundAllByElements` | cmd/prep/prep.go:79-81 | a walk over several trees panics exactly when the walk of one of them panics; otherwise it records exactly the queries recorded by the walks of the single trees |
| `Finder.FoundAllByMembers` | cmd/prep/prep.go:79-81 | the same description stated by which trees are walked, regardless of position |
| `Finder.FoundAllPermutation` | cmd/prep/prep.go:79-81 | walking a rearrangement of the same trees panics in the same cases and otherwise records the same set of queries |
| `Finder.FoundAllPointwise` | cmd/prep/prep.go:79-81 | replacing each tree by one whose walk has the same outcome leaves the outcome of the whole walk unchanged |
| `Finder.NoCatalogCallNoQueries` | cmd/prep/prep.go:170-183 | a tree without a catalogued selector call records nothing and never panics |
| `Finder.CatalogCallHidesOtherArguments` | cmd/prep/prep.go:189-201 | a catalogued call records at most one query, and replacing any argument other than the query argument changes nothing; catalogued calls nested in its arguments are never visited |
| `Finder.UncataloguedCallDescends` | cmd/prep/prep.go:175-183 | a call that is not catalogued records nothing itself, and the walk goes on into its callee and arguments in order |
| `Unique.SortStrings` | cmd/prep/prep.go:146 | the array ends up in ascending string order and is a permutation of what it held |
| `Unique.UniqueStrings` | cmd/prep/prep.go:132-148 | whatever order the map yields its keys in, the result is strictly ascending, contains exactly the input's strings, and equals `SortUnique` of the input |
| `Unique.SortUniqueSorted` | cmd/prep/prep.go:132-147 | the reference reduction is strictly ascending and contains exactly the input's strings |
| `Unique.StrictlyAscendingDetermined` | cmd/prep/prep.go:132-147 | two strictly ascending lists with the same elements are equal, so the sorted unique list is fully determined by the set of inputs |
| `Unique.SortUniqueOrderIndependent` | cmd/prep/prep.go:132-147 | inputs with the same set of strings give the same result, whatever their order and repetitions |
| `Unique.SortUniquePermutation` | cmd/prep/prep.go:132-147 | every permutation of the input gives the same result |
| `Unique.SortUniqueIdempotent` | cmd/prep/prep.go:132-147 | reducing an already reduced list leaves it unchanged |
| `Unique.SortUniqueOnce` | cmd/prep/prep.go:134-144 | every input string occurs exactly once in the result, and no other string occurs |
| `Emitter.JoinGivesLines` | cmd/prep/prep.go:125-127 | joining the queries with ",\n\t\t" inside the format's frame puts each query verbatim on its own line, followed by a comma |
| `Emitter.GenerateCode` | cmd/prep/prep.go:114-130 | the file is the go:generate directive with the import path, the package clause, and an init function that assigns prepStatements one line per query in the given order; with no queries it is the explicit empty `[]string{}` |
| `Pipeline.Run` | cmd/prep/prep.go:74-92 | a fresh finder walks the files, its queries are reduced and the code generated; the result is `Generated`, or None when the walk panics |
| `Pipeline.GeneratedDependsOnQuerySet` | cmd/prep/prep.go:90-92 | two runs whose walks record the same set of queries generate byte-identical files |
| `Pipeline.SameOutcomeSameCode` | cmd/prep/prep.go:79-92 | walks that panic in the same cases and otherwise record the same set of queries generate the same file |
| `Pipeline.FileOrderIrrelevant` | cmd/prep/prep.go:79-92 | walking the package's files in any other order (any rearrangement of the same files) generates the same file |
| `Pipeline.DeclarationOrderIrrelevant` | cmd/prep/prep.go:79-92 | rearranging the declarations inside one file of the package generates the same file |
| `Pipeline.QueryListedOnce` | cmd/prep/prep.go:90 | a query found at several call sites is listed exactly once |
| `Scenarios.WalkRecordsInOrder` | cmd/prep/prep.go:197-199 | two ExecContext calls with the same delete literal around a QueryContext call record three queries, in source order |
| `Scenarios.ReductionCollapsesAndSorts` | cmd/prep/prep.go:134-147 | the three collected queries reduce to the delete followed by the select |
| `Scenarios.DuplicatesCollapseAndSort` | cmd/prep/prep.go:90-92 | the generated file for that package lists the delete and the select once each, in that order |
| `Scenarios.DynamicQueryIgnored` | cmd/prep/prep.go:207-219 | a GetContext call whose query is built by a function call records nothing |
| `Scenarios.ConstantQueryRecorded` | cmd/prep/prep.go:211-216 | a PrepareContext call whose query is a constant identifier records the constant's exact text |
| `Scenarios.NestedCallNotRecorded` | cmd/prep/prep.go:201 | a QueryContext call with a literal, nested in the arguments of an ExecContext call whose query is an identifier that does not denote a constant, records nothing |
| `Scenarios.ShortCallPanics` | cmd/prep/prep.go:190-192 | an ExecContext call with only the context argument panics, and the run generates no file |
| `Scenarios.NoCallsEmptyList` | cmd/prep/prep.go:117-123 | a package without catalogued calls still gets a file, with the explicit empty list |

## Left out

- `main` (cmd/prep/prep.go:32-103) is left out: flag parsing, the loader configuration and program loading, the `log.Fatalf` exits, and creating and writing the output file. They are process and file I/O. The part of `main` from the finder to the generated bytes (lines 74-92) is modelled by `Pipeline.Run`.
- `getPathToPackage` (cmd/prep/prep.go:105-112) is left out. It asks `go/build` where the package lives on disk.
- The `go/types` checker is not modelled. `packageInfo.ObjectOf` is the `Info` map keyed by identifier occurrence. `constant.Val().ExactString()` is the `exact` text stored with a constant.
- `findInterfaces` is called at cmd/prep/prep.go:76 to fill the `prepInterfaces` field, but that field is read only by the commented-out `types.Implements` check (cmd/prep/prep.go:185-187); the body of `findInterfaces` is not part of this model, and neither the field nor the call is modelled. The commented-out catalog entries (cmd/prep/prep.go:152-155) are not live behaviour and are not modelled.
- The syntax tree has only the node kinds the extractor distinguishes. Every other Go node is `Other` with its children in `ast.Walk` order. `ast.Walk`'s final `Visit(nil)` after a node's children is omitted, because this visitor returns itself and changes nothing for it.
- Strings are Dafny strings (sequences of Unicode scalar values), while Go compares strings byte by byte. Source text and `ExactString` output are valid UTF-8, and on valid UTF-8, code-point order and byte order agree.
- `Unique.SortStrings`: `sort.Strings` uses the Go library's own sorting algorithm. The model sorts by insertion and proves the same contract: ascending and a permutation.
- Go's random map iteration order is modelled by an arbitrary choice of the next key. The proofs hold for every choice.
- `Emitter.GenerateCode` returns the text as a string rather than a byte slice. `fmt.Fprintf` with `%s` is written as concatenation.
- A panic's stack trace and exit status are not modelled. A panicking run is `None`, or `ok == false` from the walk methods.
