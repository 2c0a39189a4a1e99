# om-manifest-validator: the manifest model in Dafny

This project models the core of om-manifest-validator, a tool that validates
a product's staged BOSH deployment manifest, fetched from Ops Manager. The
core is the in-memory manifest model of `bosh/manifest.go`:

- a dynamically typed property tree (`Properties`, a map from keys to YAML
  values);
- the dotted-path "lens" resolver `Find`, with its typed accessors
  `FindString`, `FindInt` and `FindBool`;
- `Manifest.JobNamed`, which resolves a logical job name against the
  manifest's flat job list and its instance groups.

Beside it is the pure fragment of `fetcher/manifest_fetcher.go`: choosing a
product's GUID from the decoded staged-products listing, and building the
request URLs.

Modules:

- `Options` (options.dfy): the `Option` type.
- `Search` (search.dfy): `FirstIndex`, the first element satisfying a
  predicate. It is the shape of every "scan in order, `break` on the first
  hit" loop in the source.
- `GoStrings` (gostrings.dfy): Go's `strings.Split` (bosh/manifest.go:86)
  and `strings.Join` (bosh/manifest.go:103, `GoStrings.Join`) for a
  one-character separator. They are proved inverse in both directions.
- `Bosh` (bosh_manifest.dfy):
  - A `Value` datatype tags what Go sees through `interface{}`. `Tree` is a
    nested `Properties`. `Dict` is a map of any other Go type, such as
    `map[string]string`. `List` is a slice. The others are `Str`, `Int`,
    `Bool`, `Null` and `Other`.
  - A Go call that returns `(val, err)` or panics is modelled as
    `Result<T> = Return(val, err) | Panic`. `Bosh.Error.Message` holds the
    error texts of bosh/manifest.go:91, 105, 117, 131 and 145.
  - `Find` is written as the source writes it: split the lens on `.`, look
    up a single segment directly, otherwise recurse on the re-joined tail
    inside the subtree. `FindPath` is the same resolver over an
    already-split path, and `FindAsPath` proves the two agree on every lens.
  - `Job`, `InstanceGroup` and the `OMJob` interface (bosh/manifest.go:19-54)
    are datatypes whose `Name()` and `Props()` accessors return the name and
    the properties (`Props` stands for Go's `Properties()`, whose name the
    type already takes).
  - `PartitionPrefix` is the `name + "-partition"` string of
    bosh/manifest.go:65. `IsPartitionOf` is the match at line 67.
  - `JobNamed` is a method with the source's two loops, proved equal to the
    reference function `ResolveJob`. `ResolveJob` states the precedence
    directly: an instance group named exactly `name` wins over a job named
    `name-partition...`.
- `Fetcher` (fetcher_manifest.dfy): `SelectProductGUID` is a method with the
  source's loop, proved equal to the reference function `ProductGUID`.
  `FetchError.Message` is the error text of fetcher/manifest_fetcher.go:78.
  `ProductsURL`, `ManifestURL` and `UAAHost` are the concatenations at lines
  45, 124 and 148.

bosh/manifest.go has no bare-prefix job rule and no `InstanceGroupNamed`,
`MustFindInstanceGroupNamed`, `FindJob` or two-argument `NewInstanceGroup`.
Instance groups there carry no job list and no instance count.
bosh/manifest_test.go calls some of these, but they are not in the code, so
they are not modelled. The instance-group loop at bosh/manifest.go:72-77 runs
after the job loop and overwrites a job match, so an exact instance-group
name wins (`ResolveGroupWins`).

## Model

| member | source | states |
|---|---|---|
| `GoStrings.Split` | bosh/manifest.go:86 | splitting always yields at least one piece, and no piece contains the separator |
| `GoStrings.JoinSplit` | bosh/manifest.go:86-103 | joining the pieces of a split with the same separator gives back the original lens |
| `GoStrings.SplitJoin` | bosh/manifest.go:103 | re-joining the remaining segments and splitting them again yields exactly those segments |
| `Bosh.Find` | bosh/manifest.go:85-107 | every error result is exactly `(nil, "value not found")`; a panic only happens for a lens that contains a dot, i.e. never for a single segment |
| `Bosh.FindSingleSegment` | bosh/manifest.go:88-94 | for a dot-free lens: the stored value with no error when the key is present, `(nil, "value not found")` when absent, never a panic |
| `Bosh.FindNested` | bosh/manifest.go:96-106 | for `k.rest`: not found when `k` is absent, whatever `rest` is; the subtree's `Find(rest)` when `k` holds a `Properties`; a panic when `k` holds any other value, including a map of another Go type |
| `Bosh.FindJoin` | bosh/manifest.go:85-107 | resolving the join of a non-empty list of dot-free segments (empty segments allowed) equals `FindPath` on the list: the last segment is looked up; an intermediate one is not found when absent, is descended when it holds a `Properties`, and panics on any other value |
| `Bosh.FindAsPath` | bosh/manifest.go:86-103 | every lens resolves exactly as the segments it splits into |
| `Bosh.FindPath` | bosh/manifest.go:96-106 | its error results are exactly `(nil, "value not found")`, and it panics only on a path of two or more segments |
| `Bosh.FindNest` | bosh/manifest.go:96-103 | a lens following nested `Properties` returns the leaf unchanged and with no error, whatever the leaf's type (slices included) |
| `Bosh.FindInEmpty` | bosh/manifest.go:89-105 | in an empty or nil `Properties` every lens is not found, by the single-segment lookup (lines 89-91) or by the absent first segment (lines 104-105), and none panics |
| `Bosh.FindString` | bosh/manifest.go:109-121 | succeeds exactly when `Find` succeeds with a string, and returns that string; a `Find` error is propagated as is; a non-string gives "value not a string"; every failure returns `""`; it panics exactly when `Find` does |
| `Bosh.FindInt` | bosh/manifest.go:123-135 | the same for ints: success exactly on a stored int; `Find`'s error propagated; otherwise "value not an integer"; `0` on every failure |
| `Bosh.FindBool` | bosh/manifest.go:137-149 | the same for bools: a stored `false` is a success; `Find`'s error propagated; otherwise "value not a boolean"; `false` on every failure, so only the nil error tells a stored `false` from a failure |
| `Bosh.TypedAccessorsExclusive` | bosh/manifest.go:115-146 | a string is never accepted as an int or a bool, and an int never as a string; the rejecting accessor returns its zero value and its own wrong-type error |
| `Bosh.NewJob` | bosh/manifest.go:37-41 | the job carries the given name and properties in which every lookup is not found |
| `Bosh.NewInstanceGroup` | bosh/manifest.go:56-60 | the instance group carries the given name and properties in which every lookup is not found |
| `Bosh.JobNamed` | bosh/manifest.go:64-83 | the two loops with `break` and the overwrite compute exactly `ResolveJob`: the first instance group named `name`, else the first job whose name starts with `name-partition`, else the panic naming `name-partition` |
| `Bosh.ResolveJob` | bosh/manifest.go:64-83 | a resolved instance group is one of the manifest's groups and is named `name`; a resolved job is one of the manifest's jobs and starts with `name-partition`; a failure names `name-partition` |
| `Bosh.ResolveGroupWins` | bosh/manifest.go:72-77 | if an instance group is named exactly `name`, the first such group in list order is returned, whatever partition jobs also exist |
| `Bosh.ResolvePartitionFallback` | bosh/manifest.go:65-71 | with no instance group named `name`, the first job in list order whose name starts with `name + "-partition"` is returned |
| `Bosh.ResolveFailsIffNoMatch` | bosh/manifest.go:79-82 | the lookup panics exactly when neither a group nor a partition job matches, and then names `name-partition`; otherwise it returns a matching entity, never nil |
| `Fetcher.ProductGUID` | fetcher/manifest_fetcher.go:71-81 | a nil error comes with a non-empty GUID held by a product of type `name`; a non-nil error is `ProductNotFound(name)` with `""` |
| `Fetcher.SelectProductGUID` | fetcher/manifest_fetcher.go:71-81 | the loop computes exactly `ProductGUID`; any success is a non-empty GUID; any failure is `""` with the error naming the product |
| `Fetcher.ProductGUIDFirstMatch` | fetcher/manifest_fetcher.go:71-76 | the first product of type `name` alone decides the result: its GUID if non-empty, otherwise the error |
| `Fetcher.ProductGUIDIgnoresLater` | fetcher/manifest_fetcher.go:74 | products after the first match are never consulted: replacing them, even with products of the same type and non-empty GUIDs, leaves the result unchanged |
| `Fetcher.ProductGUIDNoMatch` | fetcher/manifest_fetcher.go:77-79 | with no product of type `name`, the GUID is `""` and the error is `ProductNotFound(name)` |
| `Fetcher.NotFoundMessageNamesProduct` | fetcher/manifest_fetcher.go:78 | two not-found error texts are equal exactly when they name the same product |
| `Fetcher.ProductGUIDSuccess` | fetcher/manifest_fetcher.go:72-81 | a nil error comes with a non-empty GUID that belongs to the first product of type `name`; a non-nil error comes with `""` |
| `Fetcher.ManifestURL` | fetcher/manifest_fetcher.go:124 | the manifest URL extends the product listing URL with `/` |
| `Fetcher.RequestURLsDistinct` | fetcher/manifest_fetcher.go:45-148 | for every environment and GUID, the listing URL, the manifest URL and the UAA host are pairwise distinct |
| `Fetcher.RequestURLsDetermineBase` | fetcher/manifest_fetcher.go:45-148 | the listing URL, the manifest URL for a given GUID and the UAA host are each equal for two environments exactly when their base URLs are |
| `Fetcher.ManifestURLInjective` | fetcher/manifest_fetcher.go:124 | two manifest URLs are equal exactly when their GUIDs are, and the GUID is read back from between the listing path and `/manifest` |

## Left out

- HTTP, OAuth and TLS: `oauthClient`, `makeRequest`, `NewOAuthHTTPClient` and all request and response handling are network I/O through foreign libraries. Only the URL strings they are given are modelled.
- YAML decoding and encoding (fetcher/manifest_fetcher.go:66, 91, 107-110) is a foreign library. The model starts from an already-decoded product list or manifest. This also leaves out the ignored unmarshal errors, the type-assertion panic in `GetRawStagedProductManifest`, and the `StagedManifestResponse` wrapper record.
- `GetStagedProductManifest`, `GetStagedProductManifestByGUID` and `GetRawStagedProductManifest` only chain the I/O steps above.
- Bosh.JobNamed: requires the name to contain no regular-expression metacharacters. Under that requirement, the anchored pattern `^name-partition` is a literal prefix test. Regular-expression semantics for other names, and the silent skip of jobs when the pattern does not compile, are library behaviour.
- Panic message texts are not modelled. `NoSuchJob` keeps only the `name-partition` string that the message at bosh/manifest.go:80 embeds, and `Panic` stands for the conversion failure at line 101.
- `Properties` keys are strings. A non-string key of Go's `map[interface{}]interface{}` can never be hit by a string lens. An intermediate value counts as a `Properties` only when it is a `Tree`.
- Go strings are byte strings; the model uses `seq<char>`. Splitting on `.`, key equality and the prefix test agree with Go on valid UTF-8. A lens, key or name with invalid UTF-8 has no counterpart in the model.
- Go `int` is modelled as an unbounded integer. The YAML decoder's choice of Go type for very large numbers is library behaviour.
- A nil `*Job` or `*InstanceGroup` inside the slices, and a nil `*Manifest` receiver, would make the Go code dereference nil. The decoded model has no nil entries.
