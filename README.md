# Cargo configuration resolution, modelled in Dafny

This project models the configuration layer of Cargo, the Rust package
manager, as found in `src/cargo/util/config.rs`. That layer does four jobs:

- **`ConfigValue`**: a string, a list of strings or a table of further
  values. Each value carries its provenance, the paths of the files that
  produced it. The layer converts generic TOML into these values, gives typed
  accessors, and merges one value into another in place.
- **The directory walk**: it probes `<dir>/.cargo/config` for the start
  directory and then for each parent up to the root.
  - `find_in_tree` stops at the nearest candidate whose callback succeeds.
  - `walk_tree` hands every existing candidate to its callback, nearest first.
- **The two resolvers built on the walk**:
  - `get_config` looks up one top-level key, and the nearest definition wins.
  - `all_configs` starts from an empty table and merges every fragment into
    it, nearest first.
- **`Config`**: the record of session settings (home directory, job count,
  target, linker, archiver).

## Layout

| file | module | contents |
|---|---|---|
| `errors.dfy` | `Errors` | `Path` (a list of path components; the root is `[]`), the error values, `Result`, `Outcome`, `Option` |
| `toml.dfy` | `Toml` | the generic TOML tree that the external parser yields |
| `config_value.dfy` | `ConfigValues` | `ConfigValue`, `FromToml` and its inverse `ToToml`, the accessors, `Desc`, the specification `Compatible`/`Merged`, and the in-place `Merge` as a method with a loop over the incoming table's keys |
| `tree.dfy` | `Tree` | the file system as a map, `Candidate`, `Pop`, `Ancestors`, the specification `FindSpec`, and `FindInTree` as a method with the source's `loop`/`pop` |
| `resolve.dfy` | `Resolve` | `ExtractConfig`, `GetConfig` and its reference definition `LookupIn`; the closure of `all_configs` (`Visit`), `WalkTree`, `AllConfigs`, and the specification `Fold`/`Aggregate` with its lemmas |
| `scenarios.dfy` | `Scenarios` | worked trees: `/a/b/c` with fragments in `/a` and `/a/b` |
| `session.dfy` | `Session` | class `Config` and the fallible constructor `NewConfig` |

## How the model is built

The source's calls out of this layer become inputs:

- The file system is a map from a path to an entry. A path exists exactly
  when it is a key of the map.
  - An entry is either `Unopenable` (`File::open` fails) or `Readable`.
  - A readable entry gives the outcome of reading and parsing the file:
    `Unreadable`, `Malformed`, or the parsed TOML table.
- Parsing TOML text is external, so the model takes the parsed tree as input.
- The home-directory probe and the CPU count are parameters of `NewConfig`.

`merge(&mut self, from)` becomes `Merge(self, from) returns (merged, res)`.
The value comes in and its new state goes out. The table case loops over the
incoming keys and picks each next key with `:|`, because a Rust `HashMap`
yields its keys in no fixed order. It stops at the first nested merge that
fails, and it keeps the changes already made, as the source does with `try!`.

Two facts follow from the contracts:

- A successful merge does not depend on key order. Its result is always
  `Merged(self, from)`, and `res` is `Pass` exactly when `Compatible(self, from)`
  holds.
- When a table merge fails, the contract states these facts, which hold
  whatever the key order:
  - the variant and the provenance of `self` are kept;
  - the keys lie between the old ones and the union;
  - a key only in `self` keeps its entry;
  - a key the merge added holds the incoming entry;
  - every key of `self` keeps the variant of its entry.

  It does not say which of the keys on both sides were already merged, nor
  what those entries then hold beyond their variant.

In `walk_tree` the callback cannot be passed in as an argument, because the
`all_configs` closure calls `Merge`, which is a method. `WalkTree` therefore
calls that closure, `Visit`, directly. `all_configs` is the only caller of
`walk_tree` in this layer. `find_in_tree` stays generic: its callback
`extract_config` is pure, so it is passed as a function value.

## Behaviour a user may not expect

The model reproduces the following behaviour of the code as it is:

- **Farther wins for strings in the aggregate.** The fold goes nearest first
  and a string merge overwrites. So, as long as no merge along the way
  fails, the fragment farthest from the start directory among those that
  declare a string key supplies it, whatever fragments lie between
  (`FarthestStringWins`, `AggregateTakesFarther`). A failing merge can stop
  the string from arriving. For example, a nearer list under the same key is
  left in place, because a mismatch changes nothing and the error is
  swallowed. The point lookup
  picks the nearest definition instead (`LookupNearest`, `LookupTakesNearer`).
  Across fragments, list elements keep walk order: the nearest fragment's
  elements come first (`ListLayersConcatenate`, `AggregateListsNearestFirst`).
- **Errors in the aggregate are swallowed.** When the callback fails,
  `walk_tree` sets its flag to `false`, so its `if err` check never fires.
  `WalkTree` keeps that check, and an `assert false` in it proves the branch
  is dead.
  - A fragment that fails to read, parse or convert is skipped
    (`UnloadableSkipped`).
  - A fragment whose merge fails is not reported either, and it is not
    skipped. The keys merged before the conflict stay in the aggregate, as
    `Merge` states for a failed table merge. `all_configs` still returns a
    table: `AllConfigs` succeeds exactly when every existing candidate opens.
  - `Fold` returns `None` once a merge has failed, because the partial state
    left behind depends on key order.
- **Open failures.** In `get_config`, a candidate that exists but will not
  open reads as "key not found", like every other failure
  (`LookupOpenFailure`). In `all_configs` it becomes one generic error,
  `LoadFailed`, that names no path.
- **Merge errors.** They report only the two variant names, not the key at
  which the values clash. `Desc` gives `"string"`, `"array"` or `"table"`,
  while the accessors use `"list"` for the same variant.
- **Linker and archiver.** The setters accept any number of calls, and each
  call overwrites the previous value.

## Model

| member | source | states |
|---|---|---|
| `ConfigValues.NewMergesTo` | src/cargo/util/config.rs:113-115 | `ConfigValue::new` is an empty list with no provenance; merging a list into it gives that list back unchanged |
| `ConfigValues.DescNamesKind` | src/cargo/util/config.rs:200-207 | two values get the same `desc` name exactly when they are the same variant |
| `ConfigValues.FromToml` | src/cargo/util/config.rs:121-142 | conversion succeeds exactly on strings, arrays whose every element is a string, and tables of convertible values; every other TOML kind fails; on success the result converts back to the same TOML tree (same elements in the same order, same keys) and every node, nested ones included, has provenance exactly `[path]` |
| `ConfigValues.FromTomlOfToToml` | src/cargo/util/config.rs:121-142 | converse round trip: any value whose nodes all carry provenance `[path]` is exactly what `from_toml` builds from that value's TOML tree |
| `ConfigValues.AsString` | src/cargo/util/config.rs:175-181 | `string()` is `Ok` exactly on a `String` value and then returns its text; otherwise a type-mismatch error expecting "string" |
| `ConfigValues.AsTable` | src/cargo/util/config.rs:183-189 | `table()` is `Ok` exactly on a `Table` value and then returns its map; otherwise a type-mismatch error expecting "table" |
| `ConfigValues.AsList` | src/cargo/util/config.rs:191-197 | `list()` is `Ok` exactly on a `List` value and then returns its elements; otherwise a type-mismatch error expecting "list" |
| `ConfigValues.AccessorsExclusive` | src/cargo/util/config.rs:175-197 | on every value exactly one of the three accessors succeeds |
| `ConfigValues.Merged` | src/cargo/util/config.rs:144-165 | a successful merge keeps the variant of `self`; for lists the length is the sum of the two lengths; for tables the key set is the union of both key sets |
| `ConfigValues.Merge` | src/cargo/util/config.rs:144-173 | string into string: `self` takes the incoming text and exactly the incoming provenance. List into list: old elements then new ones, provenance `old ++ new`. Table into table, on success: key union; a key on one side keeps that side's value; a key on both sides holds the recursive merge; provenance concatenated. Success exactly when `Compatible` holds, and then the result is `Merged`, whatever order the keys are visited in. A variant mismatch returns "expected X, but found Y" with the `desc` names and leaves the value unchanged. Any failure keeps the variant and the provenance of `self`. A failed table merge leaves keys between the old ones and the union. A key only in `self` keeps its entry, a key it added holds the incoming entry, and every old key keeps the variant of its entry |
| `ConfigValues.CompatibleWithItself` | src/cargo/util/config.rs:144-169 | merging any value into itself never reports an error |
| `ConfigValues.MergeWithItself` | src/cargo/util/config.rs:144-165 | for a value holding no lists, merging it into itself leaves the value unchanged once provenance is ignored; a table's provenance is doubled, so provenance accumulates and is not idempotent |
| `ConfigValues.EmptyTableMergesTo` | src/cargo/util/config.rs:155-165 | merging a table into the empty table that `all_configs` starts from gives that table back exactly |
| `Tree.AncestorsAt` | src/cargo/util/config.rs:258-272 | the `i`-th directory probed is the start directory with its last `i` components popped: the start directory first, each parent in turn, the root last |
| `Tree.FindInTree` | src/cargo/util/config.rs:256-275 | the loop over `current` and `pop()` returns exactly what `FindSpec` says for `Ancestors(pwd)`, probed nearest first |
| `Tree.FindNearest` | src/cargo/util/config.rs:260-268 | when only absent candidates and callback failures come before it, the nearest candidate whose callback succeeds gives the result |
| `Tree.FindOpenFailure` | src/cargo/util/config.rs:262-263 | a candidate that exists but will not open, with only skipped directories before it, ends the search with that open error |
| `Tree.FindExhausted` | src/cargo/util/config.rs:271-274 | when every directory is skipped, the search returns an error |
| `Resolve.ExtractConfig` | src/cargo/util/config.rs:300-306 | succeeds exactly when the file reads and parses, has the top-level key, and the key's value converts; the value is then that entry converted and stamped with the file's path |
| `Resolve.LookupIn` | src/cargo/util/config.rs:256-275 | the point lookup written without a callback; its only error is "key not found" |
| `Resolve.SearchIsLookup` | src/cargo/util/config.rs:229-232 | `find_in_tree` with the `extract_config` callback, with its error replaced by not found, equals `LookupIn` |
| `Resolve.GetConfig` | src/cargo/util/config.rs:229-232 | `get_config` is the lookup over the ancestors of `pwd`; every failure is reported as `key` not found |
| `Resolve.LookupNearest` | src/cargo/util/config.rs:256-275 | nearest wins: the first directory whose file defines the key decides the answer, skipping absent, unreadable or unparsable candidates and candidates without the key |
| `Resolve.LookupExhausted` | src/cargo/util/config.rs:271-274 | when no candidate defines the key, the lookup reports `key` not found |
| `Resolve.LookupOpenFailure` | src/cargo/util/config.rs:230-231 | a candidate that will not open, met before any definition, is also reported as `key` not found |
| `Resolve.Load` | src/cargo/util/config.rs:238-244 | a whole fragment loads exactly when it reads, parses and converts as a table; it is the file's table converted: it converts back to exactly that TOML table, so its keys are the file's keys and every entry is that entry's conversion, and every node is stamped with the file's path |
| `Resolve.Visit` | src/cargo/util/config.rs:237-246 | the `all_configs` closure: a fragment that fails to load leaves `cfg` unchanged and fails; otherwise it merges, succeeding exactly when the fragment is compatible with `cfg`, and then `cfg` becomes the merge; `cfg` keeps its variant either way |
| `Resolve.Fold` | src/cargo/util/config.rs:237-247 | the nearest-first fold of the fragments: once the accumulator is `None` (a merge has failed) it stays `None`; a fold that ends in a value ends in the same variant as the accumulator it started from |
| `Resolve.WalkTree` | src/cargo/util/config.rs:277-298 | visits every existing candidate, nearest first; succeeds exactly when every existing candidate opens, so callback errors never make it fail; when no merge fails, the accumulator ends as the nearest-first fold of the fragments; the accumulator keeps its variant even after a failed merge (through `Merge`'s variant clause), which is what makes the `unreachable!()` arm of `all_configs` dead |
| `Resolve.AllConfigs` | src/cargo/util/config.rs:234-254 | starts from an empty table and always yields a map unless a candidate will not open; that error is `LoadFailed`; when no merge fails, the map is `Aggregate`, the nearest-first fold; the `unreachable!()` arm is proved dead |
| `Resolve.AggregateWithoutFragments` | src/cargo/util/config.rs:234-254 | with no candidate anywhere up to the root, the aggregate is the empty map |
| `Resolve.SingleFragment` | src/cargo/util/config.rs:235-245 | the aggregate of one loadable fragment is that fragment's table |
| `Resolve.UnloadableSkipped` | src/cargo/util/config.rs:286-290 | a fragment that fails to read, parse or convert is dropped from the fold, which continues as if the fragment were absent |
| `Resolve.FarthestStringWins` | src/cargo/util/config.rs:147-150 | for any starting table and any fragments before and after it in walk order, as long as no merge along the way fails: when a fragment sets a key to a string and no farther fragment declares that key, the aggregate holds exactly that fragment's node, with its text and its provenance |
| `Resolve.FoldKeepsUndeclared` | src/cargo/util/config.rs:155-163 | as long as no merge along the way fails, fragments that do not declare a key leave the aggregate's entry at that key unchanged |
| `Resolve.ListLayersConcatenate` | src/cargo/util/config.rs:151-154 | as long as no merge along the way fails: when every fragment declares a key as a list or not at all, the aggregate's list is the starting list followed by each fragment's list in walk order, nearest first, for any number of layers |
| `Resolve.FoldKeepsKindAt` | src/cargo/util/config.rs:144-170 | a successful fold keeps the variant of the entry already held at a key |
| `Resolve.ConflictingFragments` | src/cargo/util/config.rs:166-169 | for any starting table and any fragments before, between and after them: two fragments whose entries under one key are different variants cannot both be merged |
| `Scenarios.NothingConfigured` | src/cargo/util/config.rs:229-254 | with no fragments on the way from `/a/b/c` to the root, looking up `registry` fails as not found and the aggregate is empty |
| `Scenarios.LookupTakesNearer` | src/cargo/util/config.rs:256-275 | with `token = "abc"` in `/a` and `token = "xyz"` in `/a/b`, the lookup from `/a/b/c` returns `"xyz"`, stamped with `/a/b`'s file |
| `Scenarios.AggregateTakesFarther` | src/cargo/util/config.rs:234-254 | in the same tree the aggregate holds `"abc"`, from `/a`, the farther fragment |
| `Scenarios.AggregateListsNearestFirst` | src/cargo/util/config.rs:234-254 | with `flag = ["x"]` in `/a` and `flag = ["y"]` in `/a/b`, the aggregate from `/a/b/c` has `flag = ["y", "x"]` |
| `Session.Config.constructor` | src/cargo/util/config.rs:26-36 | the new record has the given home, jobs and target, and neither linker nor archiver |
| `Session.NewConfig` | src/cargo/util/config.rs:20-37 | fails exactly when jobs is `Some(0)` or the home directory is unknown, and the jobs check comes first; otherwise jobs is the given count or else the CPU count, and linker and archiver are unset |
| `Session.Config.SetAr` | src/cargo/util/config.rs:61 | the archiver becomes `Some(ar)`; the linker is unchanged |
| `Session.Config.SetLinker` | src/cargo/util/config.rs:63 | the linker becomes `Some(linker)`; the archiver is unchanged |
| `Session.GitPathsSiblings` | src/cargo/util/config.rs:41-47 | the git database path and the git checkouts path both lie directly under `<home>/.cargo/git`, have the same length, end in `db` and `checkouts` respectively, and differ |

## Left out

- `ConfigValues.Merge`: when a table merge fails, the contract does not say
  which of the keys on both sides were already merged. That depends on the
  `HashMap`'s iteration order, which the source does not fix. The contract
  states these facts, which hold whatever the order:
  - the variant and the provenance;
  - the bounds on the key set;
  - kept entries for keys only in `self`;
  - incoming entries for the keys added;
  - the variant of every old key's entry.
- `Resolve.WalkTree`: it is specialised to the `all_configs` closure and is
  not generic over its callback. Dafny cannot pass a method as an argument,
  and `all_configs` is `walk_tree`'s only caller in this layer.
- `Resolve.AllConfigs`: when a merge fails during the fold, the contract says
  only that a table is returned, not which table. That table holds the
  order-dependent partial merge.
- Reading files, `Path::exists` and `File::open` are replaced by the
  file-system map. A failed open is the `Unopenable` entry.
- TOML text parsing (`cargo_toml::parse`) is an external call. The model
  takes the parsed tree or a parse failure as input. Floating-point TOML
  values carry no payload, because the model never looks at one.
- The home-directory probe and the CPU count are parameters of `NewConfig`,
  not environment probes. The source does not prevent a CPU count of zero,
  and the model does not either.
- `MultiShell` and the `shell()` accessor are terminal output, so they are
  not modelled.
- `fmt::Show` and `Encodable` are formatting glue, and the exact wording of
  error messages beyond the variant names is not modelled.
- The `Location` enum is not modelled: nothing uses it.
- `get_value` only returns the value field. The model reads `.value`
  directly instead.
- The getters `home`, `jobs`, `target`, `linker` and `ar` are the functions
  `Home`, `Jobs`, `Target`, `Linker` and `Ar`. The constructor, `NewConfig`
  and the setters state their values.
- `src/bin/cargo-bench.rs` is command-line glue (option parsing, calling the
  benchmark runner, exit status), so it is not part of this model.
- Rust's `uint` is modelled as an unbounded `nat`. The job count is never
  computed with arithmetic here, so wrap-around cannot arise.
