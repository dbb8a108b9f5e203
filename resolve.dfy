/**
 * The two resolvers of `util/config.rs` built on the directory walk:
 * `get_config`, a nearest-wins point lookup of one top-level key, and
 * `all_configs`, which folds every fragment into one table with `merge`.
 */
module Resolve {
  import opened Errors
  import Toml
  import opened ConfigValues
  import opened Tree

  // ---------------------------------------------------------------------------
  // Point lookup
  // ---------------------------------------------------------------------------

  /** `extract_config`: read and parse the file, take the top-level entry `key` and convert it. */
  function ExtractConfig(file: File, key: string): (r: Result<ConfigValue>)
    ensures r.Ok? <==> file.contents.Parsed? && key in file.contents.table && Representable(file.contents.table[key])
    ensures r.Ok? ==> ToToml(r.value) == file.contents.table[key] && StampedWith(r.value, [file.path])
  {
    match file.contents
    case Unreadable => Err(ReadFailed(file.path))
    case Malformed => Err(ParseFailed(file.path))
    case Parsed(table) =>
      if key !in table then Err(KeyMissing) else FromToml(file.path, table[key])
  }

  /** The callback `get_config` hands to `find_in_tree`. */
  function Extractor(key: string): File -> Result<ConfigValue> {
    file => ExtractConfig(file, key)
  }

  /**
   * The point lookup over the directories `dirs`, nearest first, written
   * without the search's callback: candidates that are absent, or whose file
   * yields no usable `key`, are passed over; the first usable definition is
   * the answer; a candidate that will not open, or running out of
   * directories, reads as `key` not found.
   */
  function LookupIn(fs: FileSystem, dirs: seq<Path>, key: string): (r: Result<ConfigValue>)
    ensures r.Err? ==> r.error == NotFound(key)
  {
    if dirs == [] then Err(NotFound(key))
    else
      var p := Candidate(dirs[0]);
      if p !in fs then LookupIn(fs, dirs[1..], key)
      else match fs[p]
        case Unopenable => Err(NotFound(key))
        case Readable(c) =>
          var v := ExtractConfig(File(p, c), key);
          if v.Ok? then v else LookupIn(fs, dirs[1..], key)
  }

  /** What `get_config` returns when started in `pwd`. */
  function Lookup(fs: FileSystem, pwd: Path, key: string): Result<ConfigValue> {
    LookupIn(fs, Ancestors(pwd), key)
  }

  /** `find_in_tree` with the `extract_config` callback, its error replaced by not found, is the lookup. */
  lemma {:induction false} SearchIsLookup(fs: FileSystem, dirs: seq<Path>, key: string)
    ensures var found := FindSpec(fs, dirs, Extractor(key));
            LookupIn(fs, dirs, key) == if found.Ok? then found else Err(NotFound(key))
  {
    if dirs != [] {
      SearchIsLookup(fs, dirs[1..], key);
      var p := Candidate(dirs[0]);
      if p in fs && fs[p].Readable? {
        assert Extractor(key)(File(p, fs[p].contents)) == ExtractConfig(File(p, fs[p].contents), key);
      }
    }
  }

  /** `get_config`. */
  method GetConfig(fs: FileSystem, pwd: Path, key: string) returns (r: Result<ConfigValue>)
    ensures r == Lookup(fs, pwd, key)
    ensures r.Err? ==> r.error == NotFound(key)
  {
    r := FindInTree(fs, pwd, Extractor(key));
    SearchIsLookup(fs, Ancestors(pwd), key);
    if r.Err? {
      r := Err(NotFound(key));
    }
  }

  /** The candidate in `dir` exists, opens, and defines `key` as a convertible value. */
  predicate Defines(fs: FileSystem, dir: Path, key: string) {
    var p := Candidate(dir);
    p in fs && fs[p].Readable? && ExtractConfig(File(p, fs[p].contents), key).Ok?
  }

  /**
   * The candidate in `dir` is passed over by the lookup: absent, or open but with no usable `key`.
   * This is `Skipped` with the `Extractor(key)` callback, written without the lambda so that the
   * lemmas over `LookupIn` stay cheap to verify; `PassedOverIsSkipped` states the equivalence.
   */
  predicate PassedOver(fs: FileSystem, dir: Path, key: string) {
    var p := Candidate(dir);
    p !in fs || (fs[p].Readable? && ExtractConfig(File(p, fs[p].contents), key).Err?)
  }

  lemma PassedOverIsSkipped(fs: FileSystem, dir: Path, key: string)
    ensures PassedOver(fs, dir, key) == Skipped(fs, dir, Extractor(key))
  {
  }

  /** Nearest wins: the first directory defining `key` gives the answer, whatever farther ones say. */
  lemma {:induction false} LookupNearest(fs: FileSystem, dirs: seq<Path>, key: string, i: nat)
    requires i < |dirs|
    requires Defines(fs, dirs[i], key)
    requires forall j :: 0 <= j < i ==> PassedOver(fs, dirs[j], key)
    ensures var p := Candidate(dirs[i]);
            LookupIn(fs, dirs, key) == ExtractConfig(File(p, fs[p].contents), key)
  {
    if i > 0 {
      assert PassedOver(fs, dirs[0], key);
      LookupNearest(fs, dirs[1..], key, i - 1);
    }
  }

  /** When no directory defines `key` and every candidate opens, the lookup reports it not found. */
  lemma {:induction false} LookupExhausted(fs: FileSystem, dirs: seq<Path>, key: string)
    requires forall j :: 0 <= j < |dirs| ==> PassedOver(fs, dirs[j], key)
    ensures LookupIn(fs, dirs, key) == Err(NotFound(key))
  {
    if dirs != [] {
      assert PassedOver(fs, dirs[0], key);
      LookupExhausted(fs, dirs[1..], key);
    }
  }

  /** A candidate that exists but cannot be opened, met before any definition, also reads as not found. */
  lemma {:induction false} LookupOpenFailure(fs: FileSystem, dirs: seq<Path>, key: string, i: nat)
    requires i < |dirs|
    requires Candidate(dirs[i]) in fs && fs[Candidate(dirs[i])].Unopenable?
    requires forall j :: 0 <= j < i ==> PassedOver(fs, dirs[j], key)
    ensures LookupIn(fs, dirs, key) == Err(NotFound(key))
  {
    if i > 0 {
      assert PassedOver(fs, dirs[0], key);
      LookupOpenFailure(fs, dirs[1..], key, i - 1);
    }
  }

  // ---------------------------------------------------------------------------
  // Aggregation
  // ---------------------------------------------------------------------------

  /** The candidates that exist and open, in walk order: the files `walk_tree` hands to its callback. */
  function Files(fs: FileSystem, dirs: seq<Path>): (files: seq<File>)
    ensures |files| <= |dirs|
  {
    if dirs == [] then []
    else
      var p := Candidate(dirs[0]);
      var rest := Files(fs, dirs[1..]);
      if p in fs && fs[p].Readable? then [File(p, fs[p].contents)] + rest else rest
  }

  /** No existing candidate fails to open: the only condition under which `walk_tree` succeeds. */
  predicate OpensAll(fs: FileSystem, dirs: seq<Path>) {
    forall i :: 0 <= i < |dirs| && Candidate(dirs[i]) in fs ==> fs[Candidate(dirs[i])].Readable?
  }

  /** The `all_configs` callback up to the merge: read, parse, and convert the whole file as a table. */
  function Load(file: File): (r: Result<ConfigValue>)
    ensures r.Ok? <==> file.contents.Parsed? && Representable(Toml.Table(file.contents.table))
    ensures r.Ok? ==> r.value.value.Table? && r.value.value.entries.Keys == file.contents.table.Keys
    ensures r.Ok? ==> StampedWith(r.value, [file.path])
    ensures r.Ok? ==> ToToml(r.value) == Toml.Table(file.contents.table)
  {
    match file.contents
    case Unreadable => Err(ReadFailed(file.path))
    case Malformed => Err(ParseFailed(file.path))
    case Parsed(table) => FromToml(file.path, Toml.Table(table))
  }

  /**
   * One fold step. A fragment that does not load leaves the accumulator as
   * it was; one that merges gives the merged value; one whose merge fails
   * gives `None`: the partial state left then depends on the order in which
   * the tables' keys were visited.
   */
  function Step(acc: Option<ConfigValue>, file: File): Option<ConfigValue> {
    match acc
    case None => None
    case Some(a) =>
      match Load(file)
      case Err(_) => Some(a)
      case Ok(v) => if Compatible(a, v) then Some(Merged(a, v)) else None
  }

  /** The fold of `all_configs`, nearest fragment first. */
  function Fold(acc: Option<ConfigValue>, files: seq<File>): (r: Option<ConfigValue>)
    ensures acc.None? ==> r.None?
    ensures acc.Some? && r.Some? ==> SameKind(r.value.value, acc.value.value)
    decreases |files|
  {
    if files == [] then acc else Fold(Step(acc, files[0]), files[1..])
  }

  /** What `all_configs` yields when no merge along the way fails. */
  function Aggregate(fs: FileSystem, pwd: Path): Option<map<string, ConfigValue>> {
    match Fold(Some(EmptyTable()), Files(fs, Ancestors(pwd)))
    case None => None
    case Some(v) => Some(v.value.entries)
  }

  /** The closure `all_configs` passes to `walk_tree`, with `cfg` passed in and out. */
  method Visit(cfg: ConfigValue, file: File) returns (next: ConfigValue, res: Outcome)
    ensures Load(file).Err? ==> next == cfg && res == Fail(Load(file).error)
    ensures Load(file).Ok? ==> (res.Pass? <==> Compatible(cfg, Load(file).value))
    ensures res.Pass? ==> Compatible(cfg, Load(file).value) && next == Merged(cfg, Load(file).value)
    ensures Step(Some(cfg), file).Some? ==> Step(Some(cfg), file) == Some(next)
    ensures SameKind(next.value, cfg.value)
  {
    var loaded := Load(file);
    if loaded.Err? {
      return cfg, Fail(loaded.error);
    }
    next, res := Merge(cfg, loaded.value);
  }

  /**
   * `walk_tree` with the `all_configs` closure as its callback. Every
   * existing candidate is visited, nearest first; a callback failure only
   * resets the error flag, so the flag's check never fires, and the walk
   * fails only when a candidate cannot be opened.
   */
  method WalkTree(fs: FileSystem, pwd: Path, cfg: ConfigValue) returns (out: ConfigValue, r: Outcome)
    ensures r.Pass? <==> OpensAll(fs, Ancestors(pwd))
    ensures r.Fail? ==> r.error.OpenFailed?
    ensures r.Pass? && Fold(Some(cfg), Files(fs, Ancestors(pwd))).Some? ==>
              out == Fold(Some(cfg), Files(fs, Ancestors(pwd))).value
    ensures SameKind(out.value, cfg.value)
  {
    var current := pwd;
    var err := false;
    out := cfg;
    ghost var known: Option<ConfigValue> := Some(cfg);
    while true
      invariant !err
      invariant OpensAll(fs, Ancestors(pwd)) <==> OpensAll(fs, Ancestors(current))
      invariant Fold(Some(cfg), Files(fs, Ancestors(pwd))) == Fold(known, Files(fs, Ancestors(current)))
      invariant known.Some? ==> known.value == out
      invariant SameKind(out.value, cfg.value)
      decreases |current|
    {
      var possible := Candidate(current);
      if possible in fs {
        match fs[possible] {
          case Unopenable =>
            return out, Fail(OpenFailed(possible));
          case Readable(c) =>
            var res;
            out, res := Visit(out, File(possible, c));
            known := Step(known, File(possible, c));
            if res.Fail? {
              err := false;
            }
        }
      }
      if err {
        // the source returns an error here; the flag is never set, so this is dead
        assert false;
      }
      var step := Pop(current);
      if !step.1 {
        break;
      }
      current := step.0;
    }
    r := Pass;
  }

  /** `all_configs`: fold every fragment, nearest first, into an empty table. */
  method AllConfigs(fs: FileSystem, pwd: Path) returns (r: Result<map<string, ConfigValue>>)
    ensures r.Ok? <==> OpensAll(fs, Ancestors(pwd))
    ensures r.Err? ==> r.error == LoadFailed
    ensures r.Ok? && Aggregate(fs, pwd).Some? ==> r.value == Aggregate(fs, pwd).value
  {
    var cfg, res := WalkTree(fs, pwd, EmptyTable());
    if res.Fail? {
      return Err(LoadFailed);
    }
    match cfg.value {
      case Table(entries) => r := Ok(entries);
      case _ =>
        // the source's `unreachable!()`: `WalkTree` keeps the variant of the empty table it starts from
        assert false;
    }
  }

  // ---------------------------------------------------------------------------
  // Properties of the aggregation
  // ---------------------------------------------------------------------------

  /** Folding a concatenation is folding its parts one after the other. */
  lemma {:induction false} FoldAppend(acc: Option<ConfigValue>, xs: seq<File>, ys: seq<File>)
    ensures Fold(acc, xs + ys) == Fold(Fold(acc, xs), ys)
    decreases |xs|
  {
    if xs == [] {
      assert xs + ys == ys;
    } else {
      assert (xs + ys)[0] == xs[0];
      assert (xs + ys)[1..] == xs[1..] + ys;
      FoldAppend(Step(acc, xs[0]), xs[1..], ys);
    }
  }

  /** A directory list without any candidate yields no file. */
  lemma {:induction false} NoCandidatesNoFiles(fs: FileSystem, dirs: seq<Path>)
    requires forall j :: 0 <= j < |dirs| ==> Candidate(dirs[j]) !in fs
    ensures Files(fs, dirs) == []
  {
    if dirs != [] {
      assert Candidate(dirs[0]) !in fs;
      NoCandidatesNoFiles(fs, dirs[1..]);
    }
  }

  /** With no fragment anywhere on the way to the root, the aggregate is the empty table. */
  lemma AggregateWithoutFragments(fs: FileSystem, pwd: Path)
    requires forall j :: 0 <= j <= |pwd| ==> Candidate(Ancestors(pwd)[j]) !in fs
    ensures Aggregate(fs, pwd) == Some(map[])
  {
    NoCandidatesNoFiles(fs, Ancestors(pwd));
  }

  /** A single fragment is the aggregate by itself. */
  lemma SingleFragment(f: File)
    requires Load(f).Ok?
    ensures Fold(Some(EmptyTable()), [f]) == Some(Load(f).value)
  {
    EmptyTableMergesTo(Load(f).value);
  }

  /** A fragment that fails to read, parse or convert is skipped: the fold is as though it were absent. */
  lemma UnloadableSkipped(acc: Option<ConfigValue>, files: seq<File>, i: nat)
    requires i < |files| && Load(files[i]).Err?
    ensures Fold(acc, files) == Fold(acc, files[..i] + files[i + 1..])
  {
    assert files == files[..i] + [files[i]] + files[i + 1..];
    FoldAppend(acc, files[..i] + [files[i]], files[i + 1..]);
    FoldAppend(acc, files[..i], [files[i]]);
    FoldAppend(acc, files[..i], files[i + 1..]);
  }

  /** The loadable fragments among `files` leave `key` undeclared. */
  predicate LeaveUndeclared(files: seq<File>, key: string) {
    forall i :: 0 <= i < |files| && Load(files[i]).Ok? ==> key !in Load(files[i]).value.value.entries
  }

  /** A fold over fragments that leave `key` undeclared keeps the entry the accumulator holds there. */
  lemma {:induction false} FoldKeepsUndeclared(acc: ConfigValue, files: seq<File>, key: string)
    requires acc.value.Table? && key in acc.value.entries
    requires LeaveUndeclared(files, key)
    requires Fold(Some(acc), files).Some?
    ensures var r := Fold(Some(acc), files).value;
            r.value.Table? && key in r.value.entries && r.value.entries[key] == acc.value.entries[key]
    decreases |files|
  {
    if files == [] {
      return;
    }
    assert forall i :: 0 <= i < |files[1..]| ==> files[1..][i] == files[i + 1];
    match Load(files[0])
    case Err(_) =>
      FoldKeepsUndeclared(acc, files[1..], key);
    case Ok(v) =>
      assert Compatible(acc, v);
      assert key !in v.value.entries;
      FoldKeepsUndeclared(Merged(acc, v), files[1..], key);
  }

  /**
   * Farther wins for strings: when `f` sets `key` to a string and no
   * fragment farther from the start directory than `f` declares `key`, the
   * aggregate holds exactly `f`'s node, text and provenance, whatever nearer
   * fragments said.
   */
  lemma FarthestStringWins(acc: ConfigValue, pre: seq<File>, f: File, post: seq<File>, key: string)
    requires acc.value.Table?
    requires Load(f).Ok? && key in Load(f).value.value.entries
    requires Load(f).value.value.entries[key].value.String?
    requires LeaveUndeclared(post, key)
    requires Fold(Some(acc), pre + [f] + post).Some?
    ensures var r := Fold(Some(acc), pre + [f] + post).value;
            r.value.Table? && key in r.value.entries && r.value.entries[key] == Load(f).value.value.entries[key]
  {
    FoldAppend(Some(acc), pre + [f], post);
    FoldAppend(Some(acc), pre, [f]);
    var mid := Fold(Some(acc), pre);
    var v := Load(f).value;
    assert mid.Some? && Compatible(mid.value, v);
    assert [f][1..] == [];
    assert Fold(mid, [f]) == Some(Merged(mid.value, v));
    var m := Merged(mid.value, v);
    var x, y := mid.value.value.entries, v.value.entries;
    if key in x {
      assert Compatible(x[key], y[key]);
      assert x[key].value.String?;
      assert m.value.entries[key] == Merged(x[key], y[key]);
      assert Merged(x[key], y[key]) == ConfigValue(String(y[key].value.s), y[key].path);
    }
    assert m.value.entries[key] == y[key];
    FoldKeepsUndeclared(m, post, key);
  }

  /** The list `v` declares under `key`, or the empty list. */
  function ItemsAt(v: ConfigValue, key: string): seq<string> {
    if v.value.Table? && key in v.value.entries && v.value.entries[key].value.List?
    then v.value.entries[key].value.items else []
  }

  /** `v` is a table whose entry `key`, if any, is a list. */
  predicate ListOrAbsent(v: ConfigValue, key: string) {
    v.value.Table? && (key in v.value.entries ==> v.value.entries[key].value.List?)
  }

  /** The lists the loadable fragments among `files` declare under `key`, concatenated in order. */
  function ListsAt(files: seq<File>, key: string): seq<string> {
    if files == [] then []
    else
      var here := match Load(files[0]) case Ok(v) => ItemsAt(v, key) case Err(_) => [];
      here + ListsAt(files[1..], key)
  }

  /**
   * Lists accumulate nearest first: when every fragment declares `key` as a
   * list or not at all, and the fold succeeds, the aggregate's list is the
   * starting list followed by each fragment's list in walk order.
   */
  lemma {:induction false} ListLayersConcatenate(acc: ConfigValue, files: seq<File>, key: string)
    requires ListOrAbsent(acc, key)
    requires forall i :: 0 <= i < |files| && Load(files[i]).Ok? ==> ListOrAbsent(Load(files[i]).value, key)
    requires Fold(Some(acc), files).Some?
    ensures ListOrAbsent(Fold(Some(acc), files).value, key)
    ensures ItemsAt(Fold(Some(acc), files).value, key) == ItemsAt(acc, key) + ListsAt(files, key)
    decreases |files|
  {
    if files == [] {
      return;
    }
    var f := files[0];
    assert forall i :: 0 <= i < |files[1..]| ==> files[1..][i] == files[i + 1];
    match Load(f)
    case Err(_) =>
      ListLayersConcatenate(acc, files[1..], key);
    case Ok(v) =>
      assert Compatible(acc, v);
      var m := Merged(acc, v);
      var x, y, z := acc.value.entries, v.value.entries, m.value.entries;
      assert ListOrAbsent(v, key);
      assert ListOrAbsent(m, key) && ItemsAt(m, key) == ItemsAt(acc, key) + ItemsAt(v, key) by {
        if key in x && key in y {
          assert z[key] == Merged(x[key], y[key]);
        }
      }
      ListLayersConcatenate(m, files[1..], key);
  }

  /** A fold that succeeds keeps the variant of the entry the accumulator holds at `key`. */
  lemma {:induction false} FoldKeepsKindAt(acc: ConfigValue, files: seq<File>, key: string)
    requires acc.value.Table? && key in acc.value.entries
    requires Fold(Some(acc), files).Some?
    ensures var r := Fold(Some(acc), files).value;
            r.value.Table? && key in r.value.entries && SameKind(r.value.entries[key].value, acc.value.entries[key].value)
    decreases |files|
  {
    if files == [] {
      return;
    }
    match Load(files[0])
    case Err(_) =>
      FoldKeepsKindAt(acc, files[1..], key);
    case Ok(v) =>
      assert Compatible(acc, v);
      var m := Merged(acc, v);
      var x, y := acc.value.entries, v.value.entries;
      if key in y {
        assert m.value.entries[key] == Merged(x[key], y[key]);
      }
      FoldKeepsKindAt(m, files[1..], key);
  }

  /**
   * Two fragments whose entries under `key` are of different variants
   * cannot both be merged, wherever they stand in the walk and whatever
   * table the fold starts from.
   */
  lemma ConflictingFragments(acc: ConfigValue, pre: seq<File>, f0: File, mid: seq<File>, f1: File, post: seq<File>,
                             key: string)
    requires acc.value.Table?
    requires Load(f0).Ok? && Load(f1).Ok?
    requires key in Load(f0).value.value.entries && key in Load(f1).value.value.entries
    requires !SameKind(Load(f0).value.value.entries[key].value, Load(f1).value.value.entries[key].value)
    ensures Fold(Some(acc), pre + [f0] + mid + [f1] + post).None?
  {
    var v0, v1 := Load(f0).value, Load(f1).value;
    FoldAppend(Some(acc), pre + [f0] + mid + [f1], post);
    FoldAppend(Some(acc), pre + [f0] + mid, [f1]);
    FoldAppend(Some(acc), pre + [f0], mid);
    FoldAppend(Some(acc), pre, [f0]);
    assert [f0][1..] == [] && [f1][1..] == [];
    var a := Fold(Some(acc), pre);
    if a.None? {
      return;
    }
    if !Compatible(a.value, v0) {
      return;
    }
    var b := Merged(a.value, v0);
    assert Fold(a, [f0]) == Some(b);
    var x, y := a.value.value.entries, v0.value.entries;
    assert key in b.value.entries && SameKind(b.value.entries[key].value, y[key].value) by {
      if key in x {
        assert Compatible(x[key], y[key]);
        assert b.value.entries[key] == Merged(x[key], y[key]);
      }
    }
    var c := Fold(Some(b), mid);
    if c.None? {
      return;
    }
    FoldKeepsKindAt(b, mid, key);
    var z := c.value.value.entries;
    assert !Compatible(z[key], v1.value.entries[key]);
    assert !Compatible(c.value, v1);
  }
}
