/**
 * The directory-hierarchy walk of `util/config.rs`: the candidate file
 * `<dir>/.cargo/config` of the start directory and of each parent up to
 * the root, over a file system given as a map, and `find_in_tree`, which
 * stops at the nearest candidate its callback accepts.
 */
module Tree {
  import opened Errors
  import Toml

  /** What reading an opened candidate and parsing its text as TOML yields. */
  datatype Contents = Unreadable | Malformed | Parsed(table: Toml.Table)

  /** An existing candidate: `File::open` fails on it, or it opens. */
  datatype Entry = Unopenable | Readable(contents: Contents)

  /** The file system: a path exists exactly when it is a key. */
  type FileSystem = map<Path, Entry>

  /** An opened file, `io::fs::File`: its path and what reading it yields. */
  datatype File = File(path: Path, contents: Contents)

  /** `dir.join(".cargo").join("config")`. */
  function Candidate(dir: Path): Path {
    dir + [".cargo", "config"]
  }

  /** `Path::pop`: the parent and `true`, or the root unchanged and `false`. */
  function Pop(p: Path): (Path, bool) {
    if p == [] then (p, false) else (p[..|p| - 1], true)
  }

  /** The directories the walk probes, nearest first: `dir`, its parent, ..., the root. */
  function Ancestors(dir: Path): (ds: seq<Path>)
    ensures |ds| == |dir| + 1
    decreases |dir|
  {
    if dir == [] then [dir] else [dir] + Ancestors(Pop(dir).0)
  }

  /**
   * The `i`-th directory probed is `dir` with its last `i` components
   * dropped: the start directory first, then each parent, the root last.
   */
  lemma {:induction false} AncestorsAt(dir: Path, i: nat)
    requires i <= |dir|
    ensures Ancestors(dir)[i] == dir[..|dir| - i]
    decreases |dir|
  {
    if i > 0 {
      AncestorsAt(Pop(dir).0, i - 1);
    }
  }

  /** A directory the point search passes over: no candidate there, or the callback rejects it. */
  predicate Skipped<T>(fs: FileSystem, dir: Path, walk: File -> Result<T>) {
    var p := Candidate(dir);
    p !in fs || (fs[p].Readable? && walk(File(p, fs[p].contents)).Err?)
  }

  /** What `find_in_tree` returns when it probes `dirs` in order. */
  function FindSpec<T>(fs: FileSystem, dirs: seq<Path>, walk: File -> Result<T>): Result<T> {
    if dirs == [] then Err(NoCandidate)
    else
      var p := Candidate(dirs[0]);
      if p !in fs then FindSpec(fs, dirs[1..], walk)
      else match fs[p]
        case Unopenable => Err(OpenFailed(p))
        case Readable(c) =>
          var res := walk(File(p, c));
          if res.Ok? then res else FindSpec(fs, dirs[1..], walk)
  }

  /** The nearest directory whose callback succeeds, with only skipped ones before it, gives the result. */
  lemma {:induction false} FindNearest<T>(fs: FileSystem, dirs: seq<Path>, walk: File -> Result<T>, i: nat)
    requires i < |dirs|
    requires forall j :: 0 <= j < i ==> Skipped(fs, dirs[j], walk)
    requires Candidate(dirs[i]) in fs && fs[Candidate(dirs[i])].Readable?
    requires walk(File(Candidate(dirs[i]), fs[Candidate(dirs[i])].contents)).Ok?
    ensures FindSpec(fs, dirs, walk) == walk(File(Candidate(dirs[i]), fs[Candidate(dirs[i])].contents))
  {
    if i > 0 {
      assert Skipped(fs, dirs[0], walk);
      FindNearest(fs, dirs[1..], walk, i - 1);
    }
  }

  /** A candidate that cannot be opened, with only skipped directories before it, ends the search with an error. */
  lemma {:induction false} FindOpenFailure<T>(fs: FileSystem, dirs: seq<Path>, walk: File -> Result<T>, i: nat)
    requires i < |dirs|
    requires forall j :: 0 <= j < i ==> Skipped(fs, dirs[j], walk)
    requires Candidate(dirs[i]) in fs && fs[Candidate(dirs[i])].Unopenable?
    ensures FindSpec(fs, dirs, walk) == Err(OpenFailed(Candidate(dirs[i])))
  {
    if i > 0 {
      assert Skipped(fs, dirs[0], walk);
      FindOpenFailure(fs, dirs[1..], walk, i - 1);
    }
  }

  /** When every directory is skipped the search finds nothing. */
  lemma {:induction false} FindExhausted<T>(fs: FileSystem, dirs: seq<Path>, walk: File -> Result<T>)
    requires forall j :: 0 <= j < |dirs| ==> Skipped(fs, dirs[j], walk)
    ensures FindSpec(fs, dirs, walk) == Err(NoCandidate)
  {
    if dirs != [] {
      assert Skipped(fs, dirs[0], walk);
      FindExhausted(fs, dirs[1..], walk);
    }
  }

  /** `find_in_tree`: probe the start directory, then each parent, until one candidate's callback succeeds. */
  method FindInTree<T>(fs: FileSystem, pwd: Path, walk: File -> Result<T>) returns (r: Result<T>)
    ensures r == FindSpec(fs, Ancestors(pwd), walk)
  {
    var current := pwd;
    while true
      invariant FindSpec(fs, Ancestors(current), walk) == FindSpec(fs, Ancestors(pwd), walk)
      decreases |current|
    {
      var possible := Candidate(current);
      if possible in fs {
        match fs[possible] {
          case Unopenable =>
            return Err(OpenFailed(possible));
          case Readable(c) =>
            var res := walk(File(possible, c));
            if res.Ok? {
              return res;
            }
        }
      }
      var step := Pop(current);
      if !step.1 {
        break;
      }
      current := step.0;
    }
    r := Err(NoCandidate);
  }
}
