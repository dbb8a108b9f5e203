/**
 * The session record `Config` of `util/config.rs`: the home directory, the
 * number of parallel jobs and the target, fixed at construction, and the
 * archiver and linker overrides, which setters may change later. The home
 * directory probe and the CPU count are passed in.
 */
module Session {
  import opened Errors

  class Config {
    const home: Path
    const jobs: nat
    const target: Option<string>
    var linker: Option<string>
    var ar: Option<string>

    /** The record `Config::new` builds once its checks have passed. */
    constructor (home: Path, jobs: nat, target: Option<string>)
      ensures Home() == home && Jobs() == jobs && Target() == target
      ensures Linker() == None && Ar() == None
    {
      this.home := home;
      this.jobs := jobs;
      this.target := target;
      this.linker := None;
      this.ar := None;
    }

    function Home(): Path { home }

    function Jobs(): nat { jobs }

    function Target(): Option<string> { target }

    function Linker(): Option<string>
      reads this
    {
      linker
    }

    function Ar(): Option<string>
      reads this
    {
      ar
    }

    /** `git_db_path`: `<home>/.cargo/git/db`. */
    function GitDbPath(): Path {
      home + [".cargo", "git", "db"]
    }

    /** `git_checkout_path`: `<home>/.cargo/git/checkouts`. */
    function GitCheckoutPath(): Path {
      home + [".cargo", "git", "checkouts"]
    }

    /** `set_ar`: the archiver is set; nothing else changes. */
    method SetAr(ar: string)
      modifies this
      ensures Ar() == Some(ar)
      ensures Linker() == old(Linker())
    {
      this.ar := Some(ar);
    }

    /** `set_linker`: the linker is set; nothing else changes. */
    method SetLinker(linker: string)
      modifies this
      ensures Linker() == Some(linker)
      ensures Ar() == old(Ar())
    {
      this.linker := Some(linker);
    }
  }

  /**
   * The git database and the git checkouts are two sibling directories
   * beneath `<home>/.cargo/git`: neither is inside the other.
   */
  lemma GitPathsSiblings(c: Config)
    ensures c.GitDbPath()[..|c.Home()| + 2] == c.GitCheckoutPath()[..|c.Home()| + 2] == c.Home() + [".cargo", "git"]
    ensures |c.GitDbPath()| == |c.GitCheckoutPath()| == |c.Home()| + 3
    ensures c.GitDbPath()[|c.Home()| + 2] == "db" && c.GitCheckoutPath()[|c.Home()| + 2] == "checkouts"
    ensures c.GitDbPath() != c.GitCheckoutPath()
  {
  }

  /**
   * `Config::new`: a job count of zero is refused first; then a missing home
   * directory is refused; otherwise the job count defaults to the number of
   * CPUs and no archiver or linker is set.
   */
  method NewConfig(jobs: Option<nat>, target: Option<string>, homeDir: Option<Path>, numCpus: nat)
    returns (r: Result<Config>)
    ensures r.Err? <==> jobs == Some(0) || homeDir.None?
    ensures jobs == Some(0) ==> r == Err(JobsZero)
    ensures jobs != Some(0) && homeDir.None? ==> r == Err(NoHome)
    ensures r.Ok? ==> fresh(r.value)
    ensures r.Ok? ==> r.value.Home() == homeDir.value && r.value.Target() == target
    ensures r.Ok? ==> r.value.Jobs() == (if jobs.Some? then jobs.value else numCpus)
    ensures r.Ok? ==> r.value.Linker() == None && r.value.Ar() == None
  {
    if jobs == Some(0) {
      return Err(JobsZero);
    }
    if homeDir.None? {
      return Err(NoHome);
    }
    var c := new Config(homeDir.value, if jobs.Some? then jobs.value else numCpus, target);
    r := Ok(c);
  }
}
