/**
 * Concrete directory trees: the behaviour of both resolvers on a start
 * directory `/a/b/c` with fragments in `/a` and `/a/b`.
 */
module Scenarios {
  import opened Errors
  import Toml
  import opened ConfigValues
  import opened Tree
  import opened Resolve

  const Start: Path := ["a", "b", "c"]
  const AtA: Path := ["a", ".cargo", "config"]
  const AtB: Path := ["a", "b", ".cargo", "config"]

  /** `/a` sets `name = outer`, `/a/b` sets `name = inner`. */
  function TwoStrings(name: string, outer: string, inner: string): FileSystem {
    map[AtA := Readable(Parsed(map[name := Toml.String(outer)])),
        AtB := Readable(Parsed(map[name := Toml.String(inner)]))]
  }

  lemma StartAncestors()
    ensures Ancestors(Start) == [["a", "b", "c"], ["a", "b"], ["a"], []]
  {
    assert Pop(["a", "b", "c"]).0 == ["a", "b"];
    assert Pop(["a", "b"]).0 == ["a"];
    assert Pop(["a"]).0 == [];
  }

  lemma StartCandidates()
    ensures Candidate(["a", "b", "c"]) == ["a", "b", "c", ".cargo", "config"]
    ensures Candidate(["a", "b"]) == AtB
    ensures Candidate(["a"]) == AtA
    ensures Candidate([]) == [".cargo", "config"]
  {
  }

  /** A fragment with one top-level entry loads as a one-entry table. */
  lemma LoadSingleEntry(p: Path, name: string, t: Toml.Value, v: ConfigValue)
    requires FromToml(p, t) == Ok(v)
    ensures Load(File(p, Parsed(map[name := t]))) == Ok(ConfigValue(Table(map[name := v]), [p]))
  {
    var m := map[name := t];
    assert Representable(Toml.Table(m));
    var r := FromToml(p, Toml.Table(m));
    var w := ConfigValue(Table(map[name := v]), [p]);
    assert ToToml(w) == Toml.Table(m) by {
      assert (map k | k in map[name := v] :: ToToml(map[name := v][k])) == m;
    }
    ToTomlInjective(r.value, w, [p]);
  }

  lemma OneStringList(p: Path, s: string)
    ensures FromToml(p, Toml.Array([Toml.String(s)])) == Ok(ConfigValue(List([s]), [p]))
  {
    var elems := [Toml.String(s)];
    assert seq(|elems|, i requires 0 <= i < |elems| => elems[i].s) == [s];
  }

  /** The files the walk from `/a/b/c` meets when only `/a` and `/a/b` hold fragments. */
  lemma FilesFromStart(fs: FileSystem)
    requires fs.Keys == {AtA, AtB} && fs[AtA].Readable? && fs[AtB].Readable?
    ensures Files(fs, Ancestors(Start)) == [File(AtB, fs[AtB].contents), File(AtA, fs[AtA].contents)]
  {
    StartAncestors();
    StartCandidates();
    var dirs := Ancestors(Start);
    assert Candidate([]) !in fs by { assert |Candidate([])| == 2; }
    assert Files(fs, dirs[3..]) == [];
    assert dirs[2..][1..] == dirs[3..];
    assert Files(fs, dirs[2..]) == [File(AtA, fs[AtA].contents)];
    assert dirs[1..][1..] == dirs[2..];
    assert Files(fs, dirs[1..]) == [File(AtB, fs[AtB].contents), File(AtA, fs[AtA].contents)];
    assert Candidate(dirs[0]) !in fs by { assert |Candidate(dirs[0])| == 5; }
  }

  /** No fragment on the way to the root: the lookup fails with the key named, the aggregate is empty. */
  lemma NothingConfigured()
    ensures Lookup(map[], Start, "registry") == Err(NotFound("registry"))
    ensures Aggregate(map[], Start) == Some(map[])
  {
    StartAncestors();
    assert LookupIn(map[], [[]], "registry") == Err(NotFound("registry"));
    assert Files(map[], [[]]) == [];
  }

  /** The point lookup from `/a/b/c` answers with `/a/b`, the nearer fragment. */
  lemma LookupTakesNearer()
    ensures Lookup(TwoStrings("token", "abc", "xyz"), Start, "token") ==
            Ok(ConfigValue(String("xyz"), [AtB]))
  {
    var fs := TwoStrings("token", "abc", "xyz");
    StartAncestors();
    StartCandidates();
    var dirs := Ancestors(Start);
    assert PassedOver(fs, dirs[0], "token");
    assert ExtractConfig(File(AtB, fs[AtB].contents), "token") == Ok(ConfigValue(String("xyz"), [AtB]));
    LookupNearest(fs, dirs, "token", 1);
  }

  /** The aggregate of the same tree holds `/a`'s string: the fragment folded last overwrites. */
  lemma AggregateTakesFarther()
    ensures var r := Aggregate(TwoStrings("token", "abc", "xyz"), Start);
            r.Some? && "token" in r.value && r.value["token"] == ConfigValue(String("abc"), [AtA])
  {
    var fs := TwoStrings("token", "abc", "xyz");
    StartAncestors();
    StartCandidates();
    var fb, fa := File(AtB, fs[AtB].contents), File(AtA, fs[AtA].contents);
    FilesFromStart(fs);
    var vb := ConfigValue(Table(map["token" := ConfigValue(String("xyz"), [AtB])]), [AtB]);
    var va := ConfigValue(Table(map["token" := ConfigValue(String("abc"), [AtA])]), [AtA]);
    LoadSingleEntry(AtB, "token", Toml.String("xyz"), ConfigValue(String("xyz"), [AtB]));
    LoadSingleEntry(AtA, "token", Toml.String("abc"), ConfigValue(String("abc"), [AtA]));
    EmptyTableMergesTo(vb);
    assert Compatible(vb, va);
    assert [fb, fa] == [fb] + [fa] + [];
    FoldAppend(Some(EmptyTable()), [fb], [fa]);
    FarthestStringWins(EmptyTable(), [fb], fa, [], "token");
  }

  /** Lists from `/a/b` come before those from `/a` in the aggregate. */
  lemma AggregateListsNearestFirst()
    ensures var fs := map[AtA := Readable(Parsed(map["flag" := Toml.Array([Toml.String("x")])])),
                          AtB := Readable(Parsed(map["flag" := Toml.Array([Toml.String("y")])]))];
            var r := Aggregate(fs, Start);
            r.Some? && "flag" in r.value && r.value["flag"].value == List(["y", "x"])
  {
    var fs := map[AtA := Readable(Parsed(map["flag" := Toml.Array([Toml.String("x")])])),
                  AtB := Readable(Parsed(map["flag" := Toml.Array([Toml.String("y")])]))];
    StartAncestors();
    StartCandidates();
    var fb, fa := File(AtB, fs[AtB].contents), File(AtA, fs[AtA].contents);
    var files := [fb, fa];
    FilesFromStart(fs);
    var vb := ConfigValue(Table(map["flag" := ConfigValue(List(["y"]), [AtB])]), [AtB]);
    var va := ConfigValue(Table(map["flag" := ConfigValue(List(["x"]), [AtA])]), [AtA]);
    OneStringList(AtB, "y");
    OneStringList(AtA, "x");
    LoadSingleEntry(AtB, "flag", Toml.Array([Toml.String("y")]), ConfigValue(List(["y"]), [AtB]));
    LoadSingleEntry(AtA, "flag", Toml.Array([Toml.String("x")]), ConfigValue(List(["x"]), [AtA]));
    EmptyTableMergesTo(vb);
    assert Compatible(vb, va);
    assert Step(Some(EmptyTable()), fb) == Some(vb);
    assert files[1..] == [fa];
    assert Fold(Some(vb), [fa]) == Some(Merged(vb, va));
    assert Fold(Some(EmptyTable()), files).Some?;
    ListLayersConcatenate(EmptyTable(), files, "flag");
    assert ItemsAt(vb, "flag") == ["y"] && ItemsAt(va, "flag") == ["x"];
    assert ListsAt([fa], "flag") == ["x"];
    assert ListsAt(files, "flag") == ["y", "x"];
  }
}
