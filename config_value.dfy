/**
 * The tagged configuration value of `util/config.rs`: a string, a list of
 * strings or a table of further values, each carrying the list of files it
 * came from. Conversion from the generic TOML tree, the typed accessors and
 * the in-place merge.
 */
module ConfigValues {
  import opened Errors
  import Toml

  /** `ConfigValueValue`. */
  datatype Value =
    | String(s: string)
    | List(items: seq<string>)
    | Table(entries: map<string, ConfigValue>)

  /** `ConfigValue`: a value and its provenance, the paths of the files that produced it. */
  datatype ConfigValue = ConfigValue(value: Value, path: seq<Path>)

  predicate SameKind(a: Value, b: Value) {
    (a.String? && b.String?) || (a.List? && b.List?) || (a.Table? && b.Table?)
  }

  /** `ConfigValue::new`: an empty list that no file contributed to. */
  function New(): ConfigValue {
    ConfigValue(List([]), [])
  }

  /** The empty table that `all_configs` starts its fold from. */
  function EmptyTable(): ConfigValue {
    ConfigValue(Table(map[]), [])
  }

  /** `ConfigValueValue::desc`: the name of a variant, as used in merge errors. */
  function Desc(v: Value): string {
    match v
    case Table(_) => "table"
    case List(_) => "array"
    case String(_) => "string"
  }

  /** Two values have the same name exactly when they are of the same variant. */
  lemma DescNamesKind(a: Value, b: Value)
    ensures Desc(a) == Desc(b) <==> SameKind(a, b)
  {
    assert "table" != "array" && "table" != "string" && "array" != "string" by {
      assert "table"[0] == 't' && "array"[0] == 'a' && "string"[0] == 's';
    }
  }

  // ---------------------------------------------------------------------------
  // Conversion from the generic TOML tree
  // ---------------------------------------------------------------------------

  /** The TOML trees a configuration value can be built from: strings, arrays of strings, tables of those. */
  predicate Representable(t: Toml.Value) {
    match t
    case String(_) => true
    case Array(elems) => forall i :: 0 <= i < |elems| ==> elems[i].String?
    case Table(m) => forall k :: k in m ==> Representable(m[k])
    case _ => false
  }

  /** Every node of `v`, nested ones included, has provenance exactly `p`. */
  predicate StampedWith(v: ConfigValue, p: seq<Path>) {
    v.path == p &&
    match v.value
    case Table(m) => forall k :: k in m ==> StampedWith(m[k], p)
    case _ => true
  }

  /** The TOML tree a value stands for, forgetting provenance. */
  function ToToml(v: ConfigValue): Toml.Value {
    match v.value
    case String(s) => Toml.String(s)
    case List(items) => Toml.Array(seq(|items|, i requires 0 <= i < |items| => Toml.String(items[i])))
    case Table(m) => Toml.Table(map k | k in m :: ToToml(m[k]))
  }

  /**
   * `ConfigValue::from_toml`: strings, arrays of strings and tables convert,
   * every node stamped with `path`; anything else, and an array holding a
   * non-string, fails.
   */
  function FromToml(path: Path, t: Toml.Value): (r: Result<ConfigValue>)
    ensures r.Ok? <==> Representable(t)
    ensures r.Ok? ==> ToToml(r.value) == t && StampedWith(r.value, [path])
    ensures r.Err? ==> r.error == Unconvertible
  {
    match t
    case String(s) => Ok(ConfigValue(String(s), [path]))
    case Array(elems) =>
      if forall i :: 0 <= i < |elems| ==> elems[i].String? then
        var items := seq(|elems|, i requires 0 <= i < |elems| => elems[i].s);
        assert ToToml(ConfigValue(List(items), [path])) == t by {
          assert Toml.Array(seq(|items|, i requires 0 <= i < |items| => Toml.String(items[i]))).elems == elems;
        }
        Ok(ConfigValue(List(items), [path]))
      else
        Err(Unconvertible)
    case Table(m) =>
      if forall k :: k in m ==> FromToml(path, m[k]).Ok? then
        var entries := map k | k in m :: FromToml(path, m[k]).value;
        assert (map k | k in entries :: ToToml(entries[k])) == m;
        Ok(ConfigValue(Table(entries), [path]))
      else
        Err(Unconvertible)
    case _ => Err(Unconvertible)
  }

  /** Provenance aside, a value is determined by its TOML tree. */
  lemma {:induction false} ToTomlInjective(a: ConfigValue, b: ConfigValue, p: seq<Path>)
    requires StampedWith(a, p) && StampedWith(b, p)
    requires ToToml(a) == ToToml(b)
    ensures a == b
  {
    match a.value
    case String(_) =>
    case List(xs) =>
      var ys := b.value.items;
      assert |xs| == |ToToml(a).elems| == |ys|;
      forall i | 0 <= i < |xs| ensures xs[i] == ys[i] {
        assert ToToml(a).elems[i] == Toml.String(xs[i]);
        assert ToToml(b).elems[i] == Toml.String(ys[i]);
      }
    case Table(x) =>
      var y := b.value.entries;
      assert x.Keys == ToToml(a).entries.Keys == y.Keys;
      forall k | k in x ensures x[k] == y[k] {
        assert ToToml(a).entries[k] == ToToml(x[k]);
        assert ToToml(b).entries[k] == ToToml(y[k]);
        ToTomlInjective(x[k], y[k], p);
      }
  }

  /** The other direction of the round trip: a value stamped with one path is what `from_toml` builds from its tree. */
  lemma {:induction false} FromTomlOfToToml(path: Path, v: ConfigValue)
    requires StampedWith(v, [path])
    ensures FromToml(path, ToToml(v)) == Ok(v)
  {
    RepresentableToToml(v);
    var r := FromToml(path, ToToml(v));
    ToTomlInjective(r.value, v, [path]);
  }

  /** Every value stands for a tree that converts. */
  lemma {:induction false} RepresentableToToml(v: ConfigValue)
    ensures Representable(ToToml(v))
  {
    match v.value
    case String(_) =>
    case List(items) =>
    case Table(m) =>
      forall k | k in m ensures Representable(ToToml(m[k])) {
        RepresentableToToml(m[k]);
      }
      assert forall k :: k in ToToml(v).entries ==> ToToml(v).entries[k] == ToToml(m[k]);
  }

  // ---------------------------------------------------------------------------
  // Typed accessors
  // ---------------------------------------------------------------------------

  /** `ConfigValue::string`. */
  function AsString(v: ConfigValue): (r: Result<string>)
    ensures r.Ok? <==> v.value.String?
    ensures r.Ok? ==> r.value == v.value.s
    ensures r.Err? ==> r.error.TypeMismatch? && r.error.expected == "string"
  {
    match v.value
    case Table(_) => Err(TypeMismatch("string", "table"))
    case List(_) => Err(TypeMismatch("string", "list"))
    case String(s) => Ok(s)
  }

  /** `ConfigValue::table`. */
  function AsTable(v: ConfigValue): (r: Result<map<string, ConfigValue>>)
    ensures r.Ok? <==> v.value.Table?
    ensures r.Ok? ==> r.value == v.value.entries
    ensures r.Err? ==> r.error.TypeMismatch? && r.error.expected == "table"
  {
    match v.value
    case String(_) => Err(TypeMismatch("table", "string"))
    case List(_) => Err(TypeMismatch("table", "list"))
    case Table(t) => Ok(t)
  }

  /** `ConfigValue::list`. */
  function AsList(v: ConfigValue): (r: Result<seq<string>>)
    ensures r.Ok? <==> v.value.List?
    ensures r.Ok? ==> r.value == v.value.items
    ensures r.Err? ==> r.error.TypeMismatch? && r.error.expected == "list"
  {
    match v.value
    case String(_) => Err(TypeMismatch("list", "string"))
    case Table(_) => Err(TypeMismatch("list", "table"))
    case List(l) => Ok(l)
  }

  /** Exactly one of the three accessors succeeds on any value. */
  lemma AccessorsExclusive(v: ConfigValue)
    ensures AsString(v).Ok? || AsTable(v).Ok? || AsList(v).Ok?
    ensures !(AsString(v).Ok? && AsTable(v).Ok?)
    ensures !(AsString(v).Ok? && AsList(v).Ok?)
    ensures !(AsTable(v).Ok? && AsList(v).Ok?)
  {
  }

  // ---------------------------------------------------------------------------
  // Merge
  // ---------------------------------------------------------------------------

  /** The pairs that merge without error: same variant all the way down every key the two tables share. */
  predicate Compatible(a: ConfigValue, b: ConfigValue)
    decreases b
  {
    match (a.value, b.value)
    case (String(_), String(_)) => true
    case (List(_), List(_)) => true
    case (Table(x), Table(y)) => forall k :: k in x && k in y ==> Compatible(x[k], y[k])
    case _ => false
  }

  /** The value a successful merge of `b` into `a` leaves behind. */
  function Merged(a: ConfigValue, b: ConfigValue): (r: ConfigValue)
    requires Compatible(a, b)
    ensures SameKind(r.value, a.value)
    ensures r.value.List? ==> |r.value.items| == |a.value.items| + |b.value.items|
    ensures r.value.Table? ==> r.value.entries.Keys == a.value.entries.Keys + b.value.entries.Keys
    decreases b
  {
    if a.value.String? then
      ConfigValue(String(b.value.s), b.path)
    else if a.value.List? then
      ConfigValue(List(a.value.items + b.value.items), a.path + b.path)
    else
      var x, y := a.value.entries, b.value.entries;
      ConfigValue(Table(map k | k in x.Keys + y.Keys ::
                          if k in x && k in y then Merged(x[k], y[k])
                          else if k in y then y[k]
                          else x[k]),
                  a.path + b.path)
  }

  /**
   * What a table merge that stopped part-way leaves, whatever order the keys
   * were visited in: the keys lie between the old ones and the union, a key
   * only in the old table keeps its entry, a key added holds the incoming
   * entry, and every old key keeps the variant of its entry.
   */
  predicate PartialTableMerge(x: map<string, ConfigValue>, y: map<string, ConfigValue>, z: map<string, ConfigValue>) {
    && x.Keys <= z.Keys <= x.Keys + y.Keys
    && (forall k :: k in x && k !in y ==> z[k] == x[k])
    && (forall k :: k in z && k !in x ==> z[k] == y[k])
    && (forall k :: k in x ==> SameKind(z[k].value, x[k].value))
  }

  /**
   * `ConfigValue::merge`, `self` passed in and its new state passed out.
   * Strings: the incoming text and provenance replace the old. Lists: the
   * incoming elements and provenance are appended. Tables: each incoming key
   * is inserted, or merged into the existing entry; the keys are taken in an
   * unspecified order, as a `HashMap` yields them, and the first failing
   * entry ends the merge with the keys handled so far already changed.
   * Any other pair of variants is an error and changes nothing.
   */
  method Merge(self: ConfigValue, from: ConfigValue) returns (merged: ConfigValue, res: Outcome)
    ensures res.Pass? <==> Compatible(self, from)
    ensures res.Pass? ==> merged == Merged(self, from)
    ensures self.value.String? && from.value.String? ==>
              merged.value == from.value && merged.path == from.path
    ensures self.value.List? && from.value.List? ==>
              merged.value == List(self.value.items + from.value.items) && merged.path == self.path + from.path
    ensures self.value.Table? && from.value.Table? && res.Pass? ==>
              var x, y, z := self.value.entries, from.value.entries, merged.value.entries;
              && z.Keys == x.Keys + y.Keys
              && (forall k :: k in x && k !in y ==> z[k] == x[k])
              && (forall k :: k in y && k !in x ==> z[k] == y[k])
              && (forall k :: k in x && k in y ==> Compatible(x[k], y[k]) && z[k] == Merged(x[k], y[k]))
              && merged.path == self.path + from.path
    ensures SameKind(merged.value, self.value)
    ensures res.Fail? ==> res.error.TypeMismatch? && merged.path == self.path
    ensures !SameKind(self.value, from.value) ==>
              merged == self && res == Fail(TypeMismatch(Desc(self.value), Desc(from.value)))
    ensures res.Fail? && self.value.Table? && from.value.Table? ==>
              PartialTableMerge(self.value.entries, from.value.entries, merged.value.entries)
    decreases from
  {
    match (self.value, from.value) {
      case (String(_), String(s)) =>
        merged, res := ConfigValue(String(s), from.path), Pass;
      case (List(xs), List(ys)) =>
        merged, res := ConfigValue(List(xs + ys), self.path + from.path), Pass;
      case (Table(existing), Table(incoming)) =>
        var table := existing;
        var pending := incoming.Keys;
        while pending != {}
          invariant pending <= incoming.Keys
          invariant table.Keys == existing.Keys + (incoming.Keys - pending)
          invariant forall k :: k in existing && (k in pending || k !in incoming) ==> table[k] == existing[k]
          invariant forall k :: k in incoming && k !in pending && k in existing ==>
                      Compatible(existing[k], incoming[k]) && table[k] == Merged(existing[k], incoming[k])
          invariant forall k :: k in incoming && k !in pending && k !in existing ==> table[k] == incoming[k]
          decreases pending
        {
          var k :| k in pending;
          if k in table {
            var m, r := Merge(table[k], incoming[k]);
            if r.Fail? {
              FailedEntryLeavesPartial(existing, incoming, table, pending, k, m);
              merged, res := ConfigValue(Table(table[k := m]), self.path), r;
              return;
            }
            table := table[k := m];
          } else {
            table := table[k := incoming[k]];
          }
          pending := pending - {k};
        }
        merged, res := ConfigValue(Table(table), self.path + from.path), Pass;
        assert Compatible(self, from);
        assert merged.value.entries == Merged(self, from).value.entries;
      case _ =>
        merged, res := self, Fail(TypeMismatch(Desc(self.value), Desc(from.value)));
    }
  }

  /**
   * A table merge that stops at the entry `k`, with `m` (of the old entry's
   * variant) stored there, leaves a `PartialTableMerge`.
   */
  lemma FailedEntryLeavesPartial(existing: map<string, ConfigValue>, incoming: map<string, ConfigValue>,
                                 table: map<string, ConfigValue>, pending: set<string>, k: string, m: ConfigValue)
    requires pending <= incoming.Keys
    requires table.Keys == existing.Keys + (incoming.Keys - pending)
    requires forall j :: j in existing && (j in pending || j !in incoming) ==> table[j] == existing[j]
    requires forall j :: j in incoming && j !in pending && j in existing ==>
               Compatible(existing[j], incoming[j]) && table[j] == Merged(existing[j], incoming[j])
    requires forall j :: j in incoming && j !in pending && j !in existing ==> table[j] == incoming[j]
    requires k in pending && k in existing && SameKind(m.value, existing[k].value)
    ensures PartialTableMerge(existing, incoming, table[k := m])
  {
    var z := table[k := m];
    forall j | j in existing ensures SameKind(z[j].value, existing[j].value) {
      if j != k && j in incoming && j !in pending {
        assert z[j] == Merged(existing[j], incoming[j]);
      }
    }
  }

  /** Every value merges with itself. */
  lemma {:induction false} CompatibleWithItself(v: ConfigValue)
    ensures Compatible(v, v)
  {
    match v.value
    case String(_) =>
    case List(_) =>
    case Table(m) =>
      forall k | k in m ensures Compatible(m[k], m[k]) {
        CompatibleWithItself(m[k]);
      }
  }

  /** `v` holds no list at any depth. */
  predicate NoLists(v: ConfigValue) {
    match v.value
    case String(_) => true
    case List(_) => false
    case Table(m) => forall k :: k in m ==> NoLists(m[k])
  }

  /** `v` with every provenance list emptied: the value alone. */
  function Strip(v: ConfigValue): ConfigValue {
    match v.value
    case String(s) => ConfigValue(String(s), [])
    case List(items) => ConfigValue(List(items), [])
    case Table(m) => ConfigValue(Table(map k | k in m :: Strip(m[k])), [])
  }

  /**
   * Merging a value into itself changes no string and no table shape when
   * the value holds no list (a list would be doubled); the provenance of a
   * table is doubled, so provenance is cumulative, not idempotent.
   */
  lemma {:induction false} MergeWithItself(v: ConfigValue)
    requires NoLists(v)
    ensures Compatible(v, v)
    ensures Strip(Merged(v, v)) == Strip(v)
    ensures v.value.Table? ==> Merged(v, v).path == v.path + v.path
  {
    CompatibleWithItself(v);
    match v.value
    case String(_) =>
    case Table(m) =>
      var z := Merged(v, v).value.entries;
      forall k | k in m ensures Strip(z[k]) == Strip(m[k]) {
        MergeWithItself(m[k]);
      }
      assert (map k | k in z :: Strip(z[k])) == (map k | k in m :: Strip(m[k]));
  }

  /** The empty table is a left identity of merge on tables: the start of the `all_configs` fold. */
  lemma EmptyTableMergesTo(v: ConfigValue)
    requires v.value.Table?
    ensures Compatible(EmptyTable(), v)
    ensures Merged(EmptyTable(), v) == v
  {
    assert Merged(EmptyTable(), v).value.entries == v.value.entries;
  }

  /** `ConfigValue::new` is a left identity of merge on lists. */
  lemma NewMergesTo(v: ConfigValue)
    requires v.value.List?
    ensures Compatible(New(), v)
    ensures Merged(New(), v) == v
  {
  }
}
