/** Deterministic expansion of a validated matrix specification. */
module Matrix {
  import opened Common
  import opened Ordering

  type Combo = map<string, string>

  const MATRIX_MAX_UNITS: nat := 1000

  const MATRIX_MAX_COMMAND_BYTES: nat := 1024 * 1024

  datatype Axis = Axis(name: string, values: seq<string>)

  /** One unit rule; an option it does not mention is None. */
  datatype Rule = Rule(pattern: Combo, gpus: Option<nat>, maxHours: Option<real>)

  datatype Options = Options(gpus: nat, maxHours: Option<real>)

  datatype Spec = Spec(
    axes: seq<Axis>,
    includes: seq<Combo>,
    excludes: seq<Combo>,
    rules: seq<Rule>,
    defaults: Options,
    // the size of the command rendered for a unit, if the template renders at all
    size: Combo -> Option<nat>)

  datatype MatrixUnit = MatrixUnit(index: nat, key: string, values: Combo, options: Options)

  datatype Result = Units(units: seq<MatrixUnit>) | NeedsAxes | GridTooLarge | NoUnits | TooManyUnits | DuplicateKey
                  | BadCommand | CommandsTooLong

  // ---------- the grid ----------

  /** The values of the axis called name. */
  function ValuesOf(axes: seq<Axis>, name: string): seq<string> {
    if axes == [] then []
    else if axes[0].name == name then axes[0].values
    else ValuesOf(axes[1..], name)
  }

  function With(combos: seq<Combo>, name: string, value: string): (r: seq<Combo>)
    ensures |r| == |combos| && forall i | 0 <= i < |combos| :: r[i] == combos[i][name := value]
  {
    seq(|combos|, i requires 0 <= i < |combos| => combos[i][name := value])
  }

  function Across(combos: seq<Combo>, name: string, values: seq<string>): seq<Combo> {
    if values == [] then [] else With(combos, name, values[0]) + Across(combos, name, values[1..])
  }

  /** `itertools.product` over the named axes. */
  function Product(axes: seq<Axis>, names: seq<string>): seq<Combo> {
    if names == [] then [map[]] else Across(Product(axes, names[1..]), names[0], ValuesOf(axes, names[0]))
  }

  function GridSize(axes: seq<Axis>, names: seq<string>): nat {
    if names == [] then 1 else |ValuesOf(axes, names[0])| * GridSize(axes, names[1..])
  }

  /** A grid cell: one value of each named axis. */
  ghost predicate Cell(axes: seq<Axis>, names: seq<string>, m: Combo) {
    && (forall n :: n in m <==> n in names)
    && (forall n | n in names :: m[n] in ValuesOf(axes, n))
  }

  lemma {:induction false} AcrossSound(combos: seq<Combo>, name: string, values: seq<string>, m: Combo)
    requires m in Across(combos, name, values)
    ensures name in m && m[name] in values && exists c :: c in combos && m == c[name := m[name]]
  {
    var first := With(combos, name, values[0]);
    if m in first {
      var i :| 0 <= i < |first| && first[i] == m;
      assert combos[i] in combos;
    } else {
      AcrossSound(combos, name, values[1..], m);
    }
  }

  lemma {:induction false} AcrossComplete(combos: seq<Combo>, name: string, values: seq<string>, c: Combo, v: string)
    requires c in combos && v in values
    ensures c[name := v] in Across(combos, name, values)
  {
    if v == values[0] {
      var i :| 0 <= i < |combos| && combos[i] == c;
      assert With(combos, name, v)[i] == c[name := v];
    } else {
      AcrossComplete(combos, name, values[1..], c, v);
    }
  }

  lemma {:induction false} AcrossLength(combos: seq<Combo>, name: string, values: seq<string>)
    ensures |Across(combos, name, values)| == |values| * |combos|
  {
    if values != [] {
      AcrossLength(combos, name, values[1..]);
      assert (|values| - 1) * |combos| + |combos| == |values| * |combos|;
    }
  }

  lemma WithDistinct(combos: seq<Combo>, name: string, value: string)
    requires Distinct(combos) && forall c | c in combos :: name !in c
    ensures Distinct(With(combos, name, value))
  {
    var r := With(combos, name, value);
    forall i, k | 0 <= i < k < |r| ensures r[i] != r[k] {
      assert combos[i] in combos && combos[k] in combos;
      assert r[i] - {name} == combos[i] && r[k] - {name} == combos[k];
    }
  }

  lemma {:induction false} AcrossDistinct(combos: seq<Combo>, name: string, values: seq<string>)
    requires Distinct(combos) && Distinct(values) && forall c | c in combos :: name !in c
    ensures Distinct(Across(combos, name, values))
  {
    if values != [] {
      var first, rest := With(combos, name, values[0]), Across(combos, name, values[1..]);
      WithDistinct(combos, name, values[0]);
      AcrossDistinct(combos, name, values[1..]);
      forall i, k | 0 <= i < |first| && 0 <= k < |rest| ensures first[i] != rest[k] {
        assert rest[k] in rest;
        AcrossSound(combos, name, values[1..], rest[k]);
        assert first[i][name] == values[0];
      }
    }
  }

  /** The product is the grid: each cell once, and as many as the sizes multiply to. */
  lemma {:induction false} ProductIsGrid(axes: seq<Axis>, names: seq<string>)
    requires Distinct(names)
    requires forall n :: Distinct(ValuesOf(axes, n))
    ensures forall m :: m in Product(axes, names) <==> Cell(axes, names, m)
    ensures Distinct(Product(axes, names)) && |Product(axes, names)| == GridSize(axes, names)
  {
    if names == [] {
      forall m ensures m in Product(axes, names) <==> Cell(axes, names, m) {
        assert Cell(axes, names, m) ==> m == map[];
      }
    } else {
      var name, inner, values := names[0], Product(axes, names[1..]), ValuesOf(axes, names[0]);
      ProductIsGrid(axes, names[1..]);
      AcrossLength(inner, name, values);
      forall c | c in inner ensures name !in c {
        assert Cell(axes, names[1..], c);
      }
      AcrossDistinct(inner, name, values);
      forall m ensures m in Product(axes, names) <==> Cell(axes, names, m) {
        ProductStep(axes, names, m);
      }
    }
  }

  lemma ProductStep(axes: seq<Axis>, names: seq<string>, m: Combo)
    requires Distinct(names) && names != []
    requires forall c :: c in Product(axes, names[1..]) <==> Cell(axes, names[1..], c)
    ensures m in Product(axes, names) <==> Cell(axes, names, m)
  {
    hide Across, ValuesOf;
    var name, inner, values := names[0], Product(axes, names[1..]), ValuesOf(axes, names[0]);
    if m in Across(inner, name, values) {
      AcrossSound(inner, name, values, m);
      var c :| c in inner && m == c[name := m[name]];
      CellGrows(axes, names, c, m);
    }
    if Cell(axes, names, m) {
      var c := m - {name};
      CellShrinks(axes, names, m);
      AcrossComplete(inner, name, values, c, m[name]);
      assert c[name := m[name]] == m;
    }
  }

  lemma CellGrows(axes: seq<Axis>, names: seq<string>, c: Combo, m: Combo)
    requires names != [] && Cell(axes, names[1..], c)
    requires names[0] in m && m[names[0]] in ValuesOf(axes, names[0]) && m == c[names[0] := m[names[0]]]
    ensures Cell(axes, names, m)
  {
    hide ValuesOf;
    assert names == [names[0]] + names[1..];
  }

  lemma CellShrinks(axes: seq<Axis>, names: seq<string>, m: Combo)
    requires Distinct(names) && names != [] && Cell(axes, names, m)
    ensures names[0] in m && m[names[0]] in ValuesOf(axes, names[0]) && Cell(axes, names[1..], m - {names[0]})
  {
    hide ValuesOf;
    assert names[0] in names;
    forall n ensures n in names[1..] <==> n in names && n != names[0] {
      assert names == [names[0]] + names[1..];
      if n in names[1..] {
        var i :| 0 <= i < |names[1..]| && names[1..][i] == n;
        assert names[i + 1] == n;
      }
    }
  }

  // ---------- keys and options ----------

  /** `name=value` pairs joined by commas. */
  function Joined(names: seq<string>, values: Combo): string
    requires forall n | n in names :: n in values
  {
    if names == [] then []
    else if |names| == 1 then names[0] + "=" + values[names[0]]
    else names[0] + "=" + values[names[0]] + "," + Joined(names[1..], values)
  }

  function UnitKey(values: Combo): string {
    SortedMeans(values.Keys);
    Joined(Sorted(values.Keys), values)
  }

  predicate Matches(pattern: Combo, values: Combo) {
    forall n | n in pattern :: n in values && values[n] == pattern[n]
  }

  function Override(rule: Rule, base: Options): Options {
    Options(if rule.gpus.Some? then rule.gpus.value else base.gpus,
            if rule.maxHours.Some? then rule.maxHours else base.maxHours)
  }

  /** The rules in order, each merged over what the earlier ones left. */
  function UnitOptions(rules: seq<Rule>, values: Combo, base: Options): Options {
    if rules == [] then base
    else UnitOptions(rules[1..], values, if Matches(rules[0].pattern, values) then Override(rules[0], base) else base)
  }

  ghost predicate SetsGpus(rules: seq<Rule>, values: Combo, k: int) {
    0 <= k < |rules| && Matches(rules[k].pattern, values) && rules[k].gpus.Some?
  }

  ghost predicate SetsHours(rules: seq<Rule>, values: Combo, k: int) {
    0 <= k < |rules| && Matches(rules[k].pattern, values) && rules[k].maxHours.Some?
  }

  ghost predicate LastSetsGpus(rules: seq<Rule>, values: Combo, k: int) {
    SetsGpus(rules, values, k) && forall j | k < j :: !SetsGpus(rules, values, j)
  }

  ghost predicate LastSetsHours(rules: seq<Rule>, values: Combo, k: int) {
    SetsHours(rules, values, k) && forall j | k < j :: !SetsHours(rules, values, j)
  }

  /** Each option comes from the last matching rule that sets it, or is the default. */
  lemma LastMatchingRuleWins(rules: seq<Rule>, values: Combo, base: Options)
    ensures forall k | LastSetsGpus(rules, values, k) :: UnitOptions(rules, values, base).gpus == rules[k].gpus.value
    ensures (forall k :: !SetsGpus(rules, values, k)) ==> UnitOptions(rules, values, base).gpus == base.gpus
    ensures forall k | LastSetsHours(rules, values, k) :: UnitOptions(rules, values, base).maxHours == rules[k].maxHours
    ensures (forall k :: !SetsHours(rules, values, k)) ==> UnitOptions(rules, values, base).maxHours == base.maxHours
  {
    GpusFromLastRule(rules, values, base);
    HoursFromLastRule(rules, values, base);
  }

  lemma {:induction false} GpusFromLastRule(rules: seq<Rule>, values: Combo, base: Options)
    ensures forall k | LastSetsGpus(rules, values, k) :: UnitOptions(rules, values, base).gpus == rules[k].gpus.value
    ensures (forall k :: !SetsGpus(rules, values, k)) ==> UnitOptions(rules, values, base).gpus == base.gpus
  {
    if rules != [] {
      var rest, next := rules[1..], if Matches(rules[0].pattern, values) then Override(rules[0], base) else base;
      GpusFromLastRule(rest, values, next);
      assert forall j :: SetsGpus(rest, values, j) ==> SetsGpus(rules, values, j + 1);
      forall k | LastSetsGpus(rules, values, k) ensures UnitOptions(rest, values, next).gpus == rules[k].gpus.value {
        if k > 0 {
          assert forall j | j >= 0 :: SetsGpus(rest, values, j) <==> SetsGpus(rules, values, j + 1);
          assert LastSetsGpus(rest, values, k - 1);
        }
      }
      assert !SetsGpus(rules, values, 0) ==> next.gpus == base.gpus;
    }
  }

  lemma {:induction false} HoursFromLastRule(rules: seq<Rule>, values: Combo, base: Options)
    ensures forall k | LastSetsHours(rules, values, k) :: UnitOptions(rules, values, base).maxHours == rules[k].maxHours
    ensures (forall k :: !SetsHours(rules, values, k)) ==> UnitOptions(rules, values, base).maxHours == base.maxHours
  {
    if rules != [] {
      var rest, next := rules[1..], if Matches(rules[0].pattern, values) then Override(rules[0], base) else base;
      HoursFromLastRule(rest, values, next);
      assert forall j :: SetsHours(rest, values, j) ==> SetsHours(rules, values, j + 1);
      forall k | LastSetsHours(rules, values, k) ensures UnitOptions(rest, values, next).maxHours == rules[k].maxHours {
        if k > 0 {
          assert forall j | j >= 0 :: SetsHours(rest, values, j) <==> SetsHours(rules, values, j + 1);
          assert LastSetsHours(rest, values, k - 1);
        }
      }
      assert !SetsHours(rules, values, 0) ==> next.maxHours == base.maxHours;
    }
  }

  // ---------- the expansion ----------

  predicate Excluded(excludes: seq<Combo>, values: Combo) {
    exists e | e in excludes :: Matches(e, values)
  }

  function Keep(excludes: seq<Combo>, combos: seq<Combo>): seq<Combo> {
    if combos == [] then []
    else (if Excluded(excludes, combos[0]) then [] else [combos[0]]) + Keep(excludes, combos[1..])
  }

  function AxisNames(spec: Spec): set<string> {
    set a | a in spec.axes :: a.name
  }

  function Grid(spec: Spec): seq<Combo> {
    if spec.axes == [] then [] else Product(spec.axes, Sorted(AxisNames(spec)))
  }

  /** Exclusions apply to the grid only; the explicit units follow. */
  function Combos(spec: Spec): seq<Combo> {
    Keep(spec.excludes, Grid(spec)) + spec.includes
  }

  /** What the validators leave: axis names and values do not repeat. */
  ghost predicate Valid(spec: Spec) {
    && (forall i, k | 0 <= i < k < |spec.axes| :: spec.axes[i].name != spec.axes[k].name)
    && (forall i | 0 <= i < |spec.axes| :: spec.axes[i].values != [] && Distinct(spec.axes[i].values))
  }

  /** Two listed units have the same key: different values with one key, or one unit twice. */
  ghost predicate KeysCollide(combos: seq<Combo>) {
    || (exists m, n :: m in multiset(combos) && n in multiset(combos) && m != n && UnitKey(m) == UnitKey(n))
    || (exists m :: multiset(combos)[m] > 1)
  }

  /** The units are the listed combinations in increasing key order, each with its
      position, its key and the options of the rules. */
  ghost predicate IsExpansion(spec: Spec, units: seq<MatrixUnit>) {
    && (forall i, k | 0 <= i < k < |units| :: Less(units[i].key, units[k].key))
    && (forall i | 0 <= i < |units| ::
          && units[i].index == i + 1
          && units[i].key == UnitKey(units[i].values)
          && units[i].options == UnitOptions(spec.rules, units[i].values, spec.defaults)
          && units[i].values in Combos(spec))
    && (forall m | m in Combos(spec) :: exists i :: 0 <= i < |units| && units[i].values == m)
    && |units| == |Combos(spec)|
  }

  ghost predicate Unrendered(spec: Spec) {
    exists m :: m in Combos(spec) && spec.size(m).None?
  }

  /** The commands of the units together. */
  function CommandBytes(spec: Spec, units: seq<MatrixUnit>): nat {
    if units == [] then 0
    else
      var size := spec.size(units[|units| - 1].values);
      CommandBytes(spec, units[..|units| - 1]) + if size.Some? then size.value else 0
  }

  ghost predicate TooLong(spec: Spec, units: seq<MatrixUnit>) {
    IsExpansion(spec, units) && CommandBytes(spec, units) > MATRIX_MAX_COMMAND_BYTES
  }

  /** What expanding a specification gives, errors included. */
  ghost predicate Expands(spec: Spec, r: Result) {
    if spec.axes == [] && spec.includes == [] then r == NeedsAxes
    else if GridSize(spec.axes, Sorted(AxisNames(spec))) > MATRIX_MAX_UNITS && spec.axes != [] then r == GridTooLarge
    else if Combos(spec) == [] then r == NoUnits
    else if |Combos(spec)| > MATRIX_MAX_UNITS then r == TooManyUnits
    else if KeysCollide(Combos(spec)) then r == DuplicateKey
    else if Unrendered(spec) then r == BadCommand
    else if exists units :: TooLong(spec, units) then r == CommandsTooLong
    else r.Units? && IsExpansion(spec, r.units)
  }

  lemma {:induction false} KeepMembers(excludes: seq<Combo>, combos: seq<Combo>, m: Combo)
    ensures m in Keep(excludes, combos) <==> m in combos && !Excluded(excludes, m)
  {
    if combos != [] {
      KeepMembers(excludes, combos[1..], m);
      assert combos == [combos[0]] + combos[1..];
    }
  }

  lemma {:induction false} KeepDistinct(excludes: seq<Combo>, combos: seq<Combo>)
    requires Distinct(combos)
    ensures Distinct(Keep(excludes, combos))
  {
    if combos != [] {
      KeepDistinct(excludes, combos[1..]);
      KeepMembers(excludes, combos[1..], combos[0]);
      assert combos[0] !in combos[1..];
    }
  }

  /** The excluded cells, to count them. */
  function Dropped(excludes: seq<Combo>, combos: seq<Combo>): seq<Combo> {
    if combos == [] then []
    else (if Excluded(excludes, combos[0]) then [combos[0]] else []) + Dropped(excludes, combos[1..])
  }

  lemma {:induction false} KeptAndDropped(excludes: seq<Combo>, combos: seq<Combo>)
    ensures |Keep(excludes, combos)| + |Dropped(excludes, combos)| == |combos|
    ensures forall m :: m in Dropped(excludes, combos) <==> m in combos && Excluded(excludes, m)
  {
    if combos != [] {
      KeptAndDropped(excludes, combos[1..]);
      assert combos == [combos[0]] + combos[1..];
    }
  }

  // ---------- what a pattern selects ----------

  /** An exclude removes a cell exactly when the cell has every value it names. */
  lemma ExcludesExactly(excludes: seq<Combo>, combos: seq<Combo>, m: Combo)
    requires m in combos
    ensures m !in Keep(excludes, combos) <==>
            exists p :: p in excludes && forall n | n in p :: n in m && m[n] == p[n]
  {
    KeepMembers(excludes, combos, m);
  }

  /** A rule applies to a unit exactly when the unit has every value it names. */
  lemma RuleAppliesExactly(rule: Rule, m: Combo, base: Options)
    ensures UnitOptions([rule], m, base)
            == if forall n | n in rule.pattern :: n in m && m[n] == rule.pattern[n]
               then Options(if rule.gpus.Some? then rule.gpus.value else base.gpus,
                            if rule.maxHours.Some? then rule.maxHours else base.maxHours)
               else base
  {
    assert [rule][1..] == [];
  }

  ghost predicate Compatible(p: Combo, q: Combo) {
    forall n | n in p && n in q :: p[n] == q[n]
  }

  /** Two patterns that agree, put together, select what both select, as excludes and as
      rules. */
  lemma TogetherSelectsBoth(p: Combo, q: Combo, combos: seq<Combo>, m: Combo, base: Options, gpus: nat)
    requires Compatible(p, q) && m in combos && gpus != base.gpus
    ensures m !in Keep([p + q], combos) <==> m !in Keep([p], combos) && m !in Keep([q], combos)
    ensures UnitOptions([Rule(p + q, Some(gpus), None)], m, base).gpus == gpus <==>
            && UnitOptions([Rule(p, Some(gpus), None)], m, base).gpus == gpus
            && UnitOptions([Rule(q, Some(gpus), None)], m, base).gpus == gpus
  {
    ExcludesExactly([p + q], combos, m);
    ExcludesExactly([p], combos, m);
    ExcludesExactly([q], combos, m);
    RuleAppliesExactly(Rule(p + q, Some(gpus), None), m, base);
    RuleAppliesExactly(Rule(p, Some(gpus), None), m, base);
    RuleAppliesExactly(Rule(q, Some(gpus), None), m, base);
    assert forall n :: n in p + q <==> n in p || n in q;
    assert (forall n | n in p + q :: n in m && m[n] == (p + q)[n]) <==>
           (forall n | n in p :: n in m && m[n] == p[n]) && (forall n | n in q :: n in m && m[n] == q[n]) by {
      if (forall n | n in p + q :: n in m && m[n] == (p + q)[n]) {
        forall n | n in p ensures n in m && m[n] == p[n] {
          assert n in p + q;
        }
        forall n | n in q ensures n in m && m[n] == q[n] {
          assert n in p + q;
        }
      }
    }
    hide Keep, UnitOptions;
    assert p + q in [p + q] && p in [p] && q in [q];
  }

  /** The axes a pattern leaves open. */
  function Open(names: seq<string>, p: Combo): seq<string> {
    if names == [] then []
    else (if names[0] in p then [] else [names[0]]) + Open(names[1..], p)
  }

  lemma {:induction false} OpenWithout(names: seq<string>, p: Combo, n: string)
    requires n !in names
    ensures Open(names, p - {n}) == Open(names, p)
  {
    if names != [] {
      OpenWithout(names[1..], p, n);
    }
  }

  lemma {:induction false} DroppedConcat(excludes: seq<Combo>, a: seq<Combo>, b: seq<Combo>)
    ensures Dropped(excludes, a + b) == Dropped(excludes, a) + Dropped(excludes, b)
  {
    if a == [] {
      assert a + b == b;
    } else {
      DroppedConcat(excludes, a[1..], b);
      assert (a + b)[1..] == a[1..] + b;
      hide Dropped, Excluded;
      assert Dropped(excludes, a) == (if Excluded(excludes, a[0]) then [a[0]] else []) + Dropped(excludes, a[1..]) by {
        DroppedStep(excludes, a);
      }
      DroppedStep(excludes, a + b);
    }
  }

  lemma DroppedStep(excludes: seq<Combo>, combos: seq<Combo>)
    requires combos != []
    ensures Dropped(excludes, combos) == (if Excluded(excludes, combos[0]) then [combos[0]] else []) + Dropped(excludes, combos[1..])
  {
    hide Excluded;
  }

  lemma ExcludedWith(p: Combo, c: Combo, n: string, v: string)
    requires n !in c
    ensures Excluded([p], c[n := v]) <==> (n in p ==> p[n] == v) && Excluded([p - {n}], c)
  {
    assert p in [p] && p - {n} in [p - {n}];
    var m := c[n := v];
    if n in p && p[n] == v && Matches(p - {n}, c) {
      assert Matches(p, m);
    }
    if n !in p && Matches(p - {n}, c) {
      assert p - {n} == p;
      assert Matches(p, m);
    }
    if Matches(p, m) {
      forall x | x in p - {n} ensures x in c && c[x] == p[x] {
        assert x in m;
      }
    }
  }

  lemma {:induction false} DroppedWith(p: Combo, combos: seq<Combo>, n: string, v: string)
    requires forall c | c in combos :: n !in c
    ensures |Dropped([p], With(combos, n, v))| == if n in p && p[n] != v then 0 else |Dropped([p - {n}], combos)|
  {
    if combos != [] {
      assert With(combos, n, v) == [combos[0][n := v]] + With(combos[1..], n, v);
      assert With(combos, n, v)[1..] == With(combos[1..], n, v);
      DroppedWith(p, combos[1..], n, v);
      ExcludedWith(p, combos[0], n, v);
      hide Excluded, With;
    }
  }

  /** How many of the values a pattern accepts on one axis. */
  function Accepts(p: Combo, n: string, values: seq<string>): nat {
    if n !in p then |values| else if p[n] in values then 1 else 0
  }

  lemma AcceptsStep(p: Combo, n: string, values: seq<string>)
    requires values != [] && Distinct(values)
    ensures Accepts(p, n, values) == (if n in p && p[n] != values[0] then 0 else 1) + Accepts(p, n, values[1..])
  {
    RestIsDistinct(values);
    assert values == [values[0]] + values[1..];
  }

  lemma Distribute(a: nat, b: nat, d: nat)
    ensures (a + b) * d == a * d + b * d
  {
  }

  lemma {:induction false} DroppedAcross(p: Combo, combos: seq<Combo>, n: string, values: seq<string>)
    requires Distinct(values) && forall c | c in combos :: n !in c
    ensures |Dropped([p], Across(combos, n, values))| == Accepts(p, n, values) * |Dropped([p - {n}], combos)|
  {
    if values != [] {
      var first, rest := With(combos, n, values[0]), Across(combos, n, values[1..]);
      assert Across(combos, n, values) == first + rest;
      hide Dropped, With, Across, Accepts;
      RestIsDistinct(values);
      DroppedConcat([p], first, rest);
      DroppedWith(p, combos, n, values[0]);
      DroppedAcross(p, combos, n, values[1..]);
      AcceptsStep(p, n, values);
      Distribute(if n in p && p[n] != values[0] then 0 else 1, Accepts(p, n, values[1..]), |Dropped([p - {n}], combos)|);
    }
  }

  lemma RestIsDistinct(names: seq<string>)
    requires names != [] && Distinct(names)
    ensures names[0] !in names[1..] && Distinct(names[1..])
  {
    forall i | 0 <= i < |names| - 1 ensures names[1..][i] != names[0] {
      assert names[i + 1] != names[0];
    }
  }

  lemma RestLacks(axes: seq<Axis>, names: seq<string>, c: Combo)
    requires names != [] && Distinct(names) && (forall n :: Distinct(ValuesOf(axes, n))) && c in Product(axes, names[1..])
    ensures names[0] !in c
  {
    RestIsDistinct(names);
    ProductIsGrid(axes, names[1..]);
    assert Cell(axes, names[1..], c);
    hide Product, ValuesOf;
  }

  lemma DroppedFromProduct(axes: seq<Axis>, names: seq<string>, p: Combo)
    requires names != [] && Distinct(names) && forall n :: Distinct(ValuesOf(axes, n))
    ensures |Dropped([p], Product(axes, names))|
            == Accepts(p, names[0], ValuesOf(axes, names[0])) * |Dropped([p - {names[0]}], Product(axes, names[1..]))|
  {
    hide ValuesOf, Dropped, Accepts, Across;
    forall c | c in Product(axes, names[1..]) ensures names[0] !in c {
      RestLacks(axes, names, c);
    }
    DroppedAcross(p, Product(axes, names[1..]), names[0], ValuesOf(axes, names[0]));
  }

  lemma NothingNamed(p: Combo)
    requires p == map[]
    ensures |Dropped([p], [map[]])| == 1
  {
    assert p in [p] && Matches(p, map[]);
    var whole: seq<Combo> := [map[]];
    assert whole[1..] == [];
  }

  lemma GridStep(axes: seq<Axis>, n: string, rest: seq<string>)
    ensures GridSize(axes, [n] + rest) == |ValuesOf(axes, n)| * GridSize(axes, rest)
  {
    assert ([n] + rest)[1..] == rest;
  }

  lemma OpenSizes(axes: seq<Axis>, names: seq<string>, p: Combo)
    requires names != []
    ensures GridSize(axes, Open(names, p))
            == (if names[0] in p then 1 else |ValuesOf(axes, names[0])|) * GridSize(axes, Open(names[1..], p))
  {
    hide GridSize, ValuesOf;
    var rest := Open(names[1..], p);
    if names[0] in p {
      assert Open(names, p) == rest;
    } else {
      assert Open(names, p) == [names[0]] + rest;
      GridStep(axes, names[0], rest);
    }
  }

  /** An exclude that names values of some axes removes as many cells as the sizes of the
      other axes multiply to: one, when it names them all. */
  lemma {:induction false} ExcludedCount(axes: seq<Axis>, names: seq<string>, p: Combo)
    requires Distinct(names) && forall n :: Distinct(ValuesOf(axes, n))
    requires forall n | n in p :: n in names && p[n] in ValuesOf(axes, n)
    ensures |Dropped([p], Product(axes, names))| == GridSize(axes, Open(names, p))
  {
    if names == [] {
      assert p == map[];
      NothingNamed(p);
    } else {
      hide Dropped, Product, ValuesOf, Open, GridSize;
      RestIsDistinct(names);
      hide Distinct;
      DroppedFromProduct(axes, names, p);
      OpenSizes(axes, names, p);
      assert names == [names[0]] + names[1..];
      ExcludedCount(axes, names[1..], p - {names[0]});
      OpenWithout(names[1..], p, names[0]);
    }
  }

  lemma OnlyItselfMatches(p: Combo, m: Combo)
    requires m.Keys == p.Keys
    ensures (forall n | n in p :: n in m && m[n] == p[n]) <==> m == p
  {
  }

  lemma InGrid(spec: Spec, m: Combo)
    requires Valid(spec) && spec.axes != [] && m in Grid(spec)
    ensures m.Keys == AxisNames(spec)
  {
    var names := Sorted(AxisNames(spec));
    NamesAreDistinct(spec);
    SortedMeans(AxisNames(spec));
    hide Valid, ValuesOf, Distinct;
    ProductIsGrid(spec.axes, names);
    assert Cell(spec.axes, names, m);
    hide Product;
  }

  lemma KeepsAllButItself(spec: Spec, p: Combo, m: Combo)
    requires Valid(spec) && spec.axes != [] && spec.excludes == [p] && m in Grid(spec) && p.Keys == AxisNames(spec)
    ensures m !in Keep(spec.excludes, Grid(spec)) <==> m == p
  {
    hide Valid, Grid, Keep;
    InGrid(spec, m);
    ExcludesExactly(spec.excludes, Grid(spec), m);
    OnlyItselfMatches(p, m);
    assert p in spec.excludes;
  }

  /** In terms of a specification: one exclude leaves the grid without those cells, and one
      that names every axis removes just its own cell. */
  lemma OneExcludeRemoves(spec: Spec, p: Combo)
    requires Valid(spec) && spec.axes != [] && spec.excludes == [p]
    requires forall n | n in p :: n in AxisNames(spec) && p[n] in ValuesOf(spec.axes, n)
    ensures |Combos(spec)| + GridSize(spec.axes, Open(Sorted(AxisNames(spec)), p))
            == GridSize(spec.axes, Sorted(AxisNames(spec))) + |spec.includes|
    ensures p.Keys == AxisNames(spec) ==>
              forall m | m in Grid(spec) :: m !in Keep(spec.excludes, Grid(spec)) <==> m == p
  {
    hide Valid, Keep, Dropped, Product, ValuesOf, GridSize, Open, Excluded;
    var names := Sorted(AxisNames(spec));
    NamesAreDistinct(spec);
    SortedMeans(AxisNames(spec));
    ExcludedCount(spec.axes, names, p);
    ProductIsGrid(spec.axes, names);
    hide Cell, Distinct;
    KeptAndDropped([p], Product(spec.axes, names));
    if p.Keys == AxisNames(spec) {
      forall m | m in Grid(spec) ensures m !in Keep(spec.excludes, Grid(spec)) <==> m == p {
        KeepsAllButItself(spec, p, m);
      }
    }
  }

  lemma NamesAreDistinct(spec: Spec)
    requires Valid(spec)
    ensures Distinct(Sorted(AxisNames(spec))) && forall n :: Distinct(ValuesOf(spec.axes, n))
  {
    SortedMeans(AxisNames(spec));
    var s := Sorted(AxisNames(spec));
    forall i, k | 0 <= i < k < |s| ensures s[i] != s[k] {
      LessTotal(s[i], s[k]);
    }
    forall n ensures Distinct(ValuesOf(spec.axes, n)) {
      AxisValuesDistinct(spec.axes, n);
    }
  }

  lemma {:induction false} AxisValuesDistinct(axes: seq<Axis>, n: string)
    requires forall i | 0 <= i < |axes| :: Distinct(axes[i].values)
    ensures Distinct(ValuesOf(axes, n))
  {
    if axes != [] && axes[0].name != n {
      AxisValuesDistinct(axes[1..], n);
    }
  }

  /** The unit count: the whole grid, less the excluded cells, plus the explicit units. */
  lemma UnitCount(spec: Spec)
    requires Valid(spec) && spec.axes != []
    ensures |Combos(spec)| + |Dropped(spec.excludes, Grid(spec))|
            == GridSize(spec.axes, Sorted(AxisNames(spec))) + |spec.includes|
    ensures Distinct(Grid(spec)) && forall m :: m in Dropped(spec.excludes, Grid(spec)) <==>
              Cell(spec.axes, Sorted(AxisNames(spec)), m) && Excluded(spec.excludes, m)
  {
    NamesAreDistinct(spec);
    ProductIsGrid(spec.axes, Sorted(AxisNames(spec)));
    KeptAndDropped(spec.excludes, Grid(spec));
  }

  // ---------- order does not matter ----------

  /** Same axes, values, includes and excludes, in any order; rules keep theirs. */
  ghost predicate Same(s1: Spec, s2: Spec) {
    && AxisNames(s1) == AxisNames(s2)
    && (forall n :: multiset(ValuesOf(s1.axes, n)) == multiset(ValuesOf(s2.axes, n)))
    && multiset(s1.includes) == multiset(s2.includes)
    && multiset(s1.excludes) == multiset(s2.excludes)
    && s1.rules == s2.rules && s1.defaults == s2.defaults && s1.size == s2.size
  }

  lemma {:induction false} SameGridSize(a1: seq<Axis>, a2: seq<Axis>, names: seq<string>)
    requires forall n :: multiset(ValuesOf(a1, n)) == multiset(ValuesOf(a2, n))
    ensures GridSize(a1, names) == GridSize(a2, names)
  {
    if names != [] {
      SameGridSize(a1, a2, names[1..]);
      SameLength(ValuesOf(a1, names[0]), ValuesOf(a2, names[0]));
    }
  }

  lemma SameCombos(s1: Spec, s2: Spec)
    requires Valid(s1) && Valid(s2) && Same(s1, s2) && (s1.axes == [] <==> s2.axes == [])
    ensures multiset(Combos(s1)) == multiset(Combos(s2))
  {
    var names := Sorted(AxisNames(s1));
    NamesAreDistinct(s1);
    NamesAreDistinct(s2);
    ProductIsGrid(s1.axes, names);
    ProductIsGrid(s2.axes, names);
    var k1, k2 := Keep(s1.excludes, Grid(s1)), Keep(s2.excludes, Grid(s2));
    KeepDistinct(s1.excludes, Grid(s1));
    KeepDistinct(s2.excludes, Grid(s2));
    SameLength(s1.excludes, s2.excludes);
    forall m ensures m in k1 <==> m in k2 {
      KeepMembers(s1.excludes, Grid(s1), m);
      KeepMembers(s2.excludes, Grid(s2), m);
      SameCell(s1.axes, s2.axes, names, m);
    }
    SameMembersSameMultiset(k1, k2);
    assert multiset(Combos(s1)) == multiset(k1) + multiset(s1.includes);
    assert multiset(Combos(s2)) == multiset(k2) + multiset(s2.includes);
  }

  lemma SameCell(a1: seq<Axis>, a2: seq<Axis>, names: seq<string>, m: Combo)
    requires forall n :: multiset(ValuesOf(a1, n)) == multiset(ValuesOf(a2, n))
    ensures Cell(a1, names, m) <==> Cell(a2, names, m)
  {
    forall n ensures forall v :: v in ValuesOf(a1, n) <==> v in ValuesOf(a2, n) {
      SameLength(ValuesOf(a1, n), ValuesOf(a2, n));
    }
  }

  function Keys(units: seq<MatrixUnit>): (r: seq<string>)
    ensures |r| == |units| && forall i | 0 <= i < |units| :: r[i] == units[i].key
  {
    seq(|units|, i requires 0 <= i < |units| => units[i].key)
  }

  lemma KeyMembers(units: seq<MatrixUnit>, x: string)
    ensures x in Keys(units) <==> exists i :: 0 <= i < |units| && units[i].key == x
  {
    if x in Keys(units) {
      var i :| 0 <= i < |units| && Keys(units)[i] == x;
      assert units[i].key == x;
    }
    if exists i :: 0 <= i < |units| && units[i].key == x {
      var i :| 0 <= i < |units| && units[i].key == x;
      assert Keys(units)[i] == x;
    }
  }

  lemma KeysAgree(s1: Spec, s2: Spec, u1: seq<MatrixUnit>, u2: seq<MatrixUnit>)
    requires IsExpansion(s1, u1) && IsExpansion(s2, u2)
    requires forall m :: m in Combos(s1) <==> m in Combos(s2)
    ensures Keys(u1) == Keys(u2)
  {
    assert Increasing(Keys(u1)) && Increasing(Keys(u2));
    hide Combos, UnitKey, UnitOptions, Less, Increasing;
    forall x ensures x in Keys(u1) <==> x in Keys(u2) {
      KeyCarriesOver(s1, s2, u1, u2, x);
      KeyCarriesOver(s2, s1, u2, u1, x);
      KeyMembers(u1, x);
      KeyMembers(u2, x);
    }
    IncreasingIsUnique(Keys(u1), Keys(u2));
  }

  lemma UnitAt(s: Spec, units: seq<MatrixUnit>, i: nat, j: nat)
    requires IsExpansion(s, units) && i < |units| && j < |units| && units[i].key == units[j].key
    ensures i == j
  {
    LessTotal(units[i].key, units[j].key);
  }

  lemma ExpansionIsUnique(s1: Spec, s2: Spec, u1: seq<MatrixUnit>, u2: seq<MatrixUnit>)
    requires IsExpansion(s1, u1) && IsExpansion(s2, u2) && s1.rules == s2.rules && s1.defaults == s2.defaults
    requires forall m :: m in Combos(s1) <==> m in Combos(s2)
    ensures u1 == u2
  {
    hide Combos, UnitKey, UnitOptions, Less;
    KeysAgree(s1, s2, u1, u2);
    assert |u1| == |Keys(u1)| == |u2|;
    forall i | 0 <= i < |u1| ensures u1[i] == u2[i] {
      assert Keys(u1)[i] == Keys(u2)[i];
      var m := u1[i].values;
      assert m in Combos(s2);
      var j :| 0 <= j < |u2| && u2[j].values == m;
      UnitAt(s2, u2, i, j);
    }
  }

  lemma KeyCarriesOver(s1: Spec, s2: Spec, u1: seq<MatrixUnit>, u2: seq<MatrixUnit>, x: string)
    requires IsExpansion(s1, u1) && IsExpansion(s2, u2)
    requires forall m :: m in Combos(s1) <==> m in Combos(s2)
    ensures (exists i :: 0 <= i < |u1| && u1[i].key == x) ==> exists i :: 0 <= i < |u2| && u2[i].key == x
  {
    hide Combos, UnitOptions, Less;
    if i :| 0 <= i < |u1| && u1[i].key == x {
      assert u1[i].values in Combos(s1);
      assert u1[i].values in Combos(s2);
      var j :| 0 <= j < |u2| && u2[j].values == u1[i].values;
      assert u2[j].key == x;
    }
  }

  lemma SameCollisions(c1: seq<Combo>, c2: seq<Combo>)
    requires multiset(c1) == multiset(c2)
    ensures KeysCollide(c1) <==> KeysCollide(c2)
  {
  }

  /** Expansion does not depend on the order of axes, axis values, includes or excludes:
      neither the units, nor which error it ends in. */
  lemma ExpansionIgnoresOrder(s1: Spec, s2: Spec, r1: Result, r2: Result)
    requires Valid(s1) && Valid(s2) && Same(s1, s2) && Expands(s1, r1) && Expands(s2, r2)
    ensures r1 == r2
  {
    hide GridSize, Combos, KeysCollide, IsExpansion, Valid;
    NoAxes(s1);
    NoAxes(s2);
    SameLength(s1.includes, s2.includes);
    SameGridSize(s1.axes, s2.axes, Sorted(AxisNames(s1)));
    SameCombos(s1, s2);
    SameLength(Combos(s1), Combos(s2));
    SameCollisions(Combos(s1), Combos(s2));
    SameCommands(s1, s2);
    if r1.Units? && r2.Units? {
      ExpansionIsUnique(s1, s2, r1.units, r2.units);
    }
  }

  lemma SameCommands(s1: Spec, s2: Spec)
    requires multiset(Combos(s1)) == multiset(Combos(s2)) && s1.size == s2.size
    requires s1.rules == s2.rules && s1.defaults == s2.defaults
    ensures Unrendered(s1) <==> Unrendered(s2)
    ensures (exists units :: TooLong(s1, units)) <==> exists units :: TooLong(s2, units)
  {
    hide Combos;
    forall m ensures m in Combos(s1) <==> m in Combos(s2) {
      assert m in multiset(Combos(s1)) <==> m in multiset(Combos(s2));
    }
    SameLength(Combos(s1), Combos(s2));
    hide IsExpansion;
    forall units ensures TooLong(s1, units) <==> TooLong(s2, units) {
      SameExpansion(s1, s2, units);
      SameBytes(s1, s2, units);
    }
  }

  lemma SameExpansion(s1: Spec, s2: Spec, units: seq<MatrixUnit>)
    requires (forall m :: m in Combos(s1) <==> m in Combos(s2)) && |Combos(s1)| == |Combos(s2)|
    requires s1.rules == s2.rules && s1.defaults == s2.defaults
    ensures IsExpansion(s1, units) <==> IsExpansion(s2, units)
  {
    hide Combos, UnitKey, UnitOptions, Less;
  }

  lemma {:induction false} SameBytes(s1: Spec, s2: Spec, units: seq<MatrixUnit>)
    requires s1.size == s2.size
    ensures CommandBytes(s1, units) == CommandBytes(s2, units)
  {
    if units != [] {
      SameBytes(s1, s2, units[..|units| - 1]);
    }
  }

  lemma NoAxes(spec: Spec)
    ensures spec.axes == [] <==> AxisNames(spec) == {}
  {
    if spec.axes != [] {
      assert spec.axes[0] in spec.axes;
      assert spec.axes[0].name in AxisNames(spec);
    }
  }

  // ---------- the loader's loops ----------

  ghost predicate DistinctKeys(combos: seq<Combo>) {
    forall i, k | 0 <= i < k < |combos| :: UnitKey(combos[i]) != UnitKey(combos[k])
  }

  lemma {:induction false} CountTwo(s: seq<Combo>, x: Combo)
    ensures multiset(s)[x] > 1 <==> exists i, k :: 0 <= i < k < |s| && s[i] == x && s[k] == x
  {
    if s != [] {
      CountTwo(s[1..], x);
      assert s == [s[0]] + s[1..];
      if s[0] == x && x in s[1..] {
        var k :| 0 <= k < |s[1..]| && s[1..][k] == x;
        assert s[0] == x && s[k + 1] == x;
      }
      if i, k :| 0 <= i < k < |s[1..]| && s[1..][i] == x && s[1..][k] == x {
        assert s[i + 1] == x && s[k + 1] == x;
      }
      if i, k :| 0 <= i < k < |s| && s[i] == x && s[k] == x {
        if i == 0 {
          assert s[1..][k - 1] == x;
        } else {
          assert s[1..][i - 1] == x && s[1..][k - 1] == x;
        }
      }
    }
  }

  lemma CollisionMeans(combos: seq<Combo>)
    ensures DistinctKeys(combos) <==> !KeysCollide(combos)
  {
    hide UnitKey;
    if i, k :| 0 <= i < k < |combos| && UnitKey(combos[i]) == UnitKey(combos[k]) {
      if combos[i] == combos[k] {
        CountTwo(combos, combos[i]);
      } else {
        assert combos[i] in multiset(combos) && combos[k] in multiset(combos);
      }
    }
    if DistinctKeys(combos) {
      forall m ensures multiset(combos)[m] <= 1 {
        CountTwo(combos, m);
      }
      forall m, n | m in multiset(combos) && n in multiset(combos) && m != n ensures UnitKey(m) != UnitKey(n) {
        var i :| 0 <= i < |combos| && combos[i] == m;
        var k :| 0 <= k < |combos| && combos[k] == n;
      }
    }
  }

  lemma {:induction false} KeepAppend(excludes: seq<Combo>, combos: seq<Combo>, m: Combo)
    ensures Keep(excludes, combos + [m]) == Keep(excludes, combos) + if Excluded(excludes, m) then [] else [m]
  {
    if combos == [] {
      assert combos + [m] == [m];
    } else {
      KeepAppend(excludes, combos[1..], m);
      assert (combos + [m])[1..] == combos[1..] + [m];
    }
  }

  /** The combinations of `load_spec`: the product without the excluded cells, then the includes. */
  method CollectCombos(spec: Spec) returns (combos: seq<Combo>)
    ensures combos == Combos(spec)
  {
    combos := [];
    var grid := Grid(spec);
    for i := 0 to |grid|
      invariant combos == Keep(spec.excludes, grid[..i])
    {
      KeepAppend(spec.excludes, grid[..i], grid[i]);
      assert grid[..i + 1] == grid[..i] + [grid[i]];
      if Excluded(spec.excludes, grid[i]) {
        continue;
      }
      combos := combos + [grid[i]];
    }
    assert grid[..|grid|] == grid;
    combos := combos + spec.includes;
  }

  /** `keyed`: each combination under its key, or a duplicate. */
  ghost predicate Indexes(keyed: map<string, Combo>, combos: seq<Combo>) {
    && (forall k | k in keyed :: keyed[k] in combos && UnitKey(keyed[k]) == k)
    && (forall m | m in combos :: UnitKey(m) in keyed && keyed[UnitKey(m)] == m)
    && |keyed| == |combos|
  }

  lemma IndexesGrows(found: map<string, Combo>, done: seq<Combo>, m: Combo)
    requires Indexes(found, done) && DistinctKeys(done) && UnitKey(m) !in found
    ensures Indexes(found[UnitKey(m) := m], done + [m]) && DistinctKeys(done + [m])
  {
    hide UnitKey;
    forall x | x in done ensures UnitKey(x) != UnitKey(m) {
    }
  }

  lemma NothingIndexed()
    ensures Indexes(map[], []) && DistinctKeys([])
  {
  }

  lemma TakenKeyCollides(found: map<string, Combo>, combos: seq<Combo>, i: nat)
    requires i < |combos| && Indexes(found, combos[..i]) && UnitKey(combos[i]) in found
    ensures !DistinctKeys(combos)
  {
    hide UnitKey;
    var k :| 0 <= k < i && combos[..i][k] == found[UnitKey(combos[i])];
    assert combos[k] == combos[..i][k];
  }

  method IndexByKey(combos: seq<Combo>) returns (keyed: Option<map<string, Combo>>)
    ensures keyed.None? <==> KeysCollide(combos)
    ensures keyed.Some? ==> Indexes(keyed.value, combos)
  {
    CollisionMeans(combos);
    hide UnitKey, KeysCollide, DistinctKeys, Indexes;
    var found: map<string, Combo> := map[];
    NothingIndexed();
    for i := 0 to |combos|
      invariant Indexes(found, combos[..i]) && DistinctKeys(combos[..i])
    {
      var key := UnitKey(combos[i]);
      if key in found {
        TakenKeyCollides(found, combos, i);
        return None;
      }
      IndexesGrows(found, combos[..i], combos[i]);
      assert combos[..i + 1] == combos[..i] + [combos[i]];
      found := found[key := combos[i]];
    }
    assert combos[..|combos|] == combos;
    return Some(found);
  }

  function UnitFor(spec: Spec, position: nat, key: string, values: Combo): MatrixUnit {
    MatrixUnit(position + 1, key, values, UnitOptions(spec.rules, values, spec.defaults))
  }

  /** The units in increasing key order, and the size of their commands. */
  method BuildUnits(spec: Spec, keyed: map<string, Combo>) returns (units: seq<MatrixUnit>, bytes: Option<nat>)
    requires Indexes(keyed, Combos(spec))
    ensures bytes.None? <==> Unrendered(spec)
    ensures bytes.Some? ==> IsExpansion(spec, units) && bytes.value == CommandBytes(spec, units)
  {
    hide UnitKey, UnitOptions, Combos, Less, Sorted, IsExpansion;
    var keys := Sorted(keyed.Keys);
    SortedMeans(keyed.Keys);
    units := [];
    var total := 0;
    for i := 0 to |keys|
      invariant |units| == i
      invariant forall k | 0 <= k < i :: keys[k] in keyed && units[k] == UnitFor(spec, k, keys[k], keyed[keys[k]])
      invariant forall k | 0 <= k < i :: spec.size(keyed[keys[k]]).Some?
      invariant total == CommandBytes(spec, units)
    {
      assert keys[i] in keys;
      var values := keyed[keys[i]];
      var size := spec.size(values);
      if size.None? {
        assert values in Combos(spec);
        return units, None;
      }
      total := total + size.value;
      units := units + [UnitFor(spec, i, keys[i], values)];
      assert units[..i] + [units[i]] == units;
    }
    Listed(spec, keyed, keys, units);
    return units, Some(total);
  }

  lemma Listed(spec: Spec, keyed: map<string, Combo>, keys: seq<string>, units: seq<MatrixUnit>)
    requires Indexes(keyed, Combos(spec)) && Increasing(keys) && (forall x :: x in keys <==> x in keyed)
    requires |keys| == |keyed| == |units|
    requires forall k | 0 <= k < |keys| :: keys[k] in keyed && units[k] == UnitFor(spec, k, keys[k], keyed[keys[k]])
    ensures IsExpansion(spec, units)
  {
    hide UnitKey, UnitOptions, Combos, Less;
    forall m | m in Combos(spec) ensures exists i :: 0 <= i < |units| && units[i].values == m {
      assert UnitKey(m) in keys;
      var i :| 0 <= i < |keys| && keys[i] == UnitKey(m);
      assert units[i].values == m;
    }
  }

  /** The expansion part of `load_spec`. */
  method Expand(spec: Spec) returns (r: Result)
    requires Valid(spec)
    ensures Expands(spec, r)
  {
    hide Combos, KeysCollide, IsExpansion, GridSize, Indexes;
    if spec.axes == [] && spec.includes == [] {
      return NeedsAxes;
    }
    if spec.axes != [] && GridSize(spec.axes, Sorted(AxisNames(spec))) > MATRIX_MAX_UNITS {
      return GridTooLarge;
    }
    var combos := CollectCombos(spec);
    if combos == [] {
      return NoUnits;
    }
    if |combos| > MATRIX_MAX_UNITS {
      return TooManyUnits;
    }
    var keyed := IndexByKey(combos);
    if keyed.None? {
      return DuplicateKey;
    }
    var units, bytes := BuildUnits(spec, keyed.value);
    if bytes.None? {
      return BadCommand;
    }
    if bytes.value > MATRIX_MAX_COMMAND_BYTES {
      assert TooLong(spec, units);
      return CommandsTooLong;
    }
    forall others | TooLong(spec, others) ensures false {
      ExpansionIsUnique(spec, spec, units, others);
    }
    return Units(units);
  }

  // ---------- keys that stand for two units ----------

  /** What separates a value from the next one in a key. */
  function Separator(name: string): string {
    "," + name + "="
  }

  predicate StandsAt(s: string, t: string, k: nat) {
    k + |t| <= |s| && s[k..k + |t|] == t
  }

  /** What `str.strip` takes away, control characters aside. */
  predicate IsSpace(c: char) {
    || c as int in {0x20, 0x85, 0xA0, 0x1680, 0x2028, 0x2029, 0x202F, 0x205F, 0x3000}
    || 0x2000 <= c as int <= 0x200A
  }

  predicate Blank(s: string) {
    forall i | 0 <= i < |s| :: IsSpace(s[i])
  }

  const MAX_VALUE_CHARS: nat := 120

  predicate Printable(s: string) {
    forall i | 0 <= i < |s| :: s[i] as int >= 32 && s[i] as int != 127
  }

  /** The values `_scalar_text` accepts. */
  predicate Accepted(v: string) {
    !Blank(v) && |v| <= MAX_VALUE_CHARS && Printable(v)
  }

  predicate AllAccepted(m: Combo) {
    forall x | x in m :: Accepted(m[x])
  }

  predicate IsLetter(c: char) {
    'a' <= c <= 'z' || 'A' <= c <= 'Z' || c == '_'
  }

  /** Axis names are identifiers of at most 64 characters. */
  predicate Plain(name: string) {
    && 0 < |name| <= 64 && IsLetter(name[0])
    && forall i | 0 <= i < |name| :: IsLetter(name[i]) || '0' <= name[i] <= '9'
  }

  /** It stands there after a prefix that is a value by itself. */
  predicate StandsInside(s: string, t: string, k: nat) {
    StandsAt(s, t, k) && !Blank(s[..k])
  }

  ghost predicate Contains(s: string, t: string) {
    exists k: nat :: StandsInside(s, t, k)
  }

  /** No value of an axis contains the separator in front of the next axis. */
  ghost predicate Unambiguous(names: seq<string>, values: Combo)
    requires forall n | n in names :: n in values
  {
    forall i | 0 <= i < |names| - 1 :: !Contains(values[names[i]], Separator(names[i + 1]))
  }

  lemma OneComma(name: string)
    requires Plain(name)
    ensures forall p | 0 < p < |Separator(name)| :: Separator(name)[p] != ','
  {
    forall p | 0 < p <= |name| ensures Separator(name)[p] != ',' {
      assert Separator(name)[p] == name[p - 1];
    }
  }

  /** Where two texts with the same separator after their values differ, the longer value
      contains it. */
  lemma LongerContains(a: string, s: string, b: string, t: string, next: string)
    requires a + s == b + t && |a| < |b| && Plain(next) && !Blank(a)
    requires Separator(next) <= s && Separator(next) <= t
    ensures Contains(b, Separator(next))
  {
    var sep, p := Separator(next), |b| - |a|;
    assert forall q | 0 <= q < |sep| :: s[q] == sep[q];
    assert (a + s)[|a|..] == s && (b + t)[|b|..] == t;
    assert t == s[p..];
    assert t[0] == ',' && s[p] == ',';
    OneComma(next);
    assert b == (a + s)[..|b|];
    assert b[..|a|] == a;
    assert StandsInside(b, sep, |a|);
  }

  lemma DropHead(head: string, u: string, v: string)
    requires head + u == head + v
    ensures u == v
  {
    assert (head + u)[|head|..] == u && (head + v)[|head|..] == v;
  }

  /** What follows the first value of a key. */
  function Tail(names: seq<string>, values: Combo): string
    requires names != [] && forall n | n in names :: n in values
  {
    if |names| == 1 then "" else "," + Joined(names[1..], values)
  }

  lemma JoinedCut(names: seq<string>, m: Combo)
    requires names != [] && forall x | x in names :: x in m
    ensures Joined(names, m) == (names[0] + "=") + (m[names[0]] + Tail(names, m))
  {
    var x := names[0];
    if |names| > 1 {
      var r := Joined(names[1..], m);
      assert x + "=" + m[x] + "," + r == (x + "=") + (m[x] + ("," + r));
    } else {
      assert x + "=" + m[x] == (x + "=") + (m[x] + "");
    }
  }

  lemma TailStarts(names: seq<string>, m: Combo)
    requires |names| > 1 && forall x | x in names :: x in m
    ensures Tail(names, m) == Separator(names[1]) + (m[names[1]] + Tail(names[1..], m))
  {
    JoinedCut(names[1..], m);
  }

  /** Two keys with the same text cut their first values alike, or the longer of the two
      contains the next separator. */
  lemma FirstValues(names: seq<string>, m: Combo, n: Combo)
    requires names != [] && (forall x | x in names :: x in m && x in n) && (|names| > 1 ==> Plain(names[1]))
    requires Joined(names, m) == Joined(names, n) && !Blank(m[names[0]]) && !Blank(n[names[0]])
    ensures |names| == 1 ==> m[names[0]] == n[names[0]]
    ensures |names| > 1 ==> (|n[names[0]]| < |m[names[0]]| ==> Contains(m[names[0]], Separator(names[1])))
    ensures |names| > 1 ==> (|m[names[0]]| < |n[names[0]]| ==> Contains(n[names[0]], Separator(names[1])))
    ensures |m[names[0]]| == |n[names[0]]| ==>
              m[names[0]] == n[names[0]] && (|names| > 1 ==> Joined(names[1..], m) == Joined(names[1..], n))
  {
    hide Joined, Contains, Separator, Blank;
    var x := names[0];
    JoinedCut(names, m);
    JoinedCut(names, n);
    DropHead(x + "=", m[x] + Tail(names, m), n[x] + Tail(names, n));
    if |names| > 1 {
      TailStarts(names, m);
      TailStarts(names, n);
      if |m[x]| < |n[x]| {
        LongerContains(m[x], Tail(names, m), n[x], Tail(names, n), names[1]);
      } else if |n[x]| < |m[x]| {
        LongerContains(n[x], Tail(names, n), m[x], Tail(names, m), names[1]);
      }
    }
    if |m[x]| == |n[x]| {
      assert m[x] == (m[x] + Tail(names, m))[..|m[x]|] && n[x] == (n[x] + Tail(names, n))[..|m[x]|];
      DropHead(m[x], Tail(names, m), Tail(names, n));
      if |names| > 1 {
        DropHead(",", Joined(names[1..], m), Joined(names[1..], n));
      }
    }
  }

  lemma {:induction false} JoinedIsInjective(names: seq<string>, m: Combo, n: Combo)
    requires forall x | x in names :: x in m && x in n && Plain(x) && !Blank(m[x]) && !Blank(n[x])
    requires Unambiguous(names, m) && Unambiguous(names, n)
    requires Joined(names, m) == Joined(names, n)
    ensures forall x | x in names :: m[x] == n[x]
  {
    if names != [] {
      hide Joined, Plain, Contains, Separator, Blank;
      FirstValues(names, m, n);
      if |names| > 1 {
        assert names[..][0] == names[0] && !Contains(m[names[0]], Separator(names[0 + 1]));
        assert !Contains(n[names[0]], Separator(names[0 + 1]));
        UnambiguousRest(names, m);
        UnambiguousRest(names, n);
        JoinedIsInjective(names[1..], m, n);
      }
      assert names == [names[0]] + names[1..];
    }
  }

  lemma UnambiguousRest(names: seq<string>, m: Combo)
    requires |names| > 1 && (forall x | x in names :: x in m) && Unambiguous(names, m)
    ensures Unambiguous(names[1..], m)
  {
    hide Contains, Separator;
    forall i | 0 <= i < |names| - 2 ensures !Contains(m[names[1..][i]], Separator(names[1..][i + 1])) {
      assert !Contains(m[names[i + 1]], Separator(names[i + 1 + 1]));
    }
  }

  ghost predicate ExactKey(m: Combo) {
    SortedMeans(m.Keys);
    Unambiguous(Sorted(m.Keys), m)
  }

  lemma UnambiguousKeyIsExact(m: Combo, n: Combo)
    requires ExactKey(m) && ExactKey(n) && m.Keys == n.Keys && UnitKey(m) == UnitKey(n)
    requires (forall x | x in m :: Plain(x)) && AllAccepted(m) && AllAccepted(n)
    ensures m == n
  {
    hide Plain, Unambiguous, Joined, Blank, Printable;
    SortedMeans(m.Keys);
    JoinedIsInjective(Sorted(m.Keys), m, n);
  }

  /** While no value has the separator in front of the next axis inside it, after something
      that is a value by itself, a key stands for one combination, so expansion refuses duplicates only when a unit really is listed twice. */
  lemma UnambiguousKeysAreExact(combos: seq<Combo>)
    requires forall m | m in combos :: ExactKey(m) && AllAccepted(m) && forall x | x in m :: Plain(x)
    requires forall m, n | m in combos && n in combos :: m.Keys == n.Keys
    ensures KeysCollide(combos) <==> exists m :: multiset(combos)[m] > 1
  {
    hide UnitKey, ExactKey, Plain, AllAccepted;
    forall m, n | m in multiset(combos) && n in multiset(combos) && UnitKey(m) == UnitKey(n) ensures m == n {
      assert m in combos && n in combos;
      UnambiguousKeyIsExact(m, n);
    }
  }

  // ---------- and which values are ambiguous, exactly ----------

  lemma {:induction false} JoinedAgree(names: seq<string>, m: Combo, n: Combo)
    requires forall x | x in names :: x in m && x in n && m[x] == n[x]
    ensures Joined(names, m) == Joined(names, n)
  {
    if names != [] {
      JoinedAgree(names[1..], m, n);
    }
  }

  /** Moving a separator from one value into the next leaves the text as it is. */
  lemma {:induction false} JoinedShift(names: seq<string>, i: nat, m: Combo, n: Combo)
    requires i + 1 < |names| && forall x | x in names :: x in m && x in n
    requires forall k | 0 <= k < |names| && k != i && k != i + 1 :: m[names[k]] == n[names[k]]
    requires m[names[i]] + (Separator(names[i + 1]) + m[names[i + 1]]) == n[names[i]] + (Separator(names[i + 1]) + n[names[i + 1]])
    ensures Joined(names, m) == Joined(names, n)
  {
    hide Joined, Separator;
    JoinedCut(names, m);
    JoinedCut(names, n);
    if i > 0 {
      JoinedShift(names[1..], i - 1, m, n);
    } else {
      var x, next, rest := names[0], names[1], names[1..];
      TailStarts(names, m);
      TailStarts(names, n);
      if |rest| > 1 {
        JoinedAgree(rest[1..], m, n);
      }
      var t := Tail(rest, m);
      assert Tail(rest, n) == t;
      Regroup(m[x], Separator(next), m[next], t);
      Regroup(n[x], Separator(next), n[next], t);
    }
  }

  lemma Regroup(v: string, sep: string, w: string, t: string)
    ensures v + (sep + (w + t)) == (v + (sep + w)) + t
  {
  }

  /** The combination with everything from k on moved into the next value. */
  function Shifted(m: Combo, x: string, next: string, k: nat): Combo
    requires x in m && next in m && k + |Separator(next)| <= |m[x]|
  {
    m[x := m[x][..k]][next := m[x][k + |Separator(next)|..] + Separator(next) + m[next]]
  }

  lemma ShiftedText(m: Combo, x: string, next: string, k: nat)
    requires x in m && next in m && x != next && k + |Separator(next)| <= |m[x]|
    requires m[x][k..k + |Separator(next)|] == Separator(next)
    ensures var n := Shifted(m, x, next, k); m[x] + (Separator(next) + m[next]) == n[x] + (Separator(next) + n[next])
  {
    var sep, v, w := Separator(next), m[x], m[next];
    hide Separator;
    assert v == v[..k] + sep + v[k + |sep|..];
    assert v[..k] + sep + v[k + |sep|..] + (sep + w) == v[..k] + (sep + (v[k + |sep|..] + sep + w));
  }

  lemma {:induction false} SameFrom(names: seq<string>, i: nat, m: Combo, n: Combo)
    requires i < |names| && (forall x | x in names :: x in m && x in n && Plain(x) && !Blank(m[x]) && !Blank(n[x]))
    requires Joined(names, m) == Joined(names, n)
    requires forall k | 0 <= k < i :: m[names[k]] == n[names[k]]
    ensures Joined(names[i..], m) == Joined(names[i..], n)
  {
    if i > 0 {
      hide Joined, Contains, Separator, Plain, Blank;
      SameFrom(names, i - 1, m, n);
      FirstValues(names[i - 1..], m, n);
      assert names[i - 1..][1..] == names[i..];
    } else {
      assert names[0..] == names;
    }
  }

  lemma UnitKeyIs(names: seq<string>, m: Combo)
    requires Increasing(names) && forall x :: x in m <==> x in names
    ensures UnitKey(m) == Joined(names, m)
  {
    hide Joined;
    SortedMeans(m.Keys);
    IncreasingIsUnique(Sorted(m.Keys), names);
  }

  lemma IncreasingDistinct(names: seq<string>)
    requires Increasing(names)
    ensures Distinct(names)
  {
    forall i, k | 0 <= i < k < |names| ensures names[i] != names[k] {
      LessTotal(names[i], names[k]);
    }
  }

  lemma SeparatorLength(name: string)
    ensures |Separator(name)| == |name| + 2
  {
  }

  /** Two admissible units over these axes with one key, which differ first at axis i, where
      the first has the value v and the second a shorter one. */
  ghost predicate Confused(names: seq<string>, i: nat, v: string, m: Combo, n: Combo) {
    && i < |names| && (forall x :: x in m <==> x in names) && m.Keys == n.Keys
    && AllAccepted(m) && AllAccepted(n)
    && (forall k | 0 <= k < i :: m[names[k]] == n[names[k]])
    && m[names[i]] == v && |n[names[i]]| < |v|
    && UnitKey(m) == UnitKey(n)
  }

  lemma ConfusedContains(names: seq<string>, i: nat, v: string, m: Combo, n: Combo)
    requires Increasing(names) && (forall x | x in names :: Plain(x)) && Confused(names, i, v, m, n)
    ensures i + 1 < |names| && Contains(v, Separator(names[i + 1]))
  {
    hide Joined, Plain, Separator, UnitKey, Increasing, Contains, Blank, Printable;
    UnitKeyIs(names, m);
    UnitKeyIs(names, n);
    SameFrom(names, i, m, n);
    FirstValues(names[i..], m, n);
  }

  lemma ShiftedAgrees(names: seq<string>, i: nat, m: Combo, k: nat)
    requires Increasing(names) && i + 1 < |names| && forall x :: x in m <==> x in names
    requires StandsAt(m[names[i]], Separator(names[i + 1]), k)
    ensures var n := Shifted(m, names[i], names[i + 1], k);
            && n.Keys == m.Keys && |n[names[i]]| < |m[names[i]]|
            && (forall j | 0 <= j < |names| && j != i && j != i + 1 :: m[names[j]] == n[names[j]])
            && m[names[i]] + (Separator(names[i + 1]) + m[names[i + 1]]) == n[names[i]] + (Separator(names[i + 1]) + n[names[i + 1]])
  {
    IncreasingDistinct(names);
    SeparatorLength(names[i + 1]);
    hide Separator, Increasing;
    var n := Shifted(m, names[i], names[i + 1], k);
    assert n.Keys == m.Keys;
    ShiftedText(m, names[i], names[i + 1], k);
  }

  lemma SeparatorPrints(name: string)
    requires Plain(name)
    ensures Printable(Separator(name)) && !Blank(Separator(name)) && |Separator(name)| == |name| + 2
  {
    var sep := Separator(name);
    forall i | 0 <= i < |sep| ensures sep[i] as int >= 32 && sep[i] as int != 127 {
      assert 0 < i <= |name| ==> sep[i] == name[i - 1];
    }
    assert !IsSpace(sep[0]);
  }

  /** Both values stay admissible when the separator moves. */
  lemma PartsAccepted(v: string, next: string, k: nat)
    requires Accepted(v) && Plain(next) && StandsInside(v, Separator(next), k)
    ensures Accepted(v[..k]) && Accepted(v[k + |Separator(next)|..] + Separator(next) + "x")
  {
    var sep, rest := Separator(next), v[k + |Separator(next)|..];
    SeparatorPrints(next);
    hide Separator, IsSpace;
    var moved := rest + sep + "x";
    forall i | 0 <= i < |moved| ensures moved[i] as int >= 32 && moved[i] as int != 127 {
      if i < |rest| {
        assert moved[i] == v[k + |sep| + i];
      } else if i < |rest| + |sep| {
        assert moved[i] == sep[i - |rest|];
      }
    }
    var p :| 0 <= p < |sep| && !IsSpace(sep[p]);
    assert moved[|rest| + p] == sep[p];
    assert k >= 1;
  }

  lemma ContainedConfuses(names: seq<string>, i: nat, m: Combo, k: nat)
    requires Increasing(names) && i + 1 < |names| && forall x :: x in m <==> x in names
    requires StandsAt(m[names[i]], Separator(names[i + 1]), k)
    requires AllAccepted(m) && AllAccepted(Shifted(m, names[i], names[i + 1], k))
    ensures Confused(names, i, m[names[i]], m, Shifted(m, names[i], names[i + 1], k))
  {
    hide Joined, Separator, UnitKey, Increasing, AllAccepted;
    ShiftedAgrees(names, i, m, k);
    var n := Shifted(m, names[i], names[i + 1], k);
    hide Shifted, StandsAt;
    JoinedShift(names, i, m, n);
    UnitKeyIs(names, m);
    UnitKeyIs(names, n);
  }

  /** v at axis i, and the shortest value everywhere else. */
  function Witness(names: seq<string>, i: nat, v: string): Combo
    requires i < |names|
  {
    map x | x in names :: if x == names[i] then v else "x"
  }

  lemma WitnessAccepted(names: seq<string>, i: nat, v: string, k: nat)
    requires Increasing(names) && i + 1 < |names| && Plain(names[i + 1]) && Accepted(v)
    requires StandsInside(v, Separator(names[i + 1]), k)
    ensures AllAccepted(Witness(names, i, v)) && AllAccepted(Shifted(Witness(names, i, v), names[i], names[i + 1], k))
  {
    IncreasingDistinct(names);
    PartsAccepted(v, names[i + 1], k);
    assert !IsSpace("x"[0]);
    assert Accepted("x");
    hide Accepted, Separator, Increasing;
    assert names[i + 1] != names[i];
  }

  /** An accepted value can be confused with a shorter one exactly when it contains the
      separator in front of the next axis after something that is not blank; a value of the
      last axis never can. */
  lemma ConfusableExactly(names: seq<string>, i: nat, v: string)
    requires i < |names| && Increasing(names) && Accepted(v) && forall x | x in names :: Plain(x)
    ensures (exists m, n :: Confused(names, i, v, m, n)) <==>
            i + 1 < |names| && Contains(v, Separator(names[i + 1]))
  {
    hide Separator, Plain, Accepted, Blank, UnitKey, Increasing, AllAccepted;
    forall m, n | Confused(names, i, v, m, n) ensures i + 1 < |names| && Contains(v, Separator(names[i + 1])) {
      ConfusedContains(names, i, v, m, n);
    }
    if i + 1 < |names| && Contains(v, Separator(names[i + 1])) {
      var k: nat :| StandsInside(v, Separator(names[i + 1]), k);
      WitnessAccepted(names, i, v, k);
      ContainedConfuses(names, i, Witness(names, i, v), k);
    }
  }

  /** A specification that lists both is refused as a duplicate. */
  lemma ConfusedUnitsRefused(names: seq<string>, i: nat, v: string, m: Combo, n: Combo, spec: Spec, r: Result)
    requires Confused(names, i, v, m, n)
    requires spec.axes == [] && spec.includes == [m, n] && Expands(spec, r)
    ensures m != n && r == DuplicateKey
  {
    hide UnitKey, IsExpansion;
    assert m[names[i]] != n[names[i]];
    assert m in multiset([m, n]) && n in multiset([m, n]);
    assert Combos(spec) == [m, n];
  }

  lemma AmbiguousText(m: Combo, n: Combo)
    requires m == map["a" := "1,b=2", "b" := "3"] && n == map["a" := "1", "b" := "2,b=3"]
    ensures Joined(["a", "b"], m) == Joined(["a", "b"], n) == "a=1,b=2,b=3"
  {
    assert ["a", "b"][1..] == ["b"];
    assert Joined(["b"], m) == "b=3" && Joined(["b"], n) == "b=2,b=3";
  }

  /** With a comma they can stand for two: these combinations are different, and a
      specification that lists both is refused as a duplicate. */
  lemma CommaKeysCollide()
    ensures var m: Combo := map["a" := "1,b=2", "b" := "3"];
            var n: Combo := map["a" := "1", "b" := "2,b=3"];
            m != n && UnitKey(m) == UnitKey(n) == "a=1,b=2,b=3" && KeysCollide([m, n])
  {
    var m: Combo := map["a" := "1,b=2", "b" := "3"];
    var n: Combo := map["a" := "1", "b" := "2,b=3"];
    var names := ["a", "b"];
    assert m.Keys == n.Keys == {"a", "b"};
    hide Joined;
    SortedMeans({"a", "b"});
    assert Less("a", "b");
    forall x ensures x in Sorted({"a", "b"}) <==> x in names {
    }
    IncreasingIsUnique(Sorted({"a", "b"}), names);
    assert m["a"] != n["a"];
    AmbiguousText(m, n);
    assert m in multiset([m, n]) && n in multiset([m, n]);
  }
}
