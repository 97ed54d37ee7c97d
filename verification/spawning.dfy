/** Depth-keyed spawn tables and weighted sampling (procgen.py). */
module Spawning {
  import opened Results
  import opened Curves
  import opened Randomness

  /** The entity templates the spawn tables name. */
  datatype Template =
    | Orc | Troll
    | HealthPotion | ConfusionScroll | LightningScroll | Sword | FireballScroll | ChainMail

  /** A dictionary from template to weight curve, in insertion order. */
  type Table = seq<(Template, seq<Point>)>

  // The curve constants, as the point lists their add_point calls leave
  // (the *AsAdded lemmas show the calls keep this order).
  const MaxItemsByFloor: seq<Point> := [Point(1.0, 1.0), Point(4.0, 2.0)]
  const MaxMonstersByFloor: seq<Point> := [Point(1.0, 2.0), Point(4.0, 3.0), Point(6.0, 5.0)]
  const HealthPotionByFloor: seq<Point> := [Point(0.0, 35.0)]
  const ConfusionScrollByFloor: seq<Point> := [Point(1.0, 0.0), Point(2.0, 10.0)]
  const LightningScrollByFloor: seq<Point> := [Point(3.0, 0.0), Point(4.0, 25.0)]
  const SwordByFloor: seq<Point> := [Point(3.0, 0.0), Point(4.0, 5.0)]
  const FireballScrollByFloor: seq<Point> := [Point(5.0, 0.0), Point(6.0, 25.0)]
  const ChainMailByFloor: seq<Point> := [Point(5.0, 0.0), Point(6.0, 15.0)]
  const OrcCurve: seq<Point> := [Point(1.0, 80.0)]
  const TrollCurve: seq<Point> := [Point(2.0, 0.0), Point(3.0, 15.0), Point(5.0, 30.0), Point(7.0, 60.0)]

  const ItemCurvesByFloor: Table := [
    (HealthPotion, HealthPotionByFloor), (ConfusionScroll, ConfusionScrollByFloor),
    (LightningScroll, LightningScrollByFloor), (Sword, SwordByFloor),
    (FireballScroll, FireballScrollByFloor), (ChainMail, ChainMailByFloor)]

  const EnemyChances: Table := [(Orc, OrcCurve), (Troll, TrollCurve)]

  /** Points added in ascending order of x stay in the order added. */
  lemma SortedAsAdded(s: seq<Point>)
    requires IncreasingX(s)
    ensures SortByX(s) == s && IncreasingX(SortByX(s))
  {
    SortByXSorted(s);
  }

  /** Every spawn curve lists its points by strictly increasing x. */
  lemma CurvesIncreasing()
    ensures IncreasingX(MaxItemsByFloor) && IncreasingX(MaxMonstersByFloor)
    ensures IncreasingX(OrcCurve) && IncreasingX(TrollCurve)
    ensures forall k :: 0 <= k < |ItemCurvesByFloor| ==> IncreasingX(ItemCurvesByFloor[k].1)
  {
  }

  /** Adding the count curves' points in the order the code lists them
      leaves exactly these lists. */
  lemma CountCurvesAsAdded()
    ensures SortByX(MaxItemsByFloor) == MaxItemsByFloor
    ensures SortByX(MaxMonstersByFloor) == MaxMonstersByFloor
  {
    CurvesIncreasing();
    SortedAsAdded(MaxItemsByFloor);
    SortedAsAdded(MaxMonstersByFloor);
  }

  /** The same for the enemy weight curves. */
  lemma EnemyCurvesAsAdded()
    ensures SortByX(OrcCurve) == OrcCurve
    ensures SortByX(TrollCurve) == TrollCurve
  {
    CurvesIncreasing();
    SortedAsAdded(OrcCurve);
    SortedAsAdded(TrollCurve);
  }

  /** The same for the item weight curves. */
  lemma ItemCurvesAsAdded(k: nat)
    requires k < |ItemCurvesByFloor|
    ensures SortByX(ItemCurvesByFloor[k].1) == ItemCurvesByFloor[k].1
  {
    CurvesIncreasing();
    SortedAsAdded(ItemCurvesByFloor[k].1);
  }

  /** int(v): truncation toward zero. */
  function TruncToInt(v: real): (i: int)
    ensures 0.0 <= v ==> 0 <= i && i as real <= v < i as real + 1.0
    ensures v < 0.0 ==> i <= 0 && i as real - 1.0 < v <= i as real
  {
    if 0.0 <= v then v.Floor else -((-v).Floor)
  }

  /** get_max_value_for_floor: the curve's value at the floor, truncated. */
  function GetMaxValueForFloor(curve: seq<Point>, floor: int): Result<int> {
    var v :- Evaluate(curve, floor as real);
    Ok(TruncToInt(v))
  }

  /** If every control point's y lies in [lo, hi] for integers lo and hi, so
      does the truncated value; in particular it is non-negative when every y
      is. */
  lemma MaxValueBounds(curve: seq<Point>, floor: int, lo: int, hi: int)
    requires SortedByX(curve)
    requires forall i :: 0 <= i < |curve| ==> lo as real <= curve[i].y <= hi as real
    ensures GetMaxValueForFloor(curve, floor).Ok? ==> lo <= GetMaxValueForFloor(curve, floor).value <= hi
  {
    EvaluateWithin(curve, floor as real, lo as real, hi as real);
  }

  /** The monster-count bound is defined on every floor and lies in [2, 5]. */
  lemma MaxMonstersBounds(floor: int)
    ensures GetMaxValueForFloor(MaxMonstersByFloor, floor).Ok?
    ensures 2 <= GetMaxValueForFloor(MaxMonstersByFloor, floor).value <= 5
  {
    CurvesIncreasing();
    EvaluateFails(MaxMonstersByFloor, floor as real);
    MaxValueBounds(MaxMonstersByFloor, floor, 2, 5);
  }

  /** The item-count bound is defined on every floor and lies in [1, 2]. */
  lemma MaxItemsBounds(floor: int)
    ensures GetMaxValueForFloor(MaxItemsByFloor, floor).Ok?
    ensures 1 <= GetMaxValueForFloor(MaxItemsByFloor, floor).value <= 2
  {
    CurvesIncreasing();
    EvaluateFails(MaxItemsByFloor, floor as real);
    MaxValueBounds(MaxItemsByFloor, floor, 1, 2);
  }

  /** The entries of a table whose curve is positive at the floor, with that
      weight, in table order; the first curve that cannot be evaluated
      raises. */
  function Eligible(table: Table, floor: int): (r: Result<seq<(Template, real)>>)
    ensures r.Ok? ==> |r.value| <= |table|
    ensures r.Ok? ==> forall k :: 0 <= k < |r.value| ==> 0.0 < r.value[k].1
    decreases |table|
  {
    if |table| == 0 then Ok([])
    else match Evaluate(table[0].1, floor as real)
      case Err(e) => Err(e)
      case Ok(chance) =>
        match Eligible(table[1..], floor)
        case Err(e) => Err(e)
        case Ok(rest) => Ok(if 0.0 < chance then [(table[0].0, chance)] + rest else rest)
  }

  /** Filtering a concatenation filters each part and keeps their order. */
  lemma {:induction false} EligibleAppend(a: Table, b: Table, floor: int)
    ensures Eligible(a + b, floor) ==
      if Eligible(a, floor).Err? then Eligible(a, floor)
      else if Eligible(b, floor).Err? then Eligible(b, floor)
      else Ok(Eligible(a, floor).value + Eligible(b, floor).value)
    decreases |a|
  {
    if |a| == 0 {
      assert a + b == b;
      if Eligible(b, floor).Ok? {
        assert [] + Eligible(b, floor).value == Eligible(b, floor).value;
      }
    } else {
      assert (a + b)[0] == a[0];
      assert (a + b)[1..] == a[1..] + b;
      EligibleAppend(a[1..], b, floor);
      var chance := Evaluate(a[0].1, floor as real);
      if chance.Ok? && Eligible(a[1..], floor).Ok? && Eligible(b, floor).Ok? {
        var ea, eb := Eligible(a[1..], floor).value, Eligible(b, floor).value;
        if 0.0 < chance.value {
          var head := [(a[0].0, chance.value)];
          assert Eligible(a, floor) == Ok(head + ea);
          assert Eligible(a + b, floor) == Ok(head + (ea + eb));
          assert head + (ea + eb) == (head + ea) + eb;
        } else {
          assert Eligible(a, floor) == Ok(ea);
          assert Eligible(a + b, floor) == Ok(ea + eb);
        }
      }
    }
  }

  /** One more table entry: its curve is evaluated after the earlier ones and
      the entry is appended when its chance is positive. */
  lemma EligibleSnoc(table: Table, entry: (Template, seq<Point>), floor: int)
    ensures Eligible(table + [entry], floor) ==
      if Eligible(table, floor).Err? then Eligible(table, floor)
      else match Evaluate(entry.1, floor as real)
        case Err(e) => Err(e)
        case Ok(c) => Ok(Eligible(table, floor).value + (if 0.0 < c then [(entry.0, c)] else []))
  {
    EligibleAppend(table, [entry], floor);
    assert [entry][1..] == [];
    assert Eligible([entry][1..], floor) == Ok([]);
    match Evaluate(entry.1, floor as real)
    case Err(e) =>
      assert Eligible([entry], floor) == Err(e);
    case Ok(c) =>
      if 0.0 < c {
        assert Eligible([entry], floor) == Ok([(entry.0, c)] + []);
        assert [(entry.0, c)] + [] == [(entry.0, c)];
      } else {
        assert Eligible([entry], floor) == Ok([]);
      }
  }

  /** An entry is kept exactly when its curve is positive at the floor. */
  lemma {:induction false} EligibleMembers(table: Table, floor: int, t: Template, w: real)
    requires Eligible(table, floor).Ok?
    ensures (t, w) in Eligible(table, floor).value <==>
      exists k :: 0 <= k < |table| && table[k].0 == t && Evaluate(table[k].1, floor as real) == Ok(w) && 0.0 < w
    decreases |table|
  {
    if |table| > 0 {
      EligibleMembers(table[1..], floor, t, w);
      if (t, w) in Eligible(table[1..], floor).value {
        var k :| 0 <= k < |table| - 1 && table[1..][k].0 == t && Evaluate(table[1..][k].1, floor as real) == Ok(w) && 0.0 < w;
        assert table[k + 1] == table[1..][k];
      }
      if exists k :: 0 < k < |table| && table[k].0 == t && Evaluate(table[k].1, floor as real) == Ok(w) && 0.0 < w {
        var k :| 0 < k < |table| && table[k].0 == t && Evaluate(table[k].1, floor as real) == Ok(w) && 0.0 < w;
        assert table[1..][k - 1] == table[k];
      }
    }
  }

  function Names(es: seq<(Template, real)>): (ns: seq<Template>)
    ensures |ns| == |es|
  {
    seq(|es|, i requires 0 <= i < |es| => es[i].0)
  }

  function Weights(es: seq<(Template, real)>): (ws: seq<real>)
    ensures |ws| == |es|
  {
    seq(|es|, i requires 0 <= i < |es| => es[i].1)
  }

  lemma NamesWeightsAppend(a: seq<(Template, real)>, b: seq<(Template, real)>)
    ensures Names(a + b) == Names(a) + Names(b)
    ensures Weights(a + b) == Weights(a) + Weights(b)
  {
  }

  function Sum(ws: seq<real>): real {
    if |ws| == 0 then 0.0 else Sum(ws[..|ws| - 1]) + ws[|ws| - 1]
  }

  /** The total weight random.choices scales its draw by. */
  function Total(ws: seq<real>): real {
    Sum(ws)
  }

  /** The running totals random.choices accumulates from the weights. */
  function Cumulative(ws: seq<real>): (cs: seq<real>)
    ensures |cs| == |ws|
  {
    seq(|ws|, k requires 0 <= k < |ws| => Sum(ws[..k + 1]))
  }

  /** bisect_right(a, v, lo, hi) on a list sorted ascending: the first index
      in [lo, hi) whose entry exceeds v, or hi if there is none. */
  function BisectRight(a: seq<real>, v: real, lo: nat, hi: nat): (i: nat)
    requires lo <= hi <= |a|
    ensures lo <= i <= hi
    ensures forall j :: lo <= j < i ==> a[j] <= v
    ensures i < hi ==> v < a[i]
    decreases hi - lo
  {
    if lo == hi then lo else if v < a[lo] then lo else BisectRight(a, v, lo + 1, hi)
  }

  /** The index random.choices picks for one value u of random(): bisect_right
      of u * total over the running totals, with hi = n - 1. */
  function ChoiceIndex(ws: seq<real>, u: real): (j: nat)
    requires 0 < |ws|
    ensures j < |ws|
  {
    BisectRight(Cumulative(ws), u * Total(ws), 0, |ws| - 1)
  }

  /** With positive weights, the prefix sums grow with the prefix. */
  lemma {:induction false} SumPrefixMonotone(ws: seq<real>, i: nat, j: nat)
    requires forall k :: 0 <= k < |ws| ==> 0.0 < ws[k]
    requires i <= j <= |ws|
    ensures Sum(ws[..i]) <= Sum(ws[..j])
    ensures i < j ==> Sum(ws[..i]) < Sum(ws[..j])
    decreases j - i
  {
    if i < j {
      SumPrefixMonotone(ws, i, j - 1);
      assert ws[..j][..j - 1] == ws[..j - 1];
    }
  }

  /** A fraction in [0, 1) of a positive total lies in [0, total). */
  lemma ScaledInRange(u: real, total: real, v: real)
    requires 0.0 <= u < 1.0 && 0.0 < total && v == u * total
    ensures 0.0 <= v < total
  {
    assert u * total < 1.0 * total;
  }

  /** Scaling equal totals gives equal products. */
  lemma ScaleEqual(u: real, a: real, b: real)
    requires a == b
    ensures u * a == u * b
  {
  }

  /** bisect_right over the running totals, searching [0, n - 1), stops at
      the window holding v for any v in [0, total). */
  lemma BisectBracket(ws: seq<real>, v: real)
    requires 0 < |ws|
    requires 0.0 <= v < Sum(ws)
    ensures var i := BisectRight(Cumulative(ws), v, 0, |ws| - 1);
      Sum(ws[..i]) <= v < Sum(ws[..i + 1])
  {
    var cs := Cumulative(ws);
    var i := BisectRight(cs, v, 0, |ws| - 1);
    if i < |ws| - 1 {
      assert v < cs[i];
    } else {
      assert ws[..i + 1] == ws;
    }
    if 0 < i {
      assert cs[i - 1] <= v;
      assert ws[..i - 1 + 1] == ws[..i];
    }
  }

  /** With positive weights the total is positive. */
  lemma SumPositive(ws: seq<real>)
    requires 0 < |ws|
    requires forall k :: 0 <= k < |ws| ==> 0.0 < ws[k]
    ensures 0.0 < Sum(ws)
  {
    assert ws[..|ws|] == ws;
    SumPrefixMonotone(ws, 0, |ws|);
  }

  /** With positive weights, bisect_right over the running totals stops at j
      exactly when v lies in the j-th window. */
  lemma {:induction false} BisectWindow(ws: seq<real>, v: real, j: nat)
    requires forall k :: 0 <= k < |ws| ==> 0.0 < ws[k]
    requires j < |ws|
    requires 0.0 <= v < Sum(ws)
    ensures Sum(ws[..j + 1]) == Sum(ws[..j]) + ws[j]
    ensures BisectRight(Cumulative(ws), v, 0, |ws| - 1) == j <==> Sum(ws[..j]) <= v < Sum(ws[..j + 1])
  {
    assert ws[..j + 1][..j] == ws[..j];
    var i := BisectRight(Cumulative(ws), v, 0, |ws| - 1);
    BisectBracket(ws, v);
    if i < j {
      SumPrefixMonotone(ws, i + 1, j);
    } else if j < i {
      SumPrefixMonotone(ws, j + 1, i);
    }
  }

  /** A draw picks entry j exactly when random() * total falls in the window
      [w_0 + ... + w_(j-1), w_0 + ... + w_j), whose width is w_j: the pick is
      weighted by the weights. */
  lemma {:induction false} ChoiceIndexWindow(ws: seq<real>, u: real, j: nat)
    requires forall k :: 0 <= k < |ws| ==> 0.0 < ws[k]
    requires j < |ws|
    requires 0.0 <= u < 1.0
    ensures Sum(ws[..j + 1]) == Sum(ws[..j]) + ws[j]
    ensures ChoiceIndex(ws, u) == j <==> Sum(ws[..j]) <= u * Total(ws) < Sum(ws[..j + 1])
  {
    SumPositive(ws);
    ScaledInRange(u, Total(ws), u * Total(ws));
    BisectWindow(ws, u * Total(ws), j);
  }

  /** random.choices(population, weights, k): k independent weighted picks;
      with no entities the code indexes an empty list of running totals and
      raises, whatever k is. */
  function Choices(population: seq<Template>, weights: seq<real>, k: int, draws: seq<nat>): (r: Result<seq<Template>>)
    requires |population| == |weights|
    ensures r.Err? <==> |population| == 0
    ensures r.Err? ==> r.error == EmptyPopulation
    ensures r.Ok? ==> |r.value| == (if k < 0 then 0 else k)
    ensures r.Ok? ==> forall i :: 0 <= i < |r.value| ==> r.value[i] in population
  {
    if |weights| == 0 then Err(EmptyPopulation)
    else Ok(seq(if k < 0 then 0 else k, i requires 0 <= i => population[ChoiceIndex(weights, RandomReal(DrawAt(draws, i)))]))
  }

  /** get_entities_at_random as a value: filter the table, then draw. */
  function EntitiesAtRandom(table: Table, count: int, floor: int, draws: seq<nat>): Result<seq<Template>> {
    var es :- Eligible(table, floor);
    Choices(Names(es), Weights(es), count, draws)
  }

  /** The result has exactly count picks, each a template whose curve is
      positive at the floor; it fails when a curve cannot be evaluated or no
      entry is eligible. */
  lemma EntitiesAtRandomSpec(table: Table, count: nat, floor: int, draws: seq<nat>)
    ensures var r := EntitiesAtRandom(table, count, floor, draws);
      && (r.Err? <==> Eligible(table, floor).Err? || Eligible(table, floor).value == [])
      && (Eligible(table, floor).Ok? && Eligible(table, floor).value == [] ==> r == Err(EmptyPopulation))
      && (r.Ok? ==> |r.value| == count)
      && (r.Ok? ==> forall i :: 0 <= i < count ==> r.value[i] in Names(Eligible(table, floor).value))
  {
    var e := Eligible(table, floor);
    var r := EntitiesAtRandom(table, count, floor, draws);
    if e.Ok? {
      var ns, ws := Names(e.value), Weights(e.value);
      assert r == Choices(ns, ws, count, draws);
      if 0 < |ws| {
        forall i | 0 <= i < count ensures r.value[i] in ns {
          var j := ChoiceIndex(ws, RandomReal(DrawAt(draws, i)));
          assert r.value[i] == ns[j];
        }
      }
    }
  }

  /** get_entities_at_random: gathers the eligible entities and their chances
      in a loop, then draws. */
  method GetEntitiesAtRandom(table: Table, count: int, floor: int, draws: seq<nat>) returns (r: Result<seq<Template>>)
    ensures r == EntitiesAtRandom(table, count, floor, draws)
  {
    var entities: seq<Template> := [];
    var chances: seq<real> := [];
    var k := 0;
    while k < |table|
      invariant k <= |table|
      invariant Eligible(table[..k], floor).Ok?
      invariant entities == Names(Eligible(table[..k], floor).value)
      invariant chances == Weights(Eligible(table[..k], floor).value)
    {
      var chance := Evaluate(table[k].1, floor as real);
      EligibleSnoc(table[..k], table[k], floor);
      assert table[..k + 1] == table[..k] + [table[k]];
      if chance.Err? {
        EligibleAppend(table[..k + 1], table[k + 1..], floor);
        assert table[..k + 1] + table[k + 1..] == table;
        return Err(chance.error);
      }
      ghost var before := Eligible(table[..k], floor).value;
      if 0.0 < chance.value {
        NamesWeightsAppend(before, [(table[k].0, chance.value)]);
        entities := entities + [table[k].0];
        chances := chances + [chance.value];
      } else {
        assert before + [] == before;
      }
      k := k + 1;
    }
    assert table[..k] == table;
    r := Choices(entities, chances, count, draws);
  }

  /** The enemy table filtered at a floor, given the two curves' values
      there. */
  lemma EnemiesEligible(floor: int, orc: real, troll: real)
    requires Evaluate(OrcCurve, floor as real) == Ok(orc)
    requires Evaluate(TrollCurve, floor as real) == Ok(troll)
    ensures Eligible(EnemyChances, floor) ==
      Ok((if 0.0 < orc then [(Orc, orc)] else []) + (if 0.0 < troll then [(Troll, troll)] else []))
  {
    EligibleSnoc([], (Orc, OrcCurve), floor);
    EligibleSnoc([(Orc, OrcCurve)], (Troll, TrollCurve), floor);
    assert [] + [(Orc, OrcCurve)] == [(Orc, OrcCurve)];
    assert [(Orc, OrcCurve)] + [(Troll, TrollCurve)] == EnemyChances;
    assert Eligible([], floor) == Ok([]);
    assert [] + (if 0.0 < orc then [(Orc, orc)] else []) == (if 0.0 < orc then [(Orc, orc)] else []);
  }

  /** The orc's weight is 80 on every floor. */
  lemma OrcWeight(floor: int)
    ensures Evaluate(OrcCurve, floor as real) == Ok(80.0)
  {
    CurvesIncreasing();
    EvaluateOutsideRange(OrcCurve, floor as real);
  }

  /** A table whose every curve evaluates at the floor filters without
      raising. */
  lemma {:induction false} EligibleOk(table: Table, floor: int)
    requires forall k :: 0 <= k < |table| ==> Evaluate(table[k].1, floor as real).Ok?
    ensures Eligible(table, floor).Ok?
    decreases |table|
  {
    if 0 < |table| {
      EligibleOk(table[1..], floor);
    }
  }

  /** The enemy table filters without raising on every floor, and the orc,
      always weighted 80, comes first. */
  lemma EnemiesAlwaysEligible(floor: int)
    ensures Eligible(EnemyChances, floor).Ok?
    ensures 0 < |Eligible(EnemyChances, floor).value|
    ensures Eligible(EnemyChances, floor).value[0] == (Orc, 80.0)
  {
    CurvesIncreasing();
    OrcWeight(floor);
    EvaluateFails(TrollCurve, floor as real);
    var troll := Evaluate(TrollCurve, floor as real).value;
    EnemiesEligible(floor, 80.0, troll);
  }

  /** The item table filters without raising on every floor, and the health
      potion, always weighted 35, comes first. */
  lemma ItemsAlwaysEligible(floor: int)
    ensures Eligible(ItemCurvesByFloor, floor).Ok?
    ensures 0 < |Eligible(ItemCurvesByFloor, floor).value|
    ensures Eligible(ItemCurvesByFloor, floor).value[0] == (HealthPotion, 35.0)
  {
    CurvesIncreasing();
    forall k | 0 <= k < |ItemCurvesByFloor| ensures Evaluate(ItemCurvesByFloor[k].1, floor as real).Ok? {
      EvaluateFails(ItemCurvesByFloor[k].1, floor as real);
    }
    EligibleOk(ItemCurvesByFloor, floor);
    EligibleOk(ItemCurvesByFloor[1..], floor);
    EvaluateOutsideRange(HealthPotionByFloor, floor as real);
  }

  /** On floor 1 only the orc is eligible, so every pick is an orc. */
  lemma EnemiesOnFloorOne(count: nat, draws: seq<nat>)
    ensures Eligible(EnemyChances, 1) == Ok([(Orc, 80.0)])
    ensures EntitiesAtRandom(EnemyChances, count, 1, draws) == Ok(seq(count, i => Orc))
  {
    CurvesIncreasing();
    OrcWeight(1);
    EvaluateOutsideRange(TrollCurve, 1.0);
    EnemiesEligible(1, 80.0, 0.0);
    assert [(Orc, 80.0)] + [] == [(Orc, 80.0)];
    var es := [(Orc, 80.0)];
    assert Names(es) == [Orc];
    var r := Choices(Names(es), Weights(es), count, draws);
    assert EntitiesAtRandom(EnemyChances, count, 1, draws) == r;
    assert r.value == seq(count, i => Orc);
  }

  /** From floor 3 on, orcs and trolls are both eligible, the troll weighted
      by its curve: 15 on floor 3, 30 on floor 5, 60 from floor 7. */
  lemma EnemiesOnFloorThree()
    ensures Eligible(EnemyChances, 3) == Ok([(Orc, 80.0), (Troll, 15.0)])
  {
    CurvesIncreasing();
    OrcWeight(3);
    EvaluateAtControlPoint(TrollCurve, 1);
    assert TrollCurve[1] == Point(3.0, 15.0);
    EnemiesEligible(3, 80.0, 15.0);
    assert [(Orc, 80.0)] + [(Troll, 15.0)] == [(Orc, 80.0), (Troll, 15.0)];
  }

  lemma EnemiesOnFloorFive()
    ensures Eligible(EnemyChances, 5) == Ok([(Orc, 80.0), (Troll, 30.0)])
  {
    CurvesIncreasing();
    OrcWeight(5);
    EvaluateAtControlPoint(TrollCurve, 2);
    assert TrollCurve[2] == Point(5.0, 30.0);
    EnemiesEligible(5, 80.0, 30.0);
    assert [(Orc, 80.0)] + [(Troll, 30.0)] == [(Orc, 80.0), (Troll, 30.0)];
  }

  lemma EnemiesOnFloorSeven()
    ensures Eligible(EnemyChances, 7) == Ok([(Orc, 80.0), (Troll, 60.0)])
  {
    CurvesIncreasing();
    OrcWeight(7);
    EvaluateAtControlPoint(TrollCurve, 3);
    assert TrollCurve[3] == Point(7.0, 60.0);
    EnemiesEligible(7, 80.0, 60.0);
    assert [(Orc, 80.0)] + [(Troll, 60.0)] == [(Orc, 80.0), (Troll, 60.0)];
  }

  /** Between an orc (weight 80) and a troll of weight w, a pick is an orc
      exactly when random() * (80 + w) < 80. */
  lemma OrcOrTroll(w: real, u: real)
    requires 0.0 < w && 0.0 <= u < 1.0
    ensures ChoiceIndex([80.0, w], u) == 0 <==> u * (80.0 + w) < 80.0
  {
    var ws := [80.0, w];
    ChoiceIndexWindow(ws, u, 0);
    assert ws[..1] == [80.0];
    assert Sum(ws[..0]) == 0.0;
    assert Sum([80.0]) == 80.0;
    assert ws[..2] == ws;
    assert Total(ws) == 80.0 + w;
    ScaleEqual(u, Total(ws), 80.0 + w);
  }

}
