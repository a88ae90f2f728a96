/**
 * The pure parts of undersample.py: deduplication by building id, the
 * per-class support and the target number of samples per city and class
 * (calc_num_samples_per_city_and_class), and the filter / shuffle / split
 * of one city and class (random_city_split).
 */
module Undersample {
  import opened Common

  /** One row of the buildings table: the columns the script reads, and the others. */
  datatype Row = Row(buildingId: int, city: string, cls: string, others: seq<string>)

  /**
   * DataFrame.sample(frac=1.0, random_state=SEED): a fixed reordering that
   * depends on nothing but its input, and keeps its length. sample(n=k,
   * random_state=SEED) draws the first k rows of the same reordering.
   */
  type Shuffle = f: seq<Row> -> seq<Row> | forall s :: |f(s)| == |s| witness (s: seq<Row>) => s

  /** The reordering is a permutation: it keeps every row, as often as it occurs. */
  ghost predicate KeepsRows(shuffle: Shuffle) {
    forall s :: multiset(shuffle(s)) == multiset(s)
  }

  function Ids(rows: seq<Row>): set<int> {
    set x | x in rows :: x.buildingId
  }

  predicate UniqueIds(rows: seq<Row>) {
    forall i, j :: 0 <= i < j < |rows| ==> rows[i].buildingId != rows[j].buildingId
  }

  /** Row k is the first row of its building id. */
  predicate FirstOccurrence(rows: seq<Row>, k: int)
    requires 0 <= k < |rows|
  {
    forall j :: 0 <= j < k ==> rows[j].buildingId != rows[k].buildingId
  }

  /** drop_duplicates(subset="building_id"): keep the first row of every building id, in order. */
  function DropDuplicates(rows: seq<Row>): (r: seq<Row>)
    ensures UniqueIds(r) && Ids(r) == Ids(rows)
    ensures forall x :: x in r ==> x in rows
    decreases |rows|
  {
    if rows == [] then []
    else
      var init := rows[..|rows| - 1];
      var p := DropDuplicates(init);
      var x := rows[|rows| - 1];
      assert rows == init + [x];
      assert Ids(rows) == Ids(init) + {x.buildingId};
      if x.buildingId in Ids(p) then p
      else
        AppendNewId(p, x);
        p + [x]
  }

  /** A row with a new building id keeps the ids unique when appended. */
  lemma AppendNewId(p: seq<Row>, x: Row)
    requires UniqueIds(p) && x.buildingId !in Ids(p)
    ensures UniqueIds(p + [x]) && Ids(p + [x]) == Ids(p) + {x.buildingId}
  {
    assert forall i :: 0 <= i < |p| ==> p[i].buildingId in Ids(p);
  }

  /** Below the last row, being a first occurrence does not depend on the last row. */
  lemma FirstOccurrenceOfInit(rows: seq<Row>, k: int)
    requires 0 <= k < |rows| - 1
    ensures FirstOccurrence(rows[..|rows| - 1], k) == FirstOccurrence(rows, k)
  {
  }

  /** The last row is kept exactly when it is the first row of its building id. */
  lemma DropDuplicatesLast(rows: seq<Row>)
    requires rows != []
    ensures var n := |rows| - 1;
      DropDuplicates(rows) == if FirstOccurrence(rows, n) then DropDuplicates(rows[..n]) + [rows[n]] else DropDuplicates(rows[..n])
  {
    var n := |rows| - 1;
    var p := DropDuplicates(rows[..n]);
    if rows[n].buildingId in Ids(p) {
      LastSeen(rows);
    } else {
      LastUnseen(rows);
    }
  }

  /** A last row whose id deduplication of the rows before it already kept is not a first occurrence. */
  lemma LastSeen(rows: seq<Row>)
    requires rows != [] && rows[|rows| - 1].buildingId in Ids(DropDuplicates(rows[..|rows| - 1]))
    ensures !FirstOccurrence(rows, |rows| - 1)
  {
    var n := |rows| - 1;
    var init := rows[..n];
    var y :| y in DropDuplicates(init) && y.buildingId == rows[n].buildingId;
    assert y in init;
    var k :| 0 <= k < |init| && init[k] == y;
    assert rows[k].buildingId == rows[n].buildingId;
  }

  /** A last row whose id deduplication of the rows before it did not keep is a first occurrence. */
  lemma LastUnseen(rows: seq<Row>)
    requires rows != [] && rows[|rows| - 1].buildingId !in Ids(DropDuplicates(rows[..|rows| - 1]))
    ensures FirstOccurrence(rows, |rows| - 1)
  {
    var n := |rows| - 1;
    var init := rows[..n];
    forall j | 0 <= j < n ensures rows[j].buildingId != rows[n].buildingId {
      assert init[j] in init;
      assert init[j].buildingId in Ids(init);
    }
  }

  /** Adding a row keeps what deduplication kept before, and keeps the new row when it is a first occurrence. */
  lemma DropDuplicatesGrows(rows: seq<Row>)
    requires rows != []
    ensures forall y :: y in DropDuplicates(rows[..|rows| - 1]) ==> y in DropDuplicates(rows)
    ensures FirstOccurrence(rows, |rows| - 1) ==> rows[|rows| - 1] in DropDuplicates(rows)
  {
    var n := |rows| - 1;
    DropDuplicatesLast(rows);
    var p := DropDuplicates(rows[..n]);
    if FirstOccurrence(rows, n) {
      assert DropDuplicates(rows) == p + [rows[n]];
    }
  }

  /** Every row deduplication keeps is the first row of its building id. */
  lemma {:induction false} DropDuplicatesKeepsOnlyFirst(rows: seq<Row>)
    ensures forall x :: x in DropDuplicates(rows) ==> exists k :: 0 <= k < |rows| && rows[k] == x && FirstOccurrence(rows, k)
    decreases |rows|
  {
    if rows != [] {
      var n := |rows| - 1;
      var init := rows[..n];
      DropDuplicatesKeepsOnlyFirst(init);
      DropDuplicatesLast(rows);
      forall y | y in DropDuplicates(rows) ensures exists k :: 0 <= k < |rows| && rows[k] == y && FirstOccurrence(rows, k) {
        if y in DropDuplicates(init) {
          var k :| 0 <= k < n && init[k] == y && FirstOccurrence(init, k);
          FirstOccurrenceOfInit(rows, k);
          assert rows[k] == y;
        } else {
          assert rows[n] == y;
        }
      }
    }
  }

  /** The first row of every building id is kept. */
  lemma {:induction false} DropDuplicatesKeepsEveryFirst(rows: seq<Row>)
    ensures forall k :: 0 <= k < |rows| && FirstOccurrence(rows, k) ==> rows[k] in DropDuplicates(rows)
    decreases |rows|
  {
    if rows != [] {
      var n := |rows| - 1;
      var init := rows[..n];
      DropDuplicatesKeepsEveryFirst(init);
      DropDuplicatesGrows(rows);
      var r := DropDuplicates(rows);
      forall k | 0 <= k < |rows| && FirstOccurrence(rows, k) ensures rows[k] in r {
        if k < n {
          FirstOccurrenceOfInit(rows, k);
          assert init[k] == rows[k];
        }
      }
    }
  }

  /** The rows of one class. */
  function ClassRows(rows: seq<Row>, cls: string): (r: seq<Row>)
    ensures forall x :: x in r <==> x in rows && x.cls == cls
    ensures |r| <= |rows|
  {
    if rows == [] then []
    else (if rows[0].cls == cls then [rows[0]] else []) + ClassRows(rows[1..], cls)
  }

  /** data[data["city"] == city][data["class"] == cls], in table order. */
  function Subset(rows: seq<Row>, city: string, cls: string): (r: seq<Row>)
    ensures forall x :: x in r <==> x in rows && x.city == city && x.cls == cls
    ensures |r| <= |rows|
  {
    if rows == [] then []
    else (if rows[0].city == city && rows[0].cls == cls then [rows[0]] else []) + Subset(rows[1..], city, cls)
  }

  /** The city column. */
  function CityColumn(rows: seq<Row>): (r: seq<string>)
    ensures forall v :: v in r <==> exists x :: x in rows && x.city == v
  {
    if rows == [] then [] else [rows[0].city] + CityColumn(rows[1..])
  }

  /** The class column. */
  function ClassColumn(rows: seq<Row>): (r: seq<string>)
    ensures forall v :: v in r <==> exists x :: x in rows && x.cls == v
  {
    if rows == [] then [] else [rows[0].cls] + ClassColumn(rows[1..])
  }

  /** The distinct values of a column, in order of first appearance. */
  function Uniq(xs: seq<string>): (r: seq<string>)
    ensures Distinct(r)
    ensures forall v :: v in r <==> v in xs
    decreases |xs|
  {
    if xs == [] then []
    else
      var p := Uniq(xs[..|xs| - 1]);
      var v := xs[|xs| - 1];
      assert xs == xs[..|xs| - 1] + [v];
      if v in p then p else p + [v]
  }

  /** groupby("class").nunique()["building_id"]: the number of distinct building ids of a class. */
  function ClassSupport(rows: seq<Row>, cls: string): nat {
    |set x | x in rows && x.cls == cls :: x.buildingId|
  }

  /** The least support over the listed classes. */
  function MinSupport(rows: seq<Row>, classes: seq<string>): (m: nat)
    requires classes != []
    ensures forall c :: c in classes ==> m <= ClassSupport(rows, c)
    ensures exists c :: c in classes && m == ClassSupport(rows, c)
  {
    if |classes| == 1 then ClassSupport(rows, classes[0])
    else
      var m := MinSupport(rows, classes[1..]);
      assert forall c :: c in classes ==> c == classes[0] || c in classes[1..];
      if ClassSupport(rows, classes[0]) < m then ClassSupport(rows, classes[0]) else m
  }

  /** What calc_num_samples_per_city_and_class returns: cities, classes and the target per city and class. */
  datatype Stats = Stats(cities: seq<string>, classes: seq<string>, perCity: nat)

  lemma DivTimesBelow(m: nat, k: nat)
    requires k > 0
    ensures 0 <= m / k && (m / k) * k <= m
  {
  }

  /**
   * calc_num_samples_per_city_and_class: the distinct cities and classes,
   * and d = (least class support) // (number of cities). On an empty
   * table there are no groups and the target is undefined (None).
   */
  function SamplesPerCityAndClass(rows: seq<Row>): (s: Option<Stats>)
    ensures s.None? <==> rows == []
    ensures s.Some? ==>
      && Distinct(s.value.cities) && Distinct(s.value.classes)
      && |s.value.cities| > 0 && |s.value.classes| > 0
      && (forall v :: v in s.value.cities <==> exists x :: x in rows && x.city == v)
      && (forall v :: v in s.value.classes <==> exists x :: x in rows && x.cls == v)
      && (forall c :: c in s.value.classes ==> s.value.perCity * |s.value.cities| <= ClassSupport(rows, c))
      && (exists c :: c in s.value.classes && s.value.perCity == ClassSupport(rows, c) / |s.value.cities|)
  {
    if rows == [] then None
    else
      var cities := Uniq(CityColumn(rows));
      var classes := Uniq(ClassColumn(rows));
      assert rows[0].city in cities && rows[0].cls in classes;
      var m := MinSupport(rows, classes);
      DivTimesBelow(m, |cities|);
      var d := m / |cities|;
      assert forall c :: c in classes ==> d * |cities| <= m <= ClassSupport(rows, c);
      Some(Stats(cities, classes, d))
  }

  /** What random_city_split returns: the taken rows, the excess rows (None when there are none) and the missing count. */
  datatype Split = Split(taken: seq<Row>, excess: Option<seq<Row>>, missing: nat)

  /** The excess rows as a list, empty for None. */
  function ExcessRows(s: Split): seq<Row> {
    if s.excess.Some? then s.excess.value else []
  }

  /**
   * random_city_split: shuffle the rows of the city and class; with n of
   * them and target d, take the first min(n, d) and return the rest as
   * excess when n > d, or report d - n missing when n < d.
   */
  function RandomCitySplit(rows: seq<Row>, city: string, cls: string, d: nat, shuffle: Shuffle): (s: Split)
    ensures var n := |Subset(rows, city, cls)|;
      && |s.taken| == (if n < d then n else d)
      && s.missing == (if n < d then d - n else 0)
      && (s.excess.None? <==> n <= d)
      && (s.excess.Some? ==> |s.excess.value| == n - d > 0)
  {
    var base := Subset(rows, city, cls);
    var subset := shuffle(base);
    var n := |subset|;
    if n < d then Split(subset, None, d - n)
    else if n > d then Split(subset[..d], Some(subset[d..]), 0)
    else Split(subset, None, 0)
  }

  /** The taken rows followed by the excess rows are the shuffled rows of the city and class, in that order. */
  lemma RandomCitySplitJoins(rows: seq<Row>, city: string, cls: string, d: nat, shuffle: Shuffle)
    ensures var s := RandomCitySplit(rows, city, cls, d, shuffle);
      s.taken + ExcessRows(s) == shuffle(Subset(rows, city, cls))
  {
    var shuffled := shuffle(Subset(rows, city, cls));
    if |shuffled| > d {
      SplitJoin(shuffled, d);
    }
  }

  /** With a shuffle that only reorders, the split loses and duplicates none of the rows of the city and class. */
  lemma RandomCitySplitKeepsRows(rows: seq<Row>, city: string, cls: string, d: nat, shuffle: Shuffle)
    requires KeepsRows(shuffle)
    ensures var s := RandomCitySplit(rows, city, cls, d, shuffle);
      multiset(s.taken) + multiset(ExcessRows(s)) == multiset(Subset(rows, city, cls))
  {
    var s := RandomCitySplit(rows, city, cls, d, shuffle);
    var subset := Subset(rows, city, cls);
    RandomCitySplitJoins(rows, city, cls, d, shuffle);
    assert multiset(s.taken + ExcessRows(s)) == multiset(shuffle(subset)) == multiset(subset);
  }

  /** The split only returns rows of the requested city and class. */
  lemma RandomCitySplitRows(rows: seq<Row>, city: string, cls: string, d: nat, shuffle: Shuffle)
    requires KeepsRows(shuffle)
    ensures var s := RandomCitySplit(rows, city, cls, d, shuffle);
      forall x :: x in s.taken || x in ExcessRows(s) ==> x in rows && x.city == city && x.cls == cls
  {
    var s := RandomCitySplit(rows, city, cls, d, shuffle);
    var subset := Subset(rows, city, cls);
    RandomCitySplitKeepsRows(rows, city, cls, d, shuffle);
    PartsMembers(s.taken, ExcessRows(s), subset);
  }
}
