/**
 * What undersample.py's balancing achieves: after the first loop each
 * class's missing count and excess pieces are sums over the cities; the
 * backfill never asks for more rows than the excess holds; and when it
 * succeeds every class ends with exactly (number of cities) * d rows.
 */
module BalanceFacts {
  import opened Common
  import opened Undersample
  import opened Balance

  /** n for one city and class: the number of its rows. */
  function Have(rows: seq<Row>, city: string, c: string): nat {
    |Subset(rows, city, c)|
  }

  /** The number of rows of class c. */
  function Count(rows: seq<Row>, c: string): nat {
    |ClassRows(rows, c)|
  }

  /** Sum over the cities of max(0, d - n). */
  function ShortfallTotal(rows: seq<Row>, cities: seq<string>, c: string, d: nat): nat
    decreases |cities|
  {
    if cities == [] then 0
    else
      var n := |cities| - 1;
      var h := Have(rows, cities[n], c);
      ShortfallTotal(rows, cities[..n], c, d) + (if h < d then d - h else 0)
  }

  /** Sum over the cities of max(0, n - d). */
  function OverTotal(rows: seq<Row>, cities: seq<string>, c: string, d: nat): nat
    decreases |cities|
  {
    if cities == [] then 0
    else
      var n := |cities| - 1;
      var h := Have(rows, cities[n], c);
      OverTotal(rows, cities[..n], c, d) + (if h > d then h - d else 0)
  }

  /** Sum over the cities of min(n, d). */
  function CappedTotal(rows: seq<Row>, cities: seq<string>, c: string, d: nat): nat
    decreases |cities|
  {
    if cities == [] then 0
    else
      var n := |cities| - 1;
      var h := Have(rows, cities[n], c);
      CappedTotal(rows, cities[..n], c, d) + (if h < d then h else d)
  }

  /** Sum over the cities of n. */
  function HaveTotal(rows: seq<Row>, cities: seq<string>, c: string): nat
    decreases |cities|
  {
    if cities == [] then 0
    else
      var n := |cities| - 1;
      HaveTotal(rows, cities[..n], c) + Have(rows, cities[n], c)
  }

  /** The cities that hold more than d rows of class c, in order. */
  function CitiesOver(rows: seq<Row>, cities: seq<string>, c: string, d: nat): seq<string>
    decreases |cities|
  {
    if cities == [] then []
    else
      var n := |cities| - 1;
      CitiesOver(rows, cities[..n], c, d) + (if Have(rows, cities[n], c) > d then [cities[n]] else [])
  }

  /** Sum over the cities of the missing counts the splitter reports for class c. */
  function MissingTotal(split: Splitter, cities: seq<string>, c: string): nat
    decreases |cities|
  {
    if cities == [] then 0
    else
      var n := |cities| - 1;
      MissingTotal(split, cities[..n], c) + split(cities[n], c).missing
  }

  /** Sum over the cities of the number of rows the splitter takes for class c. */
  function TakenTotal(split: Splitter, cities: seq<string>, c: string): nat
    decreases |cities|
  {
    if cities == [] then 0
    else
      var n := |cities| - 1;
      TakenTotal(split, cities[..n], c) + |split(cities[n], c).taken|
  }

  /** Sum over the cities of the number of excess rows the splitter returns for class c. */
  function SurplusTotal(split: Splitter, cities: seq<string>, c: string): nat
    decreases |cities|
  {
    if cities == [] then 0
    else
      var n := |cities| - 1;
      SurplusTotal(split, cities[..n], c) + |ExcessRows(split(cities[n], c))|
  }

  /** The excess pieces of class c, one per city for which the splitter returns some, in city order. */
  function ExcessPieces(split: Splitter, cities: seq<string>, c: string): seq<seq<Row>>
    decreases |cities|
  {
    if cities == [] then []
    else
      var n := |cities| - 1;
      var s := split(cities[n], c);
      ExcessPieces(split, cities[..n], c) + (if s.excess.Some? then [s.excess.value] else [])
  }

  /** The splitter only takes rows of the table of the requested class. */
  ghost predicate TakesFrom(split: Splitter, rows: seq<Row>) {
    forall city, cls, x :: x in split(city, cls).taken ==> x in rows && x.cls == cls
  }

  /** The splitter only returns excess rows of the table of the requested class. */
  ghost predicate SpillsFrom(split: Splitter, rows: seq<Row>) {
    forall city, cls, x :: x in ExcessRows(split(city, cls)) ==> x in rows && x.cls == cls
  }

  /** Every row of every piece is a row of the table. */
  predicate Within(parts: seq<seq<Row>>, rows: seq<Row>) {
    forall i, x :: 0 <= i < |parts| && x in parts[i] ==> x in rows
  }

  /** Every row of every piece is a row of the table of class c. */
  predicate OfClass(parts: seq<seq<Row>>, rows: seq<Row>, c: string) {
    forall i, x :: 0 <= i < |parts| && x in parts[i] ==> x in rows && x.cls == c
  }

  // ---------------------------------------------------------------------
  // Counting rows of one class

  lemma {:induction false} ClassRowsAppend(a: seq<Row>, b: seq<Row>, c: string)
    ensures ClassRows(a + b, c) == ClassRows(a, c) + ClassRows(b, c)
  {
    if a == [] {
      assert a + b == b;
    } else {
      assert (a + b)[0] == a[0];
      assert (a + b)[1..] == a[1..] + b;
      ClassRowsAppend(a[1..], b, c);
    }
  }

  /** A piece whose rows all have one class counts fully for it and not at all for another. */
  lemma {:induction false} CountOfOneClass(s: seq<Row>, cls: string, c: string)
    requires forall x :: x in s ==> x.cls == cls
    ensures Count(s, c) == if c == cls then |s| else 0
  {
    if s != [] {
      assert s[0] in s;
      assert forall x :: x in s[1..] ==> x in s;
      CountOfOneClass(s[1..], cls, c);
    }
  }

  /** Concatenating the pieces and one more adds that piece's count. */
  lemma CountSnoc(parts: seq<seq<Row>>, piece: seq<Row>, c: string)
    ensures Count(Concat(parts + [piece]), c) == Count(Concat(parts), c) + Count(piece, c)
  {
    ConcatSnoc(parts, piece);
    ClassRowsAppend(Concat(parts), piece, c);
  }

  /** The rows of a concatenation of pieces within the table are rows of the table. */
  lemma ConcatWithin(parts: seq<seq<Row>>, rows: seq<Row>)
    requires Within(parts, rows)
    ensures forall x :: x in Concat(parts) ==> x in rows
  {
    ConcatMembers(parts);
  }

  /** The rows of a concatenation of pieces of class c are rows of the table of class c. */
  lemma ConcatOfClass(parts: seq<seq<Row>>, rows: seq<Row>, c: string)
    requires OfClass(parts, rows, c)
    ensures forall x :: x in Concat(parts) ==> x in rows && x.cls == c
  {
    ConcatMembers(parts);
  }

  // ---------------------------------------------------------------------
  // The first loop

  /** One recorded split adds to class c's missing count only when it is for class c. */
  lemma RecordMissing(t: Tally, cls: string, s: Split, c: string)
    requires cls in t.excess && cls in t.missing && c in t.missing
    ensures Record(t, cls, s).missing[c] == t.missing[c] + (if c == cls then s.missing else 0)
  {
  }

  /** One recorded split adds to class c's excess list only when it is for class c and has excess. */
  lemma RecordExcess(t: Tally, cls: string, s: Split, c: string)
    requires cls in t.excess && cls in t.missing && c in t.excess
    ensures Record(t, cls, s).excess[c] == t.excess[c] + (if c == cls && s.excess.Some? then [s.excess.value] else [])
  {
  }

  /** Cutting the last class off a repetition-free list. */
  lemma DistinctInit(classes: seq<string>)
    requires Distinct(classes) && classes != []
    ensures var n := |classes| - 1;
      && Distinct(classes[..n]) && classes[n] !in classes[..n]
      && (forall x :: x in classes <==> x in classes[..n] || x == classes[n])
  {
    var n := |classes| - 1;
    assert classes == classes[..n] + [classes[n]];
  }

  /** Visiting one city adds its missing count to every listed class c, and nothing to other classes. */
  lemma {:induction false} VisitClassesMissing(t: Tally, split: Splitter, city: string, classes: seq<string>, c: string)
    requires Tracks(t, classes) && Distinct(classes) && c in t.missing
    ensures VisitClasses(t, split, city, classes).missing[c] == t.missing[c] + (if c in classes then split(city, c).missing else 0)
    decreases |classes|
  {
    if classes != [] {
      var n := |classes| - 1;
      DistinctInit(classes);
      assert forall x :: x in classes[..n] ==> x in classes;
      VisitClassesMissing(t, split, city, classes[..n], c);
      var p := VisitClasses(t, split, city, classes[..n]);
      RecordMissing(p, classes[n], split(city, classes[n]), c);
    }
  }

  /** Visiting one city appends its excess piece, if any, to every listed class c, and nothing to other classes. */
  lemma {:induction false} VisitClassesExcess(t: Tally, split: Splitter, city: string, classes: seq<string>, c: string)
    requires Tracks(t, classes) && Distinct(classes) && c in t.excess
    ensures var s := split(city, c);
      VisitClasses(t, split, city, classes).excess[c] == t.excess[c] + (if c in classes && s.excess.Some? then [s.excess.value] else [])
    decreases |classes|
  {
    if classes != [] {
      var n := |classes| - 1;
      DistinctInit(classes);
      assert forall x :: x in classes[..n] ==> x in classes;
      VisitClassesExcess(t, split, city, classes[..n], c);
      var p := VisitClasses(t, split, city, classes[..n]);
      RecordExcess(p, classes[n], split(city, classes[n]), c);
      if c != classes[n] || split(city, c).excess.None? {
        assert p.excess[c] + [] == p.excess[c];
      }
    }
  }

  /**
   * Visiting one city adds its taken rows of class c to the pieces' count
   * of class c when c is listed, and keeps the pieces within the table.
   */
  lemma {:induction false} VisitClassesTaken(t: Tally, split: Splitter, rows: seq<Row>, city: string, classes: seq<string>, c: string)
    requires Tracks(t, classes) && Distinct(classes)
    requires TakesFrom(split, rows)
    ensures var r := VisitClasses(t, split, city, classes);
      && Count(Concat(r.dataset), c) == Count(Concat(t.dataset), c) + (if c in classes then |split(city, c).taken| else 0)
      && (Within(t.dataset, rows) ==> Within(r.dataset, rows))
    decreases |classes|
  {
    if classes != [] {
      var n := |classes| - 1;
      var last := classes[n];
      DistinctInit(classes);
      assert forall x :: x in classes[..n] ==> x in classes;
      VisitClassesTaken(t, split, rows, city, classes[..n], c);
      var p := VisitClasses(t, split, city, classes[..n]);
      var taken := split(city, last).taken;
      assert VisitClasses(t, split, city, classes).dataset == p.dataset + [taken];
      CountOfOneClass(taken, last, c);
      CountSnoc(p.dataset, taken, c);
      if Within(p.dataset, rows) {
        WithinSnoc(p.dataset, taken, rows);
      }
    }
  }

  /** Appending a piece of table rows keeps a list of pieces within the table. */
  lemma WithinSnoc(parts: seq<seq<Row>>, piece: seq<Row>, rows: seq<Row>)
    requires Within(parts, rows)
    requires forall x :: x in piece ==> x in rows
    ensures Within(parts + [piece], rows)
  {
    var e := parts + [piece];
    forall i, x | 0 <= i < |e| && x in e[i] ensures x in rows {
      if i < |parts| {
        assert e[i] == parts[i];
      }
    }
  }

  /** After the first loop, class c's missing count is the sum over the cities of the reported missing counts. */
  lemma {:induction false} FirstPassMissing(cities: seq<string>, classes: seq<string>, split: Splitter, c: string)
    requires Distinct(classes) && c in classes
    ensures FirstPass(cities, classes, split).missing[c] == MissingTotal(split, cities, c)
    decreases |cities|
  {
    if cities != [] {
      var n := |cities| - 1;
      FirstPassMissing(cities[..n], classes, split, c);
      VisitClassesMissing(FirstPass(cities[..n], classes, split), split, cities[n], classes, c);
    }
  }

  /** After the first loop, class c's excess list holds the cities' excess pieces, in city order. */
  lemma {:induction false} FirstPassExcess(cities: seq<string>, classes: seq<string>, split: Splitter, c: string)
    requires Distinct(classes) && c in classes
    ensures FirstPass(cities, classes, split).excess[c] == ExcessPieces(split, cities, c)
    decreases |cities|
  {
    if cities != [] {
      var n := |cities| - 1;
      FirstPassExcess(cities[..n], classes, split, c);
      VisitClassesExcess(FirstPass(cities[..n], classes, split), split, cities[n], classes, c);
    }
  }

  /** After the first loop, the pieces hold the taken rows of class c, and only rows of the table. */
  lemma {:induction false} FirstPassTaken(cities: seq<string>, classes: seq<string>, split: Splitter, rows: seq<Row>, c: string)
    requires TakesFrom(split, rows) && Distinct(classes) && c in classes
    ensures var t := FirstPass(cities, classes, split);
      Count(Concat(t.dataset), c) == TakenTotal(split, cities, c) && Within(t.dataset, rows)
    decreases |cities|
  {
    if cities != [] {
      var n := |cities| - 1;
      FirstPassTaken(cities[..n], classes, split, rows, c);
      VisitClassesTaken(FirstPass(cities[..n], classes, split), split, rows, cities[n], classes, c);
    }
  }

  /** The excess pieces of class c hold the surplus rows. */
  lemma {:induction false} ExcessPiecesLength(split: Splitter, cities: seq<string>, c: string)
    ensures TotalLength(ExcessPieces(split, cities, c)) == SurplusTotal(split, cities, c)
    decreases |cities|
  {
    if cities != [] {
      var n := |cities| - 1;
      ExcessPiecesLength(split, cities[..n], c);
      var s := split(cities[n], c);
      var p := ExcessPieces(split, cities[..n], c);
      if s.excess.Some? {
        ConcatSnoc(p, s.excess.value);
      } else {
        assert p + [] == p;
      }
    }
  }

  /** Every row of the excess pieces of class c is a row of the table of class c. */
  lemma {:induction false} ExcessPiecesOfClass(split: Splitter, cities: seq<string>, rows: seq<Row>, c: string)
    requires SpillsFrom(split, rows)
    ensures OfClass(ExcessPieces(split, cities, c), rows, c)
    decreases |cities|
  {
    if cities != [] {
      var n := |cities| - 1;
      ExcessPiecesOfClass(split, cities[..n], rows, c);
      var s := split(cities[n], c);
      var p := ExcessPieces(split, cities[..n], c);
      if s.excess.Some? {
        var e := p + [s.excess.value];
        forall i, x | 0 <= i < |e| && x in e[i] ensures x in rows && x.cls == c {
          if i < |p| {
            assert e[i] == p[i];
          } else {
            assert x in ExcessRows(s);
          }
        }
      } else {
        assert p + [] == p;
      }
    }
  }

  // ---------------------------------------------------------------------
  // random_city_split as the splitter

  /** For one (city, class) pair, the splitter built on random_city_split hands out only rows of the table of that class. */
  lemma SplitsOne(rows: seq<Row>, d: nat, shuffle: Shuffle, city: string, cls: string)
    requires KeepsRows(shuffle)
    ensures var s := Splits(rows, d, shuffle)(city, cls);
      forall x :: x in s.taken || x in ExcessRows(s) ==> x in rows && x.cls == cls
  {
    RandomCitySplitRows(rows, city, cls, d, shuffle);
  }

  /** With a reordering that keeps the rows, random_city_split only takes rows of the requested class. */
  lemma SplitsTake(rows: seq<Row>, d: nat, shuffle: Shuffle)
    requires KeepsRows(shuffle)
    ensures TakesFrom(Splits(rows, d, shuffle), rows)
  {
    forall city, cls ensures forall x :: x in Splits(rows, d, shuffle)(city, cls).taken ==> x in rows && x.cls == cls {
      SplitsOne(rows, d, shuffle, city, cls);
    }
  }

  /** With a reordering that keeps the rows, random_city_split only returns excess rows of the requested class. */
  lemma SplitsSpill(rows: seq<Row>, d: nat, shuffle: Shuffle)
    requires KeepsRows(shuffle)
    ensures SpillsFrom(Splits(rows, d, shuffle), rows)
  {
    forall city, cls ensures forall x :: x in ExcessRows(Splits(rows, d, shuffle)(city, cls)) ==> x in rows && x.cls == cls {
      SplitsOne(rows, d, shuffle, city, cls);
    }
  }

  /**
   * For random_city_split, the missing counts add up to the sum of
   * max(0, d - n), the excess rows to the sum of max(0, n - d), the taken
   * rows to the sum of min(n, d), and there is one excess piece per city
   * holding more than d rows.
   */
  lemma {:induction false} SplitsTotals(rows: seq<Row>, d: nat, shuffle: Shuffle, cities: seq<string>, c: string)
    ensures var split := Splits(rows, d, shuffle);
      && MissingTotal(split, cities, c) == ShortfallTotal(rows, cities, c, d)
      && SurplusTotal(split, cities, c) == OverTotal(rows, cities, c, d)
      && TakenTotal(split, cities, c) == CappedTotal(rows, cities, c, d)
      && |ExcessPieces(split, cities, c)| == |CitiesOver(rows, cities, c, d)|
    decreases |cities|
  {
    if cities != [] {
      var n := |cities| - 1;
      SplitsTotals(rows, d, shuffle, cities[..n], c);
      var s := Splits(rows, d, shuffle)(cities[n], c);
      assert s == RandomCitySplit(rows, cities[n], c, d, shuffle);
    }
  }

  // ---------------------------------------------------------------------
  // Sums over the cities

  lemma MulSucc(n: nat, d: nat)
    ensures (n + 1) * d == n * d + d
  {
  }

  /** min(n, d) + max(0, d - n) = d, summed over the cities. */
  lemma {:induction false} CappedPlusShortfall(rows: seq<Row>, cities: seq<string>, c: string, d: nat)
    ensures CappedTotal(rows, cities, c, d) + ShortfallTotal(rows, cities, c, d) == |cities| * d
    decreases |cities|
  {
    if cities != [] {
      var n := |cities| - 1;
      CappedPlusShortfall(rows, cities[..n], c, d);
      MulSucc(n, d);
    }
  }

  /** min(n, d) + max(0, n - d) = n, summed over the cities. */
  lemma {:induction false} CappedPlusOver(rows: seq<Row>, cities: seq<string>, c: string, d: nat)
    ensures CappedTotal(rows, cities, c, d) + OverTotal(rows, cities, c, d) == HaveTotal(rows, cities, c)
    decreases |cities|
  {
    if cities != [] {
      CappedPlusOver(rows, cities[..|cities| - 1], c, d);
    }
  }

  /** A city list is over the target somewhere exactly when some listed city holds more than d rows. */
  lemma {:induction false} CitiesOverEmpty(rows: seq<Row>, cities: seq<string>, c: string, d: nat)
    ensures CitiesOver(rows, cities, c, d) == [] <==> forall city :: city in cities ==> Have(rows, city, c) <= d
    decreases |cities|
  {
    if cities != [] {
      var n := |cities| - 1;
      CitiesOverEmpty(rows, cities[..n], c, d);
      assert forall city :: city in cities <==> city in cities[..n] || city == cities[n];
    }
  }

  /** A repetition-free list holds each of its elements once. */
  lemma {:induction false} DistinctOnce(cities: seq<string>, v: string)
    requires Distinct(cities)
    ensures multiset(cities)[v] == if v in cities then 1 else 0
    decreases |cities|
  {
    if cities != [] {
      var n := |cities| - 1;
      assert cities == cities[..n] + [cities[n]];
      assert Distinct(cities[..n]);
      DistinctOnce(cities[..n], v);
      assert forall x :: x in cities <==> x in cities[..n] || x == cities[n];
      assert cities[n] !in cities[..n];
    }
  }

  /** Adding one row in front adds one to the sum for its class, once per listing of its city. */
  lemma {:induction false} HaveTotalCons(x: Row, rest: seq<Row>, cities: seq<string>, c: string)
    ensures HaveTotal([x] + rest, cities, c) == HaveTotal(rest, cities, c) + (if x.cls == c then multiset(cities)[x.city] else 0)
    decreases |cities|
  {
    if cities != [] {
      var n := |cities| - 1;
      assert cities == cities[..n] + [cities[n]];
      HaveTotalCons(x, rest, cities[..n], c);
      assert ([x] + rest)[1..] == rest;
    }
  }

  /** Summed over a repetition-free list of every city, the per-city counts give the class count. */
  lemma {:induction false} HaveTotalIsCount(rows: seq<Row>, cities: seq<string>, c: string)
    requires Distinct(cities)
    requires forall x :: x in rows ==> x.city in cities
    ensures HaveTotal(rows, cities, c) == Count(rows, c)
    decreases |rows|
  {
    if rows == [] {
      HaveTotalEmpty(cities, c);
    } else {
      var x, rest := rows[0], rows[1..];
      assert rows == [x] + rest;
      assert forall y :: y in rest ==> y in rows;
      HaveTotalIsCount(rest, cities, c);
      HaveTotalCons(x, rest, cities, c);
      DistinctOnce(cities, x.city);
    }
  }

  lemma {:induction false} HaveTotalEmpty(cities: seq<string>, c: string)
    ensures HaveTotal([], cities, c) == 0
    decreases |cities|
  {
    if cities != [] {
      HaveTotalEmpty(cities[..|cities| - 1], c);
    }
  }

  /** Unique ids stay unique in the rows of one class. */
  lemma {:induction false} ClassRowsUnique(rows: seq<Row>, c: string)
    requires UniqueIds(rows)
    ensures UniqueIds(ClassRows(rows, c))
  {
    if rows != [] {
      ClassRowsUnique(rows[1..], c);
      var rest := ClassRows(rows[1..], c);
      forall y | y in rest ensures y.buildingId != rows[0].buildingId {
        var k :| 0 <= k < |rows[1..]| && rows[1..][k] == y;
        assert rows[k + 1] == y;
      }
    }
  }

  /** With unique ids, a list has as many ids as rows. */
  lemma {:induction false} IdsCard(s: seq<Row>)
    requires UniqueIds(s)
    ensures |Ids(s)| == |s|
  {
    if s != [] {
      var n := |s| - 1;
      IdsCard(s[..n]);
      assert Ids(s) == Ids(s[..n]) + {s[n].buildingId};
      assert s[n].buildingId !in Ids(s[..n]);
    }
  }

  /** After deduplication the support of a class is its number of rows. */
  lemma SupportIsCount(rows: seq<Row>, c: string)
    requires UniqueIds(rows)
    ensures ClassSupport(rows, c) == Count(rows, c)
  {
    ClassRowsUnique(rows, c);
    IdsCard(ClassRows(rows, c));
    assert (set x | x in rows && x.cls == c :: x.buildingId) == Ids(ClassRows(rows, c));
  }

  /**
   * The backfill request never exceeds the excess: the sum of the
   * shortfalls is at most the sum of the surpluses, because d times the
   * number of cities is at most the class's row count.
   */
  lemma MissingWithinSurplus(rows: seq<Row>, cities: seq<string>, c: string, d: nat)
    requires UniqueIds(rows) && Distinct(cities)
    requires forall x :: x in rows ==> x.city in cities
    requires d * |cities| <= ClassSupport(rows, c)
    ensures ShortfallTotal(rows, cities, c, d) <= OverTotal(rows, cities, c, d)
  {
    CappedPlusShortfall(rows, cities, c, d);
    CappedPlusOver(rows, cities, c, d);
    HaveTotalIsCount(rows, cities, c);
    SupportIsCount(rows, c);
  }

  // ---------------------------------------------------------------------
  // The backfill

  /** Every listed class has an excess list and a missing count, and asks for no more rows than its excess pieces hold. */
  predicate Fits(excess: map<string, seq<seq<Row>>>, missing: map<string, nat>, classes: seq<string>) {
    forall c :: c in classes ==> c in excess && c in missing && missing[c] <= TotalLength(excess[c])
  }

  /** Every listed class's excess pieces hold only rows of the table of that class. */
  predicate Spares(excess: map<string, seq<seq<Row>>>, rows: seq<Row>, classes: seq<string>) {
    forall c :: c in classes ==> c in excess && OfClass(excess[c], rows, c)
  }

  /** The first k rows of a reordering that keeps the rows are rows of the pool. */
  lemma SampleRows(pool: seq<Row>, k: nat, shuffle: Shuffle)
    requires KeepsRows(shuffle) && k <= |pool|
    ensures forall x :: x in shuffle(pool)[..k] ==> x in pool
  {
    forall x | x in shuffle(pool)[..k] ensures x in pool {
      assert x in multiset(shuffle(pool));
    }
  }

  /** The sample drawn from the excess pieces of class c: m rows, each a row of the table of class c. */
  lemma SampleOfClass(pieces: seq<seq<Row>>, rows: seq<Row>, c: string, m: nat, shuffle: Shuffle)
    requires KeepsRows(shuffle) && m <= TotalLength(pieces) && OfClass(pieces, rows, c)
    ensures |shuffle(Concat(pieces))[..m]| == m
    ensures forall x :: x in shuffle(Concat(pieces))[..m] ==> x in rows && x.cls == c
  {
    SampleRows(Concat(pieces), m, shuffle);
    ConcatOfClass(pieces, rows, c);
  }

  /**
   * When no class asks for more rows than its excess pieces hold, the
   * backfill raises only when some class has no excess piece at all, and
   * then it is the empty concatenation.
   */
  lemma {:induction false} BackfillOutcome(dataset: seq<seq<Row>>, excess: map<string, seq<seq<Row>>>, missing: map<string, nat>,
                                           classes: seq<string>, shuffle: Shuffle)
    requires Fits(excess, missing, classes)
    ensures var b := Backfill(dataset, excess, missing, classes, shuffle);
      && (b.Success? <==> forall c :: c in classes ==> excess[c] != [])
      && (b.Failure? ==> b.error == NothingToConcatenate)
    decreases |classes|
  {
    if classes != [] {
      var c0 := classes[0];
      assert forall x :: x in classes <==> x == c0 || x in classes[1..];
      if excess[c0] != [] {
        BackfillOutcome(dataset + [shuffle(Concat(excess[c0]))[..missing[c0]]], excess, missing, classes[1..], shuffle);
      }
    }
  }

  /** The backfill appends only rows of the table. */
  lemma {:induction false} BackfillWithin(dataset: seq<seq<Row>>, excess: map<string, seq<seq<Row>>>, missing: map<string, nat>,
                                          classes: seq<string>, shuffle: Shuffle, rows: seq<Row>)
    requires KeepsRows(shuffle) && Fits(excess, missing, classes) && Spares(excess, rows, classes)
    requires Within(dataset, rows)
    ensures var b := Backfill(dataset, excess, missing, classes, shuffle);
      b.Success? ==> Within(b.value, rows)
    decreases |classes|
  {
    if classes != [] {
      var c0 := classes[0];
      assert forall x :: x in classes[1..] ==> x in classes;
      if excess[c0] != [] {
        var sample := shuffle(Concat(excess[c0]))[..missing[c0]];
        SampleOfClass(excess[c0], rows, c0, missing[c0], shuffle);
        WithinSnoc(dataset, sample, rows);
        BackfillWithin(dataset + [sample], excess, missing, classes[1..], shuffle, rows);
      }
    }
  }

  /** One backfill step seen from the end: appending m rows of class c0 before the rest adds m to c0's count. */
  lemma CountsStep(dataset: seq<seq<Row>>, sample: seq<Row>, pieces: seq<seq<Row>>, missing: map<string, nat>,
                   c0: string, rest: seq<string>, classes: seq<string>)
    requires c0 in missing && |sample| == missing[c0] && forall x :: x in sample ==> x.cls == c0
    requires forall x :: x in classes <==> x == c0 || x in rest
    requires c0 !in rest && forall c :: c in rest ==> c in missing
    requires forall c :: Count(Concat(pieces), c) == Count(Concat(dataset + [sample]), c) + (if c in rest then missing[c] else 0)
    ensures forall c :: Count(Concat(pieces), c) == Count(Concat(dataset), c) + (if c in classes then missing[c] else 0)
  {
    forall c ensures Count(Concat(pieces), c) == Count(Concat(dataset), c) + (if c in classes then missing[c] else 0) {
      CountOfOneClass(sample, c0, c);
      CountSnoc(dataset, sample, c);
    }
  }

  /** The backfill appends, for every listed class c, exactly missing[c] rows of class c, and no row of any other class. */
  lemma {:induction false} BackfillCounts(dataset: seq<seq<Row>>, excess: map<string, seq<seq<Row>>>, missing: map<string, nat>,
                                          classes: seq<string>, shuffle: Shuffle, rows: seq<Row>)
    requires KeepsRows(shuffle) && Distinct(classes) && Fits(excess, missing, classes) && Spares(excess, rows, classes)
    ensures var b := Backfill(dataset, excess, missing, classes, shuffle);
      b.Success? ==> forall c :: Count(Concat(b.value), c) == Count(Concat(dataset), c) + (if c in classes then missing[c] else 0)
    decreases |classes|
  {
    if classes == [] {
      assert Backfill(dataset, excess, missing, classes, shuffle) == Success(dataset);
    } else {
      var c0, rest := classes[0], classes[1..];
      assert forall x :: x in classes <==> x == c0 || x in rest;
      DistinctTail(classes);
      if excess[c0] != [] {
        var sample := shuffle(Concat(excess[c0]))[..missing[c0]];
        SampleOfClass(excess[c0], rows, c0, missing[c0], shuffle);
        BackfillCounts(dataset + [sample], excess, missing, rest, shuffle, rows);
        var b := Backfill(dataset + [sample], excess, missing, rest, shuffle);
        assert b == Backfill(dataset, excess, missing, classes, shuffle);
        if b.Success? {
          CountsStep(dataset, sample, b.value, missing, c0, rest, classes);
        }
      } else {
        assert Backfill(dataset, excess, missing, classes, shuffle).Failure?;
      }
    }
  }

  // ---------------------------------------------------------------------
  // The whole balancing

  /** Deduplication empties only an empty table. */
  lemma DropDuplicatesEmpty(data: seq<Row>)
    ensures DropDuplicates(data) == [] <==> data == []
  {
    if data != [] {
      assert data[0].buildingId in Ids(data);
    }
  }

  /** The first loop on the deduplicated table, with the computed target. */
  function Pass(rows: seq<Row>, st: Stats, shuffle: Shuffle): Tally {
    FirstPass(st.cities, st.classes, Splits(rows, st.perCity, shuffle))
  }

  /** After the first loop, class c asks for the sum of its shortfalls, which its excess pieces can cover. */
  lemma PassFits(rows: seq<Row>, st: Stats, shuffle: Shuffle, c: string)
    requires UniqueIds(rows) && SamplesPerCityAndClass(rows) == Some(st) && c in st.classes
    ensures Pass(rows, st, shuffle).missing[c] <= TotalLength(Pass(rows, st, shuffle).excess[c])
  {
    var split := Splits(rows, st.perCity, shuffle);
    FirstPassMissing(st.cities, st.classes, split, c);
    FirstPassExcess(st.cities, st.classes, split, c);
    ExcessPiecesLength(split, st.cities, c);
    SplitsTotals(rows, st.perCity, shuffle, st.cities, c);
    assert forall x :: x in rows ==> x.city in st.cities;
    MissingWithinSurplus(rows, st.cities, c, st.perCity);
  }

  /**
   * After the first loop, the excess pieces of class c hold only its rows,
   * and there are none exactly when no city has more than d rows of c.
   */
  lemma PassSpares(rows: seq<Row>, st: Stats, shuffle: Shuffle, c: string)
    requires KeepsRows(shuffle) && SamplesPerCityAndClass(rows) == Some(st) && c in st.classes
    ensures OfClass(Pass(rows, st, shuffle).excess[c], rows, c)
    ensures Pass(rows, st, shuffle).excess[c] == [] <==> forall city :: city in st.cities ==> Have(rows, city, c) <= st.perCity
  {
    var split := Splits(rows, st.perCity, shuffle);
    SplitsSpill(rows, st.perCity, shuffle);
    FirstPassExcess(st.cities, st.classes, split, c);
    ExcessPiecesOfClass(split, st.cities, rows, c);
    SplitsTotals(rows, st.perCity, shuffle, st.cities, c);
    CitiesOverEmpty(rows, st.cities, c, st.perCity);
  }

  /** After the first loop, the rows kept of class c and its missing count add up to d per city. */
  lemma PassCount(rows: seq<Row>, st: Stats, shuffle: Shuffle, c: string)
    requires KeepsRows(shuffle) && SamplesPerCityAndClass(rows) == Some(st) && c in st.classes
    ensures Count(Concat(Pass(rows, st, shuffle).dataset), c) + Pass(rows, st, shuffle).missing[c] == |st.cities| * st.perCity
    ensures Within(Pass(rows, st, shuffle).dataset, rows)
  {
    var split := Splits(rows, st.perCity, shuffle);
    SplitsTake(rows, st.perCity, shuffle);
    FirstPassMissing(st.cities, st.classes, split, c);
    FirstPassTaken(st.cities, st.classes, split, rows, c);
    SplitsTotals(rows, st.perCity, shuffle, st.cities, c);
    CappedPlusShortfall(rows, st.cities, c, st.perCity);
  }

  /** The backfill's preconditions hold after the first loop. */
  lemma PassReady(rows: seq<Row>, st: Stats, shuffle: Shuffle)
    requires KeepsRows(shuffle) && UniqueIds(rows) && SamplesPerCityAndClass(rows) == Some(st)
    ensures var t := Pass(rows, st, shuffle);
      Fits(t.excess, t.missing, st.classes) && Spares(t.excess, rows, st.classes) && Within(t.dataset, rows)
  {
    var t := Pass(rows, st, shuffle);
    forall c | c in st.classes
      ensures c in t.excess && c in t.missing && t.missing[c] <= TotalLength(t.excess[c]) && OfClass(t.excess[c], rows, c)
    {
      PassFits(rows, st, shuffle, c);
      PassSpares(rows, st, shuffle, c);
    }
    assert rows != [] && rows[0].cls in st.classes;
    PassCount(rows, st, shuffle, rows[0].cls);
  }

  /** BalanceSpec once the table is known to be non-empty: the backfill after the first loop, concatenated. */
  lemma BalanceUnfold(data: seq<Row>, shuffle: Shuffle)
    requires data != []
    ensures var rows := DropDuplicates(data);
      && UniqueIds(rows)
      && SamplesPerCityAndClass(rows).Some?
      && var st := SamplesPerCityAndClass(rows).value;
         var t := Pass(rows, st, shuffle);
         var b := Backfill(t.dataset, t.excess, t.missing, st.classes, shuffle);
         BalanceSpec(data, shuffle) == if b.Success? then Success(Concat(b.value)) else Failure(b.error)
  {
    DropDuplicatesEmpty(data);
  }

  /**
   * The balancing never asks for a sample larger than its pool, and it
   * succeeds exactly when the table is not empty and every class has some
   * city holding more than d rows of it; otherwise it raises, on the empty
   * table or on the empty concatenation.
   */
  lemma BalanceSucceeds(data: seq<Row>, shuffle: Shuffle)
    requires KeepsRows(shuffle)
    ensures BalanceSpec(data, shuffle).Failure? ==>
      BalanceSpec(data, shuffle).error == if data == [] then EmptyTable else NothingToConcatenate
    ensures var rows := DropDuplicates(data);
      var st := SamplesPerCityAndClass(rows);
      BalanceSpec(data, shuffle).Success? <==>
        data != [] && forall c :: c in st.value.classes ==> exists city :: city in st.value.cities && Have(rows, city, c) > st.value.perCity
  {
    var rows := DropDuplicates(data);
    if data == [] {
      DropDuplicatesEmpty(data);
    } else {
      BalanceUnfold(data, shuffle);
      var st := SamplesPerCityAndClass(rows).value;
      var t := Pass(rows, st, shuffle);
      PassReady(rows, st, shuffle);
      BackfillOutcome(t.dataset, t.excess, t.missing, st.classes, shuffle);
      forall c | c in st.classes
        ensures t.excess[c] != [] <==> exists city :: city in st.cities && Have(rows, city, c) > st.perCity
      {
        PassSpares(rows, st, shuffle, c);
      }
    }
  }

  /** Every listed class has, between the rows kept so far and its missing count, the target number of rows. */
  predicate Reaches(t: Tally, classes: seq<string>, target: int) {
    forall c :: c in classes ==> c in t.missing && Count(Concat(t.dataset), c) + t.missing[c] == target
  }

  /** A backfill that succeeds brings every class that reaches the target to exactly the target. */
  lemma BackfillTotals(t: Tally, classes: seq<string>, shuffle: Shuffle, rows: seq<Row>, target: int)
    requires KeepsRows(shuffle) && Distinct(classes) && Fits(t.excess, t.missing, classes) && Spares(t.excess, rows, classes)
    requires Reaches(t, classes, target)
    ensures var b := Backfill(t.dataset, t.excess, t.missing, classes, shuffle);
      b.Success? ==> forall c :: c in classes ==> Count(Concat(b.value), c) == target
  {
    BackfillCounts(t.dataset, t.excess, t.missing, classes, shuffle, rows);
  }

  /** After the first loop every class reaches d rows per city. */
  lemma PassReaches(rows: seq<Row>, st: Stats, shuffle: Shuffle)
    requires KeepsRows(shuffle) && SamplesPerCityAndClass(rows) == Some(st)
    ensures Reaches(Pass(rows, st, shuffle), st.classes, |st.cities| * st.perCity)
  {
    var t, target := Pass(rows, st, shuffle), |st.cities| * st.perCity;
    forall c | c in st.classes
      ensures c in t.missing && Count(Concat(t.dataset), c) + t.missing[c] == target
    {
      PassCount(rows, st, shuffle, c);
    }
  }

  /** The backfill after the first loop, when it succeeds, leaves every class with d rows per city. */
  lemma PassBackfillCounts(rows: seq<Row>, st: Stats, shuffle: Shuffle)
    requires KeepsRows(shuffle) && UniqueIds(rows) && SamplesPerCityAndClass(rows) == Some(st)
    ensures var t := Pass(rows, st, shuffle);
      var b := Backfill(t.dataset, t.excess, t.missing, st.classes, shuffle);
      b.Success? ==> forall c :: c in st.classes ==> Count(Concat(b.value), c) == |st.cities| * st.perCity
  {
    PassReady(rows, st, shuffle);
    PassReaches(rows, st, shuffle);
    BackfillTotals(Pass(rows, st, shuffle), st.classes, shuffle, rows, |st.cities| * st.perCity);
  }

  /** When the balancing succeeds, every class of the table ends with exactly (number of cities) * d rows. */
  lemma BalanceEvensClasses(data: seq<Row>, shuffle: Shuffle)
    requires KeepsRows(shuffle)
    ensures var st := SamplesPerCityAndClass(DropDuplicates(data));
      var out := BalanceSpec(data, shuffle);
      out.Success? ==> st.Some? && forall c :: c in st.value.classes ==> Count(out.value, c) == |st.value.cities| * st.value.perCity
  {
    if data != [] {
      BalanceUnfold(data, shuffle);
      PassBackfillCounts(DropDuplicates(data), SamplesPerCityAndClass(DropDuplicates(data)).value, shuffle);
    }
  }

  /** When the balancing succeeds, every row of the result is a row of the input table. */
  lemma BalanceKeepsRows(data: seq<Row>, shuffle: Shuffle)
    requires KeepsRows(shuffle)
    ensures var out := BalanceSpec(data, shuffle);
      out.Success? ==> forall x :: x in out.value ==> x in data
  {
    if data != [] {
      BalanceUnfold(data, shuffle);
      var rows := DropDuplicates(data);
      var st := SamplesPerCityAndClass(rows).value;
      var t := Pass(rows, st, shuffle);
      PassReady(rows, st, shuffle);
      BackfillWithin(t.dataset, t.excess, t.missing, st.classes, shuffle, rows);
      var b := Backfill(t.dataset, t.excess, t.missing, st.classes, shuffle);
      if b.Success? {
        ConcatWithin(b.value, rows);
      }
    }
  }

  /** A class's rows in one city never outnumber its rows overall. */
  lemma {:induction false} SubsetWithinClass(rows: seq<Row>, city: string, c: string)
    ensures Have(rows, city, c) <= Count(rows, c)
  {
    if rows != [] {
      SubsetWithinClass(rows[1..], city, c);
    }
  }

  /** When some class has no more than d rows in any city, it has no excess rows and the script raises. */
  lemma ShortClassFails(data: seq<Row>, shuffle: Shuffle, c: string)
    requires KeepsRows(shuffle) && data != []
    requires var rows := DropDuplicates(data);
      var st := SamplesPerCityAndClass(rows);
      st.Some? && c in st.value.classes && forall city :: city in st.value.cities ==> Have(rows, city, c) <= st.value.perCity
    ensures BalanceSpec(data, shuffle) == Failure(NothingToConcatenate)
  {
    BalanceUnfold(data, shuffle);
    var rows := DropDuplicates(data);
    var st := SamplesPerCityAndClass(rows).value;
    var t := Pass(rows, st, shuffle);
    PassSpares(rows, st, shuffle, c);
    PassReady(rows, st, shuffle);
    BackfillOutcome(t.dataset, t.excess, t.missing, st.classes, shuffle);
  }

  /** A sequence without repetitions whose elements all equal v has at most one element. */
  lemma DistinctConstant(s: seq<string>, v: string)
    requires Distinct(s) && forall w :: w in s ==> w == v
    ensures |s| <= 1
  {
    DistinctCard(s);
    if s != [] {
      assert s[0] in s;
      assert (set x | x in s) == {v};
    }
  }

  /**
   * A table whose buildings all lie in one city always makes the script
   * raise: d is then the least class support itself, that class has no
   * excess rows, and concatenating its empty excess list fails.
   */
  lemma SingleCityFails(data: seq<Row>, shuffle: Shuffle)
    requires KeepsRows(shuffle)
    requires data != [] && forall x :: x in data ==> x.city == data[0].city
    ensures BalanceSpec(data, shuffle) == Failure(NothingToConcatenate)
  {
    var rows := DropDuplicates(data);
    DropDuplicatesEmpty(data);
    var st := SamplesPerCityAndClass(rows).value;
    DistinctConstant(st.cities, data[0].city);
    assert |st.cities| == 1;
    var c :| c in st.classes && st.perCity == ClassSupport(rows, c) / |st.cities|;
    SupportIsCount(rows, c);
    forall city | city in st.cities ensures Have(rows, city, c) <= st.perCity {
      SubsetWithinClass(rows, city, c);
    }
    ShortClassFails(data, shuffle, c);
  }
}
