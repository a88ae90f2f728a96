/**
 * The balancing procedure of undersample.py's main: a first pass over
 * every (city, class) pair that keeps up to d rows of each and collects
 * the excess rows and the missing counts per class, then a backfill that
 * draws each class's missing count from that class's excess rows, and the
 * concatenation of all pieces.
 */
module Balance {
  import opened Common
  import opened Undersample

  /** The accumulators of main: the pieces of the balanced table, the excess pieces and the missing count per class. */
  datatype Tally = Tally(dataset: seq<seq<Row>>, excess: map<string, seq<seq<Row>>>, missing: map<string, nat>)

  /** The per-class dictionaries have an entry for every listed class. */
  predicate Tracks(t: Tally, classes: seq<string>) {
    forall c :: c in classes ==> c in t.excess && c in t.missing
  }

  /** dataset = [], excess_list = {cls: [] ...}, missing_numbers = {cls: 0 ...} */
  function Start(classes: seq<string>): (t: Tally)
    ensures t.excess.Keys == (set c | c in classes) && t.missing.Keys == (set c | c in classes)
    ensures forall c :: c in classes ==> t.excess[c] == [] && t.missing[c] == 0
    ensures t.dataset == []
  {
    Tally([], map c | c in classes :: [], map c | c in classes :: 0)
  }

  /** The body of the first loop once random_city_split has answered: append the taken rows, file the excess, add the missing count. */
  function Record(t: Tally, cls: string, s: Split): (r: Tally)
    requires cls in t.excess && cls in t.missing
    ensures r.excess.Keys == t.excess.Keys && r.missing.Keys == t.missing.Keys
  {
    Tally(t.dataset + [s.taken],
      if s.excess.Some? then t.excess[cls := t.excess[cls] + [s.excess.value]] else t.excess,
      t.missing[cls := t.missing[cls] + s.missing])
  }

  /** random_city_split with the table, the target and the reordering fixed: (city, class) to its split. */
  type Splitter = (string, string) -> Split

  function Splits(rows: seq<Row>, d: nat, shuffle: Shuffle): Splitter {
    (city, cls) => RandomCitySplit(rows, city, cls, d, shuffle)
  }

  /** The iterations of the first loop for one city: its pairs with every class, in order. */
  function VisitClasses(t: Tally, split: Splitter, city: string, classes: seq<string>): (r: Tally)
    requires Tracks(t, classes)
    ensures r.excess.Keys == t.excess.Keys && r.missing.Keys == t.missing.Keys
    decreases |classes|
  {
    if classes == [] then t
    else
      var n := |classes| - 1;
      assert forall c :: c in classes[..n] ==> c in classes;
      var p := VisitClasses(t, split, city, classes[..n]);
      Record(p, classes[n], split(city, classes[n]))
  }

  /** One more class for the same city: the tally so far, recorded with that class's split. */
  lemma VisitClassesStep(t: Tally, split: Splitter, city: string, classes: seq<string>, j: nat)
    requires Tracks(t, classes) && j < |classes|
    ensures Tracks(t, classes[..j]) && Tracks(t, classes[..j + 1])
    ensures var p := VisitClasses(t, split, city, classes[..j]);
      && classes[j] in p.excess && classes[j] in p.missing
      && VisitClasses(t, split, city, classes[..j + 1]) == Record(p, classes[j], split(city, classes[j]))
  {
    assert classes[..j + 1][..j] == classes[..j] && classes[..j + 1][j] == classes[j];
    assert forall c :: c in classes[..j + 1] ==> c in classes;
  }

  /** The whole first loop: product(cities, classes), the city varying slowest. */
  function FirstPass(cities: seq<string>, classes: seq<string>, split: Splitter): (t: Tally)
    ensures t.excess.Keys == (set c | c in classes) && t.missing.Keys == (set c | c in classes)
    ensures Tracks(t, classes)
    decreases |cities|
  {
    if cities == [] then Start(classes)
    else
      var n := |cities| - 1;
      VisitClasses(FirstPass(cities[..n], classes, split), split, cities[n], classes)
  }

  /**
   * The ValueErrors pandas raises here: idxmin of the empty class counts of
   * an empty table, concat of an empty list, and a sample larger than its
   * population.
   */
  datatype BalanceError = EmptyTable | NothingToConcatenate | SampleLargerThanPool

  /**
   * The backfill loop: for each class in order, concatenate its excess
   * pieces and append a sample of its missing count from them, the first
   * `missing` rows of the seeded reordering.
   */
  function Backfill(dataset: seq<seq<Row>>, excess: map<string, seq<seq<Row>>>, missing: map<string, nat>,
                    classes: seq<string>, shuffle: Shuffle): Result<seq<seq<Row>>, BalanceError>
    requires forall c :: c in classes ==> c in excess && c in missing
    decreases |classes|
  {
    if classes == [] then Success(dataset)
    else
      var c := classes[0];
      if excess[c] == [] then Failure(NothingToConcatenate)
      else
        var pool := Concat(excess[c]);
        if missing[c] > |pool| then Failure(SampleLargerThanPool)
        else Backfill(dataset + [shuffle(pool)[..missing[c]]], excess, missing, classes[1..], shuffle)
  }

  /**
   * main from the deduplication to the final concatenation. On an empty
   * table calc_num_samples_per_city_and_class raises before any loop runs.
   */
  function BalanceSpec(data: seq<Row>, shuffle: Shuffle): Result<seq<Row>, BalanceError> {
    var rows := DropDuplicates(data);
    match SamplesPerCityAndClass(rows)
    case None => Failure(EmptyTable)
    case Some(st) =>
      var t := FirstPass(st.cities, st.classes, Splits(rows, st.perCity, shuffle));
      match Backfill(t.dataset, t.excess, t.missing, st.classes, shuffle)
      case Failure(e) => Failure(e)
      case Success(pieces) => Success(Concat(pieces))
  }

  /** The first loop's iterations for one city, updating the accumulators in place. */
  method VisitCity(t: Tally, split: Splitter, city: string, classes: seq<string>) returns (r: Tally)
    requires Tracks(t, classes)
    ensures r == VisitClasses(t, split, city, classes)
  {
    var dataset: seq<seq<Row>>, excess: map<string, seq<seq<Row>>>, missing: map<string, nat> := t.dataset, t.excess, t.missing;
    for j := 0 to |classes|
      invariant Tracks(t, classes[..j])
      invariant Tally(dataset, excess, missing) == VisitClasses(t, split, city, classes[..j])
    {
      VisitClassesStep(t, split, city, classes, j);
      var cls := classes[j];
      var s := split(city, cls);
      ghost var after := Record(Tally(dataset, excess, missing), cls, s);
      dataset := dataset + [s.taken];
      if s.excess.Some? {
        excess := excess[cls := excess[cls] + [s.excess.value]];
      }
      missing := missing[cls := missing[cls] + s.missing];
      assert dataset == after.dataset && excess == after.excess && missing == after.missing;
    }
    assert classes[..|classes|] == classes;
    r := Tally(dataset, excess, missing);
  }

  /** The first loop of main, over product(cities, classes). */
  method FirstLoop(cities: seq<string>, classes: seq<string>, split: Splitter) returns (t: Tally)
    ensures t == FirstPass(cities, classes, split)
  {
    t := Start(classes);
    for i := 0 to |cities|
      invariant t == FirstPass(cities[..i], classes, split)
    {
      assert cities[..i + 1][..i] == cities[..i];
      t := VisitCity(t, split, cities[i], classes);
    }
    assert cities[..|cities|] == cities;
  }

  /** The backfill loop of main; a raised error ends it. */
  method BackfillLoop(dataset: seq<seq<Row>>, excess: map<string, seq<seq<Row>>>, missing: map<string, nat>,
                      classes: seq<string>, shuffle: Shuffle) returns (r: Result<seq<seq<Row>>, BalanceError>)
    requires forall c :: c in classes ==> c in excess && c in missing
    ensures r == Backfill(dataset, excess, missing, classes, shuffle)
  {
    var pieces := dataset;
    for k := 0 to |classes|
      invariant Backfill(pieces, excess, missing, classes[k..], shuffle) == Backfill(dataset, excess, missing, classes, shuffle)
    {
      var cls := classes[k];
      assert classes[k..][1..] == classes[k + 1..];
      if excess[cls] == [] {
        return Failure(NothingToConcatenate);
      }
      var pool := Concat(excess[cls]);
      if missing[cls] > |pool| {
        return Failure(SampleLargerThanPool);
      }
      pieces := pieces + [shuffle(pool)[..missing[cls]]];
    }
    assert classes[|classes|..] == [];
    r := Success(pieces);
  }

  /** main's balancing: deduplicate, compute the target, run both loops, concatenate. */
  method Balance(data: seq<Row>, shuffle: Shuffle) returns (result: Result<seq<Row>, BalanceError>)
    ensures result == BalanceSpec(data, shuffle)
  {
    var rows := DropDuplicates(data);
    var stats := SamplesPerCityAndClass(rows);
    if stats.None? {
      return Failure(EmptyTable);
    }
    var split := Splits(rows, stats.value.perCity, shuffle);
    var t := FirstLoop(stats.value.cities, stats.value.classes, split);
    var pieces := BackfillLoop(t.dataset, t.excess, t.missing, stats.value.classes, shuffle);
    if pieces.Failure? {
      return Failure(pieces.error);
    }
    result := Success(Concat(pieces.value));
  }
}
