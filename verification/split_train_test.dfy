/**
 * split_train_test.py: shuffle a building table with a fixed seed, cut it
 * at floor(n * ratio) into a training part and a test part, and name the
 * two output files after the input file's base name.
 */
module TrainTest {
  import opened Common
  import opened Paths

  // ---------------------------------------------------------------------
  // File names

  /** name.split(".")[0]: the name up to its first '.', or the whole name when it has none. */
  function Prefix(name: string): (p: string)
    ensures '.' !in p
    ensures |p| <= |name| && p == name[..|p|]
    ensures |p| < |name| ==> name[|p|] == '.'
    decreases |name|
  {
    if name == [] || name[0] == '.' then []
    else [name[0]] + Prefix(name[1..])
  }

  /** A name without '.' followed by anything that starts with '.' has that name as its prefix. */
  lemma {:induction false} PrefixOfDotted(stem: string, rest: string)
    requires '.' !in stem && rest != [] && rest[0] == '.'
    ensures Prefix(stem + rest) == stem
    decreases |stem|
  {
    if stem != [] {
      assert (stem + rest)[1..] == stem[1..] + rest;
      PrefixOfDotted(stem[1..], rest);
    }
  }

  /** A plain prefix followed by a plain tag and a dotted extension: its own prefix is the prefix and the tag. */
  lemma TaggedPrefix(prefix: string, tag: string, ext: string)
    requires '.' !in prefix && '.' !in tag && ext != [] && ext[0] == '.'
    ensures (prefix + (tag + ext))[..|prefix|] == prefix
    ensures Prefix(prefix + (tag + ext)) == prefix + tag
  {
    AppendAssociative(prefix, tag, ext);
    assert forall i :: 0 <= i < |prefix + tag| ==> (prefix + tag)[i] in prefix || (prefix + tag)[i] in tag;
    PrefixOfDotted(prefix + tag, ext);
  }

  const TrainSuffix: string := "_train.csv.bz2"
  const TestSuffix: string := "_test.csv.bz2"

  /** The two output names of main, written to the current directory. */
  datatype Names = Names(train: string, test: string)

  /**
   * The output names: both start with the input's prefix and stay in the
   * current directory, both end in ".csv.bz2" (so pandas compresses them
   * with bzip2), splitting either again yields the prefix "<prefix>_train"
   * or "<prefix>_test", and the two never coincide.
   */
  function OutputNames(inputPath: string): (n: Names)
    ensures var prefix := Prefix(Basename(inputPath));
      && prefix <= n.train && Prefix(n.train) == prefix + "_train"
      && prefix <= n.test && Prefix(n.test) == prefix + "_test"
    ensures '/' !in n.train && '/' !in n.test
    ensures |n.train| >= 8 && n.train[|n.train| - 8..] == ".csv.bz2"
    ensures |n.test| >= 8 && n.test[|n.test| - 8..] == ".csv.bz2"
    ensures n.train != n.test
  {
    var prefix := Prefix(Basename(inputPath));
    PrefixIsPlain(inputPath);
    TrainName(prefix);
    TestName(prefix);
    TaggedNamesDiffer(prefix);
    Names(prefix + TrainSuffix, prefix + TestSuffix)
  }

  /** The training file's name for a plain prefix. */
  lemma TrainName(prefix: string)
    requires '.' !in prefix && '/' !in prefix
    ensures var name := prefix + TrainSuffix;
      && prefix <= name && Prefix(name) == prefix + "_train"
      && '/' !in name && |name| >= 8 && name[|name| - 8..] == ".csv.bz2"
  {
    SuffixParts();
    TaggedName(prefix, "_train", TrainSuffix);
  }

  /** The test file's name for a plain prefix. */
  lemma TestName(prefix: string)
    requires '.' !in prefix && '/' !in prefix
    ensures var name := prefix + TestSuffix;
      && prefix <= name && Prefix(name) == prefix + "_test"
      && '/' !in name && |name| >= 8 && name[|name| - 8..] == ".csv.bz2"
  {
    SuffixParts();
    TaggedName(prefix, "_test", TestSuffix);
  }

  /** A plain prefix followed by a plain tag and ".csv.bz2". */
  lemma TaggedName(prefix: string, tag: string, suffix: string)
    requires '.' !in prefix && '/' !in prefix && '.' !in tag && '/' !in tag
    requires suffix == tag + ".csv.bz2"
    ensures var name := prefix + suffix;
      && prefix <= name && Prefix(name) == prefix + tag
      && '/' !in name && |name| >= 8 && name[|name| - 8..] == ".csv.bz2"
  {
    TaggedPrefix(prefix, tag, ".csv.bz2");
    PlainName(prefix, suffix);
    assert (prefix + suffix)[|prefix + suffix| - 8..] == suffix[|suffix| - 8..];
  }

  /** A name made of two parts without '/' holds no '/'. */
  lemma PlainName(prefix: string, suffix: string)
    requires '/' !in prefix && '/' !in suffix
    ensures '/' !in prefix + suffix
  {
    forall i | 0 <= i < |prefix + suffix| ensures (prefix + suffix)[i] != '/' {
      if i < |prefix| {
        assert (prefix + suffix)[i] == prefix[i];
      } else {
        assert (prefix + suffix)[i] == suffix[i - |prefix|];
      }
    }
  }

  /** The input's prefix holds neither '/' nor '.'. */
  lemma PrefixIsPlain(inputPath: string)
    ensures var prefix := Prefix(Basename(inputPath));
      '.' !in prefix && '/' !in prefix
  {
    var b := Basename(inputPath);
    var prefix := Prefix(b);
    forall i | 0 <= i < |prefix| ensures prefix[i] != '/' {
      assert prefix[i] == b[i];
    }
  }

  /** Whatever the prefix, the two suffixes make different names. */
  lemma TaggedNamesDiffer(prefix: string)
    ensures prefix + TrainSuffix != prefix + TestSuffix
  {
    var k := |prefix|;
    assert (prefix + TrainSuffix)[k + 2] == TrainSuffix[2] == 'r';
    assert (prefix + TestSuffix)[k + 2] == TestSuffix[2] == 'e';
  }

  /** Each suffix is a tag without '.' followed by the extension ".csv.bz2". */
  lemma SuffixParts()
    ensures TrainSuffix == "_train" + ".csv.bz2" && '.' !in "_train"
    ensures TestSuffix == "_test" + ".csv.bz2" && '.' !in "_test"
  {
  }

  // ---------------------------------------------------------------------
  // The split

  /** train_split = floor(data.shape[0] * split_ratio), on exact reals. */
  function SplitIndex(n: nat, ratio: real): int {
    (n as real * ratio).Floor
  }

  /** For a ratio between 0 and 1 the split index lies between 0 and the number of rows. */
  lemma SplitIndexBounds(n: nat, ratio: real)
    requires 0.0 <= ratio <= 1.0
    ensures 0 <= SplitIndex(n, ratio) <= n
  {
    assert 0.0 <= n as real * ratio <= n as real * 1.0;
  }

  /** A ratio of 0 puts every row in the test part and a ratio of 1 every row in the training part. */
  lemma SplitIndexEnds(n: nat)
    ensures SplitIndex(n, 0.0) == 0 && SplitIndex(n, 1.0) == n
  {
  }

  /**
   * Where Python's slices data[:k] and data[k:] cut a sequence of n rows:
   * a negative bound counts from the end, and the result is clamped to
   * [0, n].
   */
  function SliceBound(k: int, n: nat): (j: nat)
    ensures j <= n
    ensures 0 <= k <= n ==> j == k
    ensures k > n ==> j == n
    ensures k < 0 ==> j + (-k) == n || (j == 0 && -k >= n)
  {
    if k < 0 then (if n + k < 0 then 0 else n + k)
    else if k > n then n
    else k
  }

  /** The training and test parts of main. */
  datatype Parts<T> = Parts(train: seq<T>, test: seq<T>)

  /**
   * main's split: reorder the rows with sample(frac=1.0, random_state=42),
   * then take
   * shuffled[:k] for training and shuffled[k:] for testing.
   */
  function SplitData<T>(data: seq<T>, ratio: real, shuffle: seq<T> -> seq<T>): (p: Parts<T>)
    ensures p.train + p.test == shuffle(data)
  {
    var shuffled := shuffle(data);
    var j := SliceBound(SplitIndex(|shuffled|, ratio), |shuffled|);
    assert shuffled[..j] + shuffled[j..] == shuffled;
    Parts(shuffled[..j], shuffled[j..])
  }

  /**
   * With a length-keeping shuffle the training part has as many rows as
   * the slice data[:floor(n * ratio)] keeps, whatever the ratio, and the
   * test part the rest.
   */
  lemma SplitSizes<T>(data: seq<T>, ratio: real, shuffle: seq<T> -> seq<T>)
    requires |shuffle(data)| == |data|
    ensures |SplitData(data, ratio, shuffle).train| == SliceBound(SplitIndex(|data|, ratio), |data|)
    ensures |SplitData(data, ratio, shuffle).test| == |data| - SliceBound(SplitIndex(|data|, ratio), |data|)
  {
  }

  /** For a ratio in [0, 1] the training part has floor(n * ratio) rows and the test part the rest. */
  lemma SplitSizesInRange<T>(data: seq<T>, ratio: real, shuffle: seq<T> -> seq<T>)
    requires |shuffle(data)| == |data| && 0.0 <= ratio <= 1.0
    ensures |SplitData(data, ratio, shuffle).train| == SplitIndex(|data|, ratio)
    ensures |SplitData(data, ratio, shuffle).test| == |data| - SplitIndex(|data|, ratio)
  {
    SplitSizes(data, ratio, shuffle);
    SplitIndexBounds(|data|, ratio);
  }

  /** A ratio of 1 or more puts every row in the training part and leaves the test part empty. */
  lemma SplitAboveOne<T>(data: seq<T>, ratio: real, shuffle: seq<T> -> seq<T>)
    requires |shuffle(data)| == |data| && ratio >= 1.0
    ensures SplitData(data, ratio, shuffle).train == shuffle(data)
    ensures SplitData(data, ratio, shuffle).test == []
  {
    assert |data| as real * ratio >= |data| as real;
    SplitSizes(data, ratio, shuffle);
  }

  /**
   * When the shuffle only reorders the rows, the two parts together hold
   * exactly the input's rows, each as often as in the input.
   */
  lemma SplitKeepsRows<T>(data: seq<T>, ratio: real, shuffle: seq<T> -> seq<T>)
    requires multiset(shuffle(data)) == multiset(data)
    ensures var p := SplitData(data, ratio, shuffle);
      multiset(p.train) + multiset(p.test) == multiset(data)
  {
    var p := SplitData(data, ratio, shuffle);
    assert multiset(p.train + p.test) == multiset(p.train) + multiset(p.test);
  }

  /** The whole script on a table already read: the two file names and the rows written to each. */
  datatype Output<T> = Output(names: Names, parts: Parts<T>)

  function SplitFile<T>(inputPath: string, data: seq<T>, ratio: real, shuffle: seq<T> -> seq<T>): (o: Output<T>)
    ensures o.parts.train + o.parts.test == shuffle(data)
    ensures o.names.train != o.names.test
  {
    Output(OutputNames(inputPath), SplitData(data, ratio, shuffle))
  }
}
