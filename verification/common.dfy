/** Small value types and sequence facts shared by the three scripts' models. */
module Common {

  datatype Option<T> = None | Some(value: T)

  datatype Result<T, E> = Success(value: T) | Failure(error: E)

  /** No element occurs twice. */
  predicate Distinct<T(==)>(s: seq<T>) {
    forall i, j :: 0 <= i < j < |s| ==> s[i] != s[j]
  }

  /** Dropping the head keeps a sequence without repetitions, and the head is not repeated in the tail. */
  lemma DistinctTail<T>(s: seq<T>)
    requires Distinct(s) && s != []
    ensures Distinct(s[1..]) && s[0] !in s[1..]
  {
    forall i, j | 0 <= i < j < |s| - 1 ensures s[1..][i] != s[1..][j] {
      assert s[1..][i] == s[i + 1] && s[1..][j] == s[j + 1];
    }
  }

  /** A sequence without repetitions has as many distinct elements as positions. */
  lemma {:induction false} DistinctCard<T>(s: seq<T>)
    requires Distinct(s)
    ensures |set x | x in s| == |s|
  {
    if s != [] {
      var p := s[..|s| - 1];
      var last := s[|s| - 1];
      DistinctCard(p);
      assert (set x | x in s) == (set x | x in p) + {last};
      assert last !in (set x | x in p);
    }
  }

  /**
   * itertools.product(xs, ys): every pair, the first component varying
   * slowest.
   */
  function Product<A(!new), B(!new)>(xs: seq<A>, ys: seq<B>): (r: seq<(A, B)>)
    ensures |r| == |xs| * |ys|
    ensures forall p :: p in r <==> p.0 in xs && p.1 in ys
  {
    if xs == [] then []
    else
      var rest := Product(xs[1..], ys);
      var row := seq(|ys|, j requires 0 <= j < |ys| => (xs[0], ys[j]));
      assert forall p: (A, B) :: p in row <==> p.0 == xs[0] && p.1 in ys by {
        forall p: (A, B) | p.0 == xs[0] && p.1 in ys ensures p in row {
          var j :| 0 <= j < |ys| && ys[j] == p.1;
          assert row[j] == p;
        }
      }
      assert |xs| * |ys| == |ys| + (|xs| - 1) * |ys|;
      assert forall a :: a in xs <==> a == xs[0] || a in xs[1..];
      row + rest
  }

  /** The product of two repetition-free sequences is repetition-free. */
  lemma {:induction false} ProductDistinct<A(!new), B(!new)>(xs: seq<A>, ys: seq<B>)
    requires Distinct(xs) && Distinct(ys)
    ensures Distinct(Product(xs, ys))
  {
    if xs != [] {
      var rest := Product(xs[1..], ys);
      ProductDistinct(xs[1..], ys);
      var row := seq(|ys|, j requires 0 <= j < |ys| => (xs[0], ys[j]));
      var r := Product(xs, ys);
      assert r == row + rest;
      DistinctTail(xs);
      assert forall i, j :: 0 <= i < j < |row| ==> row[i].1 == ys[i] && row[j].1 == ys[j];
      assert forall p :: p in row ==> p !in rest;
      DistinctAppend(row, rest);
    }
  }

  /** Two repetition-free sequences with no element in common make a repetition-free sequence. */
  lemma DistinctAppend<T>(a: seq<T>, b: seq<T>)
    requires Distinct(a) && Distinct(b)
    requires forall x :: x in a ==> x !in b
    ensures Distinct(a + b)
  {
    forall i, j | 0 <= i < j < |a + b| ensures (a + b)[i] != (a + b)[j] {
      if j < |a| {
        assert (a + b)[i] == a[i] && (a + b)[j] == a[j];
      } else if i < |a| {
        assert (a + b)[i] == a[i] && (a + b)[j] == b[j - |a|];
        assert a[i] in a && b[j - |a|] in b;
      } else {
        assert (a + b)[i] == b[i - |a|] && (a + b)[j] == b[j - |a|];
      }
    }
  }

  /** Concatenation of a list of frames (pd.concat along the row axis). */
  function Concat<T>(parts: seq<seq<T>>): (r: seq<T>)
    ensures |r| == TotalLength(parts)
  {
    if parts == [] then [] else Concat(parts[..|parts| - 1]) + parts[|parts| - 1]
  }

  /** Sum of the lengths of a list of frames. */
  function TotalLength<T>(parts: seq<seq<T>>): nat {
    if parts == [] then 0 else TotalLength(parts[..|parts| - 1]) + |parts[|parts| - 1]|
  }

  lemma AppendAssociative<T>(a: seq<T>, b: seq<T>, c: seq<T>)
    ensures a + b + c == a + (b + c)
  {
  }

  /** The two halves of a cut put back together give the sequence. */
  lemma SplitJoin<T>(s: seq<T>, d: nat)
    requires d <= |s|
    ensures s[..d] + s[d..] == s
  {
  }

  /** Every element of a concatenation comes from one of its parts. */
  lemma {:induction false} ConcatMembers<T>(parts: seq<seq<T>>)
    ensures forall x :: x in Concat(parts) ==> exists i :: 0 <= i < |parts| && x in parts[i]
    decreases |parts|
  {
    if parts != [] {
      var n := |parts| - 1;
      ConcatMembers(parts[..n]);
      forall x | x in Concat(parts) ensures exists i :: 0 <= i < |parts| && x in parts[i] {
        if x in Concat(parts[..n]) {
          var i :| 0 <= i < n && x in parts[..n][i];
          assert x in parts[i];
        } else {
          assert x in parts[n];
        }
      }
    }
  }

  /** Appending one part to a list of parts appends it to the concatenation. */
  lemma ConcatSnoc<T>(parts: seq<seq<T>>, last: seq<T>)
    ensures Concat(parts + [last]) == Concat(parts) + last
    ensures TotalLength(parts + [last]) == TotalLength(parts) + |last|
  {
    assert (parts + [last])[..|parts|] == parts;
  }

  /** Elements of two parts whose multisets add up to a whole are elements of the whole. */
  lemma PartsMembers<T>(a: seq<T>, b: seq<T>, whole: seq<T>)
    requires multiset(a) + multiset(b) == multiset(whole)
    ensures forall x :: x in a || x in b ==> x in whole
  {
    forall x | x in a || x in b ensures x in whole {
      assert x in multiset(whole);
    }
  }
}
