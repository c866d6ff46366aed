/** Sequence folds shared by the handlers: first-occurrence de-duplication and occurrence counts. */
module Seqs {

  predicate Distinct<T(==,!new)>(s: seq<T>) {
    forall i, j :: 0 <= i < j < |s| ==> s[i] != s[j]
  }

  /** Position of the first occurrence of `x` in `s`. */
  function FirstIndex<T(==,!new)>(s: seq<T>, x: T): (i: nat)
    requires x in s
    ensures i < |s| && s[i] == x && x !in s[..i]
  {
    if s[0] == x then 0 else 1 + FirstIndex(s[1..], x)
  }

  /**
   * The elements of `s`, each kept at its first occurrence: what a loop that
   * appends `x` only when `x not in acc` builds.
   */
  function Dedup<T(==,!new)>(s: seq<T>): (r: seq<T>)
    ensures forall x :: x in r <==> x in s
    ensures Distinct(r)
    ensures |r| <= |s|
  {
    if s == [] then []
    else
      var d := Dedup(s[..|s| - 1]);
      if s[|s| - 1] in d then d else d + [s[|s| - 1]]
  }

  /** `Dedup` keeps the order of first occurrences. */
  lemma {:induction false} DedupFirstOccurrenceOrder<T(!new)>(s: seq<T>)
    ensures forall i, j :: 0 <= i < j < |Dedup(s)| ==>
              FirstIndex(s, Dedup(s)[i]) < FirstIndex(s, Dedup(s)[j])
  {
    if s != [] {
      var init, x := s[..|s| - 1], s[|s| - 1];
      assert s == init + [x];
      var d, r := Dedup(init), Dedup(s);
      DedupFirstOccurrenceOrder(init);
      FirstIndexSnoc(init, x);
      if x in d {
        assert r == d;
        forall i, j | 0 <= i < j < |r| ensures FirstIndex(s, r[i]) < FirstIndex(s, r[j]) {
          assert r[i] in init && r[j] in init;
        }
      } else {
        assert r == d + [x];
        forall i, j | 0 <= i < j < |r| ensures FirstIndex(s, r[i]) < FirstIndex(s, r[j]) {
          assert r[i] == d[i] && r[i] in init;
          if j < |d| {
            assert r[j] == d[j] && r[j] in init;
          } else {
            assert r[j] == x && x !in init;
            assert FirstIndex(init, r[i]) < |init|;
          }
        }
      }
    }
  }

  lemma FirstIndexSnoc<T(!new)>(s: seq<T>, x: T)
    ensures forall y :: y in s ==> FirstIndex(s + [x], y) == FirstIndex(s, y)
    ensures x !in s ==> FirstIndex(s + [x], x) == |s|
  {
    forall y | y in s ensures FirstIndex(s + [x], y) == FirstIndex(s, y) {
      FirstIndexPrefix(s, [x], y);
    }
    if x !in s {
      assert (s + [x])[..|s|] == s;
    }
  }

  lemma {:induction false} FirstIndexPrefix<T(!new)>(s: seq<T>, t: seq<T>, y: T)
    requires y in s
    ensures FirstIndex(s + t, y) == FirstIndex(s, y)
  {
    if s[0] != y {
      assert (s + t)[1..] == s[1..] + t;
      FirstIndexPrefix(s[1..], t, y);
    }
  }

  /** Number of occurrences of `x` in `s`. */
  function Count<T(==,!new)>(s: seq<T>, x: T): (n: nat)
    ensures n <= |s|
    ensures n == 0 <==> x !in s
  {
    if s == [] then 0
    else Count(s[..|s| - 1], x) + (if s[|s| - 1] == x then 1 else 0)
  }

  lemma {:induction false} CountConcat<T(!new)>(s: seq<T>, t: seq<T>, x: T)
    ensures Count(s + t, x) == Count(s, x) + Count(t, x)
    decreases |t|
  {
    if t == [] {
      assert s + t == s;
    } else {
      assert (s + t)[..|s + t| - 1] == s + t[..|t| - 1];
      assert (s + t)[|s + t| - 1] == t[|t| - 1];
      CountConcat(s, t[..|t| - 1], x);
    }
  }

  /** Concatenation is associative; stated generically so that no element equality has to be unfolded. */
  lemma AppendAssoc<T>(x: seq<T>, y: seq<T>, z: seq<T>)
    ensures (x + y) + z == x + (y + z)
  {
  }

  /** Dropping the last element of a concatenation with a non-empty right part. */
  lemma DropLastOfAppend<T>(x: seq<T>, y: seq<T>)
    requires y != []
    ensures (x + y)[..|x + y| - 1] == x + y[..|y| - 1]
    ensures (x + y)[|x + y| - 1] == y[|y| - 1]
  {
  }
}
