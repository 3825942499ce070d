/** Joining parts with a separator, and when the parts can be read back. */
module Joining {
  function Join<T>(parts: seq<seq<T>>, separator: T): seq<T> {
    if parts == [] then []
    else if |parts| == 1 then parts[0]
    else parts[0] + [separator] + Join(parts[1..], separator)
  }

  /** Parts that end at the same place whatever follows: equally long, or both free of the separator. */
  ghost predicate Aligned<T>(a: seq<T>, b: seq<T>, separator: T) {
    |a| == |b| || (separator !in a && separator !in b)
  }

  /** Nonempty lists whose parts are aligned place by place can be told apart by their joins. */
  lemma {:induction false} JoinInjective<T>(p: seq<seq<T>>, q: seq<seq<T>>, separator: T)
    requires p != [] && q != [] && Join(p, separator) == Join(q, separator)
    requires forall i :: 0 <= i < |p| && i < |q| ==> Aligned(p[i], q[i], separator)
    ensures p == q
  {
    HeadOfJoin(p, separator);
    HeadOfJoin(q, separator);
    assert Aligned(p[0], q[0], separator);
    assert |p[0]| == |q[0]|;
    if |p| == 1 {
      assert |q| == 1;
    } else {
      assert |q| > 1;
      assert Join(p, separator)[|p[0]| + 1..] == Join(p[1..], separator);
      assert Join(q, separator)[|q[0]| + 1..] == Join(q[1..], separator);
      forall i | 0 <= i < |p[1..]| && i < |q[1..]| ensures Aligned(p[1..][i], q[1..][i], separator) {
        assert Aligned(p[i + 1], q[i + 1], separator);
      }
      JoinInjective(p[1..], q[1..], separator);
      assert p == [p[0]] + p[1..] && q == [q[0]] + q[1..];
    }
  }

  lemma HeadOfJoin<T>(p: seq<seq<T>>, separator: T)
    requires p != []
    ensures |p[0]| <= |Join(p, separator)| && Join(p, separator)[..|p[0]|] == p[0]
    ensures |p| == 1 ==> |Join(p, separator)| == |p[0]|
    ensures |p| > 1 ==> |Join(p, separator)| > |p[0]| && Join(p, separator)[|p[0]|] == separator
  {
  }

  lemma {:induction false} JoinSnoc<T>(p: seq<seq<T>>, x: seq<T>, separator: T)
    requires p != []
    ensures Join(p + [x], separator) == Join(p, separator) + [separator] + x
  {
    if |p| == 1 {
      assert (p + [x])[1..] == [x];
    } else {
      assert (p + [x])[1..] == p[1..] + [x];
      JoinSnoc(p[1..], x, separator);
    }
  }
}
