/** `Vec::retain` on sequences, which the storage lists and the selection
    lists all use to drop entries. */
module Lists {
  /** The elements that `keep` accepts, in their original order. */
  function Retain<T(!new)>(s: seq<T>, keep: T -> bool): (r: seq<T>)
    ensures |r| <= |s|
    ensures forall x :: x in r <==> x in s && keep(x)
    ensures forall i :: 0 <= i < |r| ==> keep(r[i])
  {
    if |s| == 0 then []
    else
      assert s == [s[0]] + s[1..];
      if keep(s[0]) then [s[0]] + Retain(s[1..], keep) else Retain(s[1..], keep)
  }

  /** Retaining what every element satisfies changes nothing. */
  lemma {:induction false} RetainAll<T(!new)>(s: seq<T>, keep: T -> bool)
    requires forall i :: 0 <= i < |s| ==> keep(s[i])
    ensures Retain(s, keep) == s
  {
    if |s| > 0 {
      RetainAll(s[1..], keep);
    }
  }

  /** Retaining what no element satisfies leaves nothing. */
  lemma {:induction false} RetainNone<T(!new)>(s: seq<T>, keep: T -> bool)
    requires forall i :: 0 <= i < |s| ==> !keep(s[i])
    ensures Retain(s, keep) == []
  {
    if |s| > 0 {
      RetainNone(s[1..], keep);
    }
  }

  /** Retaining distributes over concatenation. */
  lemma {:induction false} RetainAppend<T(!new)>(a: seq<T>, b: seq<T>, keep: T -> bool)
    ensures Retain(a + b, keep) == Retain(a, keep) + Retain(b, keep)
  {
    if |a| > 0 {
      assert (a + b)[1..] == a[1..] + b;
      RetainAppend(a[1..], b, keep);
    } else {
      assert a + b == b;
    }
  }

  /** No element occurs twice. */
  predicate Distinct<T(==)>(s: seq<T>) {
    forall i, j :: 0 <= i < j < |s| ==> s[i] != s[j]
  }

  /** `before` holds of every element and each element after it. */
  predicate Pairwise<T>(s: seq<T>, before: (T, T) -> bool) {
    forall i, j :: 0 <= i < j < |s| ==> before(s[i], s[j])
  }

  /** Retaining keeps the relative order of what it keeps: a relation that holds
      of every earlier/later pair still holds afterwards. */
  lemma {:induction false} RetainPairs<T(!new)>(s: seq<T>, keep: T -> bool, before: (T, T) -> bool)
    requires Pairwise(s, before)
    ensures Pairwise(Retain(s, keep), before)
  {
    if |s| > 0 {
      var tail := s[1..];
      RetainPairs(tail, keep, before);
      var rest := Retain(tail, keep);
      if keep(s[0]) {
        var r := [s[0]] + rest;
        assert Retain(s, keep) == r;
        forall i, j | 0 <= i < j < |r| ensures before(r[i], r[j]) {
          if i == 0 {
            assert r[j] in tail;
            var k :| 0 <= k < |tail| && tail[k] == r[j];
            assert tail[k] == s[k + 1];
            assert before(s[0], s[k + 1]);
          } else {
            assert r[i] == rest[i - 1] && r[j] == rest[j - 1];
          }
        }
      } else {
        assert Retain(s, keep) == rest;
      }
    }
  }

  /** Retaining keeps a list free of duplicates. */
  lemma RetainDistinct<T(!new)>(s: seq<T>, keep: T -> bool)
    requires Distinct(s)
    ensures Distinct(Retain(s, keep))
  {
    RetainPairs(s, keep, (a: T, b: T) => a != b);
  }
}
