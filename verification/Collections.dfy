/** Small facts about sets and sequences that several components share. */
module Collections {

  datatype Option<T> = None | Some(value: T)

  ghost predicate NoDuplicates<T(!new)>(s: seq<T>) {
    forall i, j :: 0 <= i < j < |s| ==> s[i] != s[j]
  }

  ghost function Elements<T(!new)>(s: seq<T>): (r: set<T>)
    ensures forall x :: x in r <==> x in s
    ensures NoDuplicates(s) ==> |r| == |s|
  {
    if s == [] then {}
    else
      var n := |s| - 1;
      assert s == s[..n] + [s[n]];
      Elements(s[..n]) + {s[n]}
  }

  ghost function NumbersBelow(n: nat): (s: set<nat>)
    ensures |s| == n && forall j :: j in s <==> 0 <= j < n
  {
    if n == 0 then {} else NumbersBelow(n - 1) + {n - 1}
  }

  lemma {:induction false} SubsetSize<T>(a: set<T>, b: set<T>)
    requires a <= b
    ensures |a| <= |b|
    ensures |a| == |b| ==> a == b
  {
    if x :| x in a {
      SubsetSize(a - {x}, b - {x});
      assert a == (a - {x}) + {x} && b == (b - {x}) + {x};
    }
  }

  /** Distinct numbers below n in a list of length n: every number below n is there. */
  lemma Pigeonhole(s: seq<nat>, n: nat)
    requires NoDuplicates(s) && |s| == n && forall j :: j in s ==> j < n
    ensures forall j :: 0 <= j < n ==> j in s
  {
    SubsetSize(Elements(s), NumbersBelow(n));
  }
}
