/** Sequences split, joined and regrouped. */
module Sequences {

  function Evens<T>(x: seq<T>): (e: seq<T>)
    ensures |e| == |x| / 2
    ensures forall i :: 0 <= i < |e| ==> e[i] == x[2 * i]
  {
    seq(|x| / 2, i requires 0 <= i < |x| / 2 => x[2 * i])
  }

  function Odds<T>(x: seq<T>): (o: seq<T>)
    ensures |o| == |x| / 2
    ensures forall i :: 0 <= i < |o| ==> o[i] == x[2 * i + 1]
  {
    seq(|x| / 2, i requires 0 <= i < |x| / 2 => x[2 * i + 1])
  }

  function Flatten<T>(parts: seq<seq<T>>): seq<T>
  {
    if parts == [] then [] else Flatten(parts[..|parts| - 1]) + parts[|parts| - 1]
  }

  lemma Regroup<T>(a: seq<T>, b: seq<T>, c: seq<T>)
    ensures a + b + c == a + (b + c)
  {
  }

  ghost predicate Distinct<T>(s: seq<T>)
  {
    forall i, j :: 0 <= i < j < |s| ==> s[i] != s[j]
  }

  /** One more flag: one more index in the set if it is up. */
  lemma OneMoreTrue(flags: seq<bool>, b: nat)
    requires b < |flags|
    ensures |set p: nat | p < b + 1 && flags[p]| == |set p: nat | p < b && flags[p]| + if flags[b] then 1 else 0
  {
    var most, all := set p: nat | p < b && flags[p], set p: nat | p < b + 1 && flags[p];
    assert all == if flags[b] then most + {b} else most;
  }

  /** Flatten is concatenation in order. */
  lemma {:induction false} FlattenJoins<T>(a: seq<seq<T>>, b: seq<seq<T>>)
    ensures Flatten(a + b) == Flatten(a) + Flatten(b)
  {
    if b == [] {
      assert a + b == a;
    } else {
      var n := |b| - 1;
      FlattenJoins(a, b[..n]);
      assert (a + b)[..|a + b| - 1] == a + b[..n];
      Regroup(Flatten(a), Flatten(b[..n]), b[n]);
    }
  }

  lemma FlattenOne<T>(x: seq<T>)
    ensures Flatten([x]) == x
  {
    assert [x][..0] == [];
  }
}
