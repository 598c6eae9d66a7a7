/**
  Positions of values in the datagram's views. The user view is embedded in
  the physical view by a strictly increasing sequence of positions; inserting
  into or deleting from the physical view moves those positions.
 */
module Positions {

  /** No value occurs twice. */
  ghost predicate Distinct<T>(s: seq<T>)
  {
    forall i, j :: 0 <= i < j < |s| ==> s[i] != s[j]
  }

  /** `sub` sits in `sup` at the strictly increasing positions `ps`. */
  ghost predicate Embedded<T>(sub: seq<T>, sup: seq<T>, ps: seq<nat>)
  {
    |ps| == |sub| &&
    (forall k :: 0 <= k < |ps| ==> ps[k] < |sup| && sup[ps[k]] == sub[k]) &&
    (forall k, l :: 0 <= k < l < |ps| ==> ps[k] < ps[l])
  }

  /** The classical definition: `sub` is obtained from `sup` by dropping elements. */
  ghost predicate IsSubsequence<T>(sub: seq<T>, sup: seq<T>)
    decreases |sup|
  {
    if sub == [] then true
    else if sup == [] then false
    else if sub[0] == sup[0] then IsSubsequence(sub[1..], sup[1..])
    else IsSubsequence(sub, sup[1..])
  }

  /** Where `x` first occurs (the position a value records as its element id). */
  function IndexOf<T(==)>(s: seq<T>, x: T): (r: nat)
    requires x in s
    ensures r < |s| && s[r] == x && x !in s[..r]
  {
    if s[0] == x then 0
    else
      var r := 1 + IndexOf(s[1..], x);
      assert s[..r] == [s[0]] + s[1..][..r - 1];
      r
  }

  /** In a sequence without repetitions a value's index is its only position. */
  lemma IndexOfDistinct<T>(s: seq<T>, i: nat)
    requires Distinct(s) && i < |s|
    ensures IndexOf(s, s[i]) == i
  {
  }

  /** The element `x` inserted at position `p`. */
  function InsertAt<T>(s: seq<T>, p: nat, x: T): (r: seq<T>)
    requires p <= |s|
    ensures |r| == |s| + 1 && r[p] == x
    ensures forall i :: 0 <= i < p ==> r[i] == s[i]
    ensures forall i :: p <= i < |s| ==> r[i + 1] == s[i]
  {
    s[..p] + [x] + s[p..]
  }

  /** The elements after an insertion are the inserted one and the old ones. */
  lemma InsertAtIn<T>(s: seq<T>, p: nat, x: T)
    requires p <= |s|
    ensures forall y :: y in InsertAt(s, p, x) <==> y == x || y in s
  {
    assert s == s[..p] + s[p..];
  }

  /** The element at position `p` taken out. */
  function RemoveAt<T>(s: seq<T>, p: nat): (r: seq<T>)
    requires p < |s|
    ensures |r| == |s| - 1
    ensures forall i :: 0 <= i < p ==> r[i] == s[i]
    ensures forall i :: p <= i < |r| ==> r[i] == s[i + 1]
  {
    s[..p] + s[p + 1..]
  }

  /** Positions after an insertion at `p`: those at or beyond `p` move up by one. */
  ghost function ShiftUp(ps: seq<nat>, p: nat): (r: seq<nat>)
    ensures |r| == |ps|
    ensures forall k :: 0 <= k < |ps| ==> r[k] == if ps[k] >= p then ps[k] + 1 else ps[k]
  {
    seq(|ps|, k requires 0 <= k < |ps| => if ps[k] >= p then ps[k] + 1 else ps[k])
  }

  /** Positions after a deletion at `p` (of an element none of them points to). */
  ghost function ShiftDown(ps: seq<nat>, p: nat): (r: seq<nat>)
    ensures |r| == |ps|
    ensures forall k :: 0 <= k < |ps| ==> r[k] == if ps[k] > p then ps[k] - 1 else ps[k]
  {
    seq(|ps|, k requires 0 <= k < |ps| => if ps[k] > p then ps[k] - 1 else ps[k])
  }

  /** An insertion into `sup` keeps every embedding into it, with shifted positions. */
  lemma EmbeddedInsert<T>(sub: seq<T>, sup: seq<T>, ps: seq<nat>, p: nat, x: T)
    requires Embedded(sub, sup, ps) && p <= |sup|
    ensures Embedded(sub, InsertAt(sup, p, x), ShiftUp(ps, p))
  {
  }

  /** Inserting a new element keeps a sequence free of repetitions. */
  lemma DistinctInsert<T>(s: seq<T>, p: nat, x: T)
    requires Distinct(s) && x !in s && p <= |s|
    ensures Distinct(InsertAt(s, p, x))
  {
    var s' := InsertAt(s, p, x);
    forall i, j | 0 <= i < j < |s'| ensures s'[i] != s'[j] {
      if i == p {
        assert s'[j] == s[j - 1];
      } else if j == p {
        assert s'[i] == s[i];
      } else {
        var i', j' := if i < p then i else i - 1, if j < p then j else j - 1;
        assert s'[i] == s[i'] && s'[j] == s[j'];
      }
    }
  }

  /** Removing an element keeps a sequence free of repetitions. */
  lemma DistinctRemove<T>(s: seq<T>, p: nat)
    requires Distinct(s) && p < |s|
    ensures Distinct(RemoveAt(s, p))
  {
    var s' := RemoveAt(s, p);
    forall i, j | 0 <= i < j < |s'| ensures s'[i] != s'[j] {
      var i', j' := if i < p then i else i + 1, if j < p then j else j + 1;
      assert s'[i] == s[i'] && s'[j] == s[j'];
    }
  }

  /**
    Inserting `x` into both sequences, at `q` in `sub` and at `p` in `sup`,
    keeps the embedding when exactly the first `q` elements of `sub` sit
    before `p`.
   */
  lemma EmbeddedInsertBoth<T>(sub: seq<T>, sup: seq<T>, ps: seq<nat>, p: nat, q: nat, x: T)
    requires Embedded(sub, sup, ps) && p <= |sup| && q <= |sub|
    requires forall k :: 0 <= k < |ps| ==> (k < q <==> ps[k] < p)
    ensures Embedded(InsertAt(sub, q, x), InsertAt(sup, p, x), InsertAt(ShiftUp(ps, p), q, p))
  {
    var sup' := InsertAt(sup, p, x);
    var ps' := InsertAt(ShiftUp(ps, p), q, p);
    var sub' := InsertAt(sub, q, x);
    forall k | 0 <= k < |ps'|
      ensures ps'[k] < |sup'| && sup'[ps'[k]] == sub'[k]
    {
      if k < q {
        assert ps'[k] == ps[k] < p;
        assert sup'[ps[k]] == sup[ps[k]];
      } else if k > q {
        assert ps'[k] == ps[k - 1] + 1 && p <= ps[k - 1] < |sup|;
        assert sup'[ps[k - 1] + 1] == sup[ps[k - 1]];
      }
    }
    InsertedIncreasing(ps, p, q);
  }

  /** The shifted positions with `p` inserted at `q` are still strictly increasing. */
  lemma InsertedIncreasing(ps: seq<nat>, p: nat, q: nat)
    requires q <= |ps|
    requires forall k, l :: 0 <= k < l < |ps| ==> ps[k] < ps[l]
    requires forall k :: 0 <= k < |ps| ==> (k < q <==> ps[k] < p)
    ensures var ps' := InsertAt(ShiftUp(ps, p), q, p);
      forall k, l :: 0 <= k < l < |ps'| ==> ps'[k] < ps'[l]
  {
    var ps' := InsertAt(ShiftUp(ps, p), q, p);
    forall k, l | 0 <= k < l < |ps'|
      ensures ps'[k] < ps'[l]
    {
      if l < q {
        assert ps[k] < ps[l];
      } else if l == q {
        assert ps'[k] == ps[k];
      } else if k < q {
        assert ps'[k] == ps[k] && ps'[l] == ps[l - 1] + 1;
      } else if k == q {
        assert ps'[l] == ps[l - 1] + 1;
      } else {
        assert ps[k - 1] < ps[l - 1];
      }
    }
  }

  /** Removing the `i`-th element of `sub` from both sequences keeps the embedding. */
  lemma EmbeddedRemoveBoth<T>(sub: seq<T>, sup: seq<T>, ps: seq<nat>, i: nat)
    requires Embedded(sub, sup, ps) && i < |sub|
    ensures Embedded(RemoveAt(sub, i), RemoveAt(sup, ps[i]), ShiftDown(RemoveAt(ps, i), ps[i]))
  {
    var j := ps[i];
    var sup' := RemoveAt(sup, j);
    var ps' := ShiftDown(RemoveAt(ps, i), j);
    var sub' := RemoveAt(sub, i);
    forall k | 0 <= k < |ps'|
      ensures ps'[k] < |sup'| && sup'[ps'[k]] == sub'[k]
    {
      if k >= i {
        assert ps[i] < ps[k + 1];
      } else {
        assert ps[k] < ps[i];
      }
    }
    forall k, l | 0 <= k < l < |ps'|
      ensures ps'[k] < ps'[l]
    {
      if k >= i {
        assert ps[k + 1] < ps[l + 1];
      } else if l >= i {
        assert ps[k] < ps[l + 1];
      } else {
        assert ps[k] < ps[l];
      }
    }
  }

  /** Appending new, distinct elements keeps a sequence free of repetitions. */
  lemma DistinctConcat<T>(s: seq<T>, t: seq<T>)
    requires Distinct(s) && Distinct(t)
    requires forall x :: x in t ==> x !in s
    ensures Distinct(s + t)
  {
    var st := s + t;
    forall i, j | 0 <= i < j < |st| ensures st[i] != st[j] {
      if j < |s| {
        assert st[i] == s[i] && st[j] == s[j];
      } else if i < |s| {
        assert st[j] == t[j - |s|] && t[j - |s|] in t && st[i] == s[i];
      } else {
        assert st[i] == t[i - |s|] && st[j] == t[j - |s|];
      }
    }
  }

  /** Appending to `sup` keeps an embedding into it; appending the last new element to `sub` as well extends it. */
  lemma EmbeddedAppend<T>(sub: seq<T>, sup: seq<T>, ps: seq<nat>, tail: seq<T>)
    requires Embedded(sub, sup, ps) && |tail| > 0
    ensures Embedded(sub, sup + tail, ps)
    ensures Embedded(sub + [tail[|tail| - 1]], sup + tail, ps + [|sup| + |tail| - 1])
  {
  }

  /** Positions witness the classical subsequence relation. */
  lemma {:induction false} EmbeddedIsSubsequence<T>(sub: seq<T>, sup: seq<T>, ps: seq<nat>)
    requires Embedded(sub, sup, ps)
    ensures IsSubsequence(sub, sup)
    decreases |sup|
  {
    if sub == [] {
    } else if ps[0] == 0 {
      assert sub[0] == sup[0];
      var ps' := seq(|ps| - 1, k requires 0 <= k < |ps| - 1 => ps[k + 1] - 1);
      forall k | 0 <= k < |ps'| ensures ps'[k] < |sup[1..]| && sup[1..][ps'[k]] == sub[1..][k] {
        assert ps[0] < ps[k + 1];
      }
      EmbeddedIsSubsequence(sub[1..], sup[1..], ps');
    } else {
      if sub[0] == sup[0] {
        // Re-anchor the first element at position 0.
        var ps' := seq(|ps| - 1, k requires 0 <= k < |ps| - 1 => ps[k + 1] - 1);
        forall k | 0 <= k < |ps'| ensures ps'[k] < |sup[1..]| && sup[1..][ps'[k]] == sub[1..][k] {
          assert ps[0] < ps[k + 1];
        }
        EmbeddedIsSubsequence(sub[1..], sup[1..], ps');
      } else {
        var ps' := seq(|ps|, k requires 0 <= k < |ps| => ps[k] - 1);
        forall k | 0 <= k < |ps'| ensures ps'[k] < |sup[1..]| && sup[1..][ps'[k]] == sub[k] {
          assert ps[0] <= ps[k];
        }
        EmbeddedIsSubsequence(sub, sup[1..], ps');
      }
    }
  }

  /** Every element of an embedded sequence occurs in the sequence it sits in. */
  lemma EmbeddedIn<T>(sub: seq<T>, sup: seq<T>, ps: seq<nat>)
    requires Embedded(sub, sup, ps)
    ensures forall x :: x in sub ==> x in sup
  {
    forall x | x in sub ensures x in sup {
      var k :| 0 <= k < |sub| && sub[k] == x;
      assert sup[ps[k]] == x;
    }
  }

  /** The positions `0, 1, ..., n - 1`. */
  function Identity(n: nat): (r: seq<nat>)
    ensures |r| == n && forall i :: 0 <= i < n ==> r[i] == i
  {
    seq(n, i requires 0 <= i < n => i)
  }

  /** A sequence sits in itself at the identity positions. */
  lemma EmbeddedSelf<T>(s: seq<T>)
    ensures Embedded(s, s, Identity(|s|))
  {
  }
}
