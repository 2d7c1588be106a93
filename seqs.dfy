/** Sequence helpers shared by the splitter, the serialiser and the orchestrator. */
module Seqs {

  /** The concatenation of `xss`, in order (`flatMap`, repeated `push`, repeated `+=`). */
  function Flatten<T>(xss: seq<seq<T>>): seq<T>
  {
    if xss == [] then [] else Flatten(xss[..|xss| - 1]) + xss[|xss| - 1]
  }

  /** The sum of a sequence of counts, folded from the front. */
  function Sum(ns: seq<nat>): nat
  {
    if ns == [] then 0 else ns[0] + Sum(ns[1..])
  }

  /** The lengths of the pieces of `xss`. */
  function Lengths<T>(xss: seq<seq<T>>): seq<nat>
  {
    seq(|xss|, i requires 0 <= i < |xss| => |xss[i]|)
  }

  lemma {:induction false} SumAppend(a: seq<nat>, b: seq<nat>)
    ensures Sum(a + b) == Sum(a) + Sum(b)
  {
    if a == [] {
      assert a + b == b;
    } else {
      assert (a + b)[1..] == a[1..] + b;
      SumAppend(a[1..], b);
    }
  }

  /** Appending one piece appends it to the concatenation. */
  lemma FlattenSnoc<T>(xss: seq<seq<T>>, k: nat)
    requires k < |xss|
    ensures Flatten(xss[..k + 1]) == Flatten(xss[..k]) + xss[k]
  {
    assert xss[..k + 1][..k] == xss[..k];
  }

  lemma {:induction false} FlattenAppend<T>(a: seq<seq<T>>, b: seq<seq<T>>)
    ensures Flatten(a + b) == Flatten(a) + Flatten(b)
    decreases |b|
  {
    if b == [] {
      assert a + b == a;
    } else {
      var n := |b| - 1;
      var b' := b[..n];
      assert b == b' + [b[n]];
      assert a + b == (a + b') + [b[n]];
      FlattenAppend(a, b');
      FlattenPush(a + b', b[n]);
      FlattenPush(b', b[n]);
    }
  }

  lemma FlattenPush<T>(xss: seq<seq<T>>, xs: seq<T>)
    ensures Flatten(xss + [xs]) == Flatten(xss) + xs
  {
    assert (xss + [xs])[..|xss|] == xss;
  }

  /** The concatenation is exactly as long as all the pieces together. */
  lemma {:induction false} FlattenLength<T>(xss: seq<seq<T>>)
    ensures |Flatten(xss)| == Sum(Lengths(xss))
    decreases |xss|
  {
    if xss != [] {
      var init := xss[..|xss| - 1];
      FlattenLength(init);
      assert Lengths(xss) == Lengths(init) + [|xss[|xss| - 1]|];
      SumAppend(Lengths(init), [|xss[|xss| - 1]|]);
    }
  }

  /** Document order: element `j` of piece `i` sits right after all of the
      pieces before `i`. */
  lemma {:induction false} FlattenAt<T>(xss: seq<seq<T>>, i: nat, j: nat)
    requires i < |xss| && j < |xss[i]|
    ensures |Flatten(xss[..i])| + j < |Flatten(xss)|
    ensures Flatten(xss)[|Flatten(xss[..i])| + j] == xss[i][j]
  {
    assert xss == xss[..i + 1] + xss[i + 1..];
    FlattenAppend(xss[..i + 1], xss[i + 1..]);
    FlattenSnoc(xss, i);
  }

  /** `FlattenAt`, with the whole, the pieces before `i` and piece `i` given by name. */
  lemma FlattenOrder<T>(xss: seq<seq<T>>, whole: seq<T>, before: seq<T>, piece: seq<T>, i: nat, j: nat)
    requires i < |xss| && whole == Flatten(xss) && before == Flatten(xss[..i]) && piece == xss[i]
    requires j < |piece|
    ensures |before| + j < |whole| && whole[|before| + j] == piece[j]
  {
    FlattenAt(xss, i, j);
    var k := |Flatten(xss[..i])| + j;
    assert k == |before| + j;
    assert whole[k] == Flatten(xss)[k];
  }

  /** Every element of the concatenation comes from some piece. */
  lemma {:induction false} FlattenMember<T>(xss: seq<seq<T>>, x: T)
    requires x in Flatten(xss)
    ensures exists i :: 0 <= i < |xss| && x in xss[i]
    decreases |xss|
  {
    var init := xss[..|xss| - 1];
    if x in xss[|xss| - 1] {
      assert x in xss[|xss| - 1];
    } else {
      FlattenMember(init, x);
      var i :| 0 <= i < |init| && x in init[i];
      assert x in xss[i];
    }
  }

  /** Every element of every piece is in the concatenation. */
  lemma {:induction false} MemberFlatten<T>(xss: seq<seq<T>>, i: nat, x: T)
    requires i < |xss| && x in xss[i]
    ensures x in Flatten(xss)
  {
    var j :| 0 <= j < |xss[i]| && xss[i][j] == x;
    FlattenAt(xss, i, j);
  }

  /** Whatever opens a sequence is in it. */
  lemma PrefixMembers<T>(xs: seq<T>, a: seq<T>, b: seq<T>)
    requires |a| + |b| <= |xs| && xs[..|a| + |b|] == a + b
    ensures forall t :: t in a ==> t in xs
    ensures forall t :: t in b ==> t in xs
  {
    forall t | t in a ensures t in xs {
      var j :| 0 <= j < |a| && a[j] == t;
      assert xs[..|a| + |b|][j] == t;
    }
    forall t | t in b ensures t in xs {
      var j :| 0 <= j < |b| && b[j] == t;
      assert xs[..|a| + |b|][|a| + j] == t;
    }
  }

  /** Concatenating empty pieces gives nothing. */
  lemma {:induction false} FlattenEmpty<T>(xss: seq<seq<T>>)
    requires forall i :: 0 <= i < |xss| ==> xss[i] == []
    ensures Flatten(xss) == []
    decreases |xss|
  {
    if xss != [] {
      FlattenEmpty(xss[..|xss| - 1]);
    }
  }

  // ---------------------------------------------------------------------
  // Filtering

  /** The elements of `xs` that satisfy `keep`, in order (`xs.filter(keep)`). */
  function Select<T>(xs: seq<T>, keep: T -> bool): (r: seq<T>)
    ensures |r| <= |xs|
  {
    if xs == [] then []
    else
      var n := |xs| - 1;
      Select(xs[..n], keep) + (if keep(xs[n]) then [xs[n]] else [])
  }

  /** The positions of the elements of `xs` that satisfy `keep`, in order. */
  function Positions<T>(xs: seq<T>, keep: T -> bool): seq<nat>
  {
    if xs == [] then []
    else
      var n := |xs| - 1;
      Positions(xs[..n], keep) + (if keep(xs[n]) then [n] else [])
  }

  predicate Increasing(idx: seq<nat>)
  {
    forall j, j' :: 0 <= j < j' < |idx| ==> idx[j] < idx[j']
  }

  /** `Select` is an order-preserving subsequence: its j-th element is the
      element at the j-th of a strictly increasing list of positions, and a
      position is on that list iff its element satisfies `keep`. */
  lemma SelectIsSubsequence<T>(xs: seq<T>, keep: T -> bool)
    ensures var ys, idx := Select(xs, keep), Positions(xs, keep);
            && |idx| == |ys|
            && (forall j :: 0 <= j < |idx| ==> idx[j] < |xs| && ys[j] == xs[idx[j]])
            && Increasing(idx)
            && (forall i :: 0 <= i < |xs| ==> (i in idx <==> keep(xs[i])))
  {
    PositionsBounded(xs, keep);
    SelectAtPositions(xs, keep);
    PositionsIncrease(xs, keep);
    PositionsExact(xs, keep);
  }

  lemma {:induction false} PositionsBounded<T>(xs: seq<T>, keep: T -> bool)
    ensures forall j :: 0 <= j < |Positions(xs, keep)| ==> Positions(xs, keep)[j] < |xs|
    decreases |xs|
  {
    if xs != [] {
      PositionsBounded(xs[..|xs| - 1], keep);
    }
  }

  lemma {:induction false} SelectAtPositions<T>(xs: seq<T>, keep: T -> bool)
    ensures var ys, idx := Select(xs, keep), Positions(xs, keep);
            && |idx| == |ys|
            && forall j :: 0 <= j < |idx| ==> idx[j] < |xs| && ys[j] == xs[idx[j]]
    decreases |xs|
  {
    if xs != [] {
      var n := |xs| - 1;
      SelectAtPositions(xs[..n], keep);
      assert forall i :: 0 <= i < n ==> xs[..n][i] == xs[i];
    }
  }

  lemma {:induction false} PositionsIncrease<T>(xs: seq<T>, keep: T -> bool)
    ensures Increasing(Positions(xs, keep))
    decreases |xs|
  {
    if xs != [] {
      var n := |xs| - 1;
      PositionsIncrease(xs[..n], keep);
      PositionsBounded(xs[..n], keep);
      var idx0 := Positions(xs[..n], keep);
      var idx := Positions(xs, keep);
      assert idx == idx0 + (if keep(xs[n]) then [n] else []);
      forall j, j' | 0 <= j < j' < |idx| ensures idx[j] < idx[j'] {
        if j' < |idx0| {
          assert idx[j] == idx0[j] && idx[j'] == idx0[j'];
          assert idx0[j] < idx0[j'];
        } else {
          assert idx[j] == idx0[j] < n == idx[j'];
        }
      }
    }
  }

  lemma {:induction false} PositionsExact<T>(xs: seq<T>, keep: T -> bool)
    ensures var idx := Positions(xs, keep);
            forall i :: 0 <= i < |xs| ==> (i in idx <==> keep(xs[i]))
    decreases |xs|
  {
    if xs != [] {
      var n := |xs| - 1;
      PositionsExact(xs[..n], keep);
      PositionsBounded(xs[..n], keep);
      assert forall i :: 0 <= i < n ==> xs[..n][i] == xs[i];
    }
  }

  /** An element is selected iff it occurs in `xs` and satisfies `keep`. */
  lemma {:induction false} SelectMembers<T>(xs: seq<T>, keep: T -> bool)
    ensures forall x :: x in Select(xs, keep) <==> x in xs && keep(x)
    decreases |xs|
  {
    if xs != [] {
      var n := |xs| - 1;
      SelectMembers(xs[..n], keep);
      assert xs == xs[..n] + [xs[n]];
    }
  }

  lemma SelectSnoc<T>(xs: seq<T>, x: T, keep: T -> bool)
    ensures Select(xs + [x], keep) == Select(xs, keep) + (if keep(x) then [x] else [])
  {
    assert (xs + [x])[..|xs|] == xs;
  }
}
