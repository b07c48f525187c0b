/** Version vectors: per-device edit counters, where a missing entry counts as zero. */
module VersionVectors {

  type DeviceID = string
  type VersionVector = map<DeviceID, nat>

  // ---------- what the vectors mean ----------

  function At(v: VersionVector, d: DeviceID): nat {
    if d in v then v[d] else 0
  }

  /** Every edit counted by `a` is counted by `b`. */
  predicate Leq(a: VersionVector, b: VersionVector) {
    forall d :: d in a ==> a[d] <= At(b, d)
  }

  predicate SameHistory(a: VersionVector, b: VersionVector) {
    Leq(a, b) && Leq(b, a)
  }

  predicate StrictlyAfter(a: VersionVector, b: VersionVector) {
    Leq(b, a) && !Leq(a, b)
  }

  predicate Diverged(a: VersionVector, b: VersionVector) {
    !Leq(a, b) && !Leq(b, a)
  }

  /** The pointwise maximum. */
  function Join(a: VersionVector, b: VersionVector): VersionVector {
    map d | d in a.Keys + b.Keys :: if At(a, d) < At(b, d) then At(b, d) else At(a, d)
  }

  function Bump(v: VersionVector, d: DeviceID, delta: nat): VersionVector {
    v[d := At(v, d) + delta]
  }

  /** `v` is the least vector above everything in `vs`. */
  ghost predicate IsLeastUpperBound(v: VersionVector, vs: seq<VersionVector>) {
    && (forall i :: 0 <= i < |vs| ==> Leq(vs[i], v))
    && (forall w: VersionVector :: (forall i :: 0 <= i < |vs| ==> Leq(vs[i], w)) ==> Leq(v, w))
  }

  lemma JoinIsLeastUpperBound(a: VersionVector, b: VersionVector)
    ensures IsLeastUpperBound(Join(a, b), [a, b])
  {
    forall w: VersionVector | forall i :: 0 <= i < |[a, b]| ==> Leq([a, b][i], w)
      ensures Leq(Join(a, b), w)
    {
      assert Leq([a, b][0], w) && Leq([a, b][1], w);
    }
  }

  /** The greater of two comparable vectors, and a vector alone, are their own bounds. */
  lemma GreaterIsLeastUpperBound(a: VersionVector, b: VersionVector)
    requires Leq(b, a)
    ensures IsLeastUpperBound(a, [a, b]) && IsLeastUpperBound(a, [b, a]) && IsLeastUpperBound(a, [a])
  {
    forall w: VersionVector
      ensures (forall i :: 0 <= i < |[a, b]| ==> Leq([a, b][i], w)) ==> Leq(a, w)
      ensures (forall i :: 0 <= i < |[b, a]| ==> Leq([b, a][i], w)) ==> Leq(a, w)
      ensures (forall i :: 0 <= i < |[a]| ==> Leq([a][i], w)) ==> Leq(a, w)
    {
      assert [a, b][0] == a && [b, a][1] == a && [a][0] == a;
    }
  }

  // ---------- the operations, as the program computes them ----------

  method Clone(a: VersionVector) returns (out: VersionVector)
    ensures out == a
  {
    out := map[];
    var todo := a.Keys;
    while todo != {}
      invariant todo <= a.Keys && out.Keys == a.Keys - todo
      invariant forall d :: d in out ==> out[d] == a[d]
    {
      var id :| id in todo;
      out := out[id := a[id]];
      todo := todo - {id};
    }
  }

  /** Scans both maps, leaving at the first counter the other side contradicts. */
  method Equal(a: VersionVector, b: VersionVector) returns (equal: bool)
    ensures equal <==> SameHistory(a, b)
    ensures equal <==> forall d :: At(a, d) == At(b, d)
  {
    var todo := a.Keys;
    while todo != {}
      invariant todo <= a.Keys
      invariant forall d :: d in a.Keys - todo ==> a[d] == At(b, d)
    {
      var id :| id in todo;
      if (id !in b && a[id] != 0) || (id in b && b[id] != a[id]) {
        assert At(a, id) != At(b, id);
        return false;
      }
      todo := todo - {id};
    }
    todo := b.Keys;
    while todo != {}
      invariant todo <= b.Keys
      invariant forall d :: d in b.Keys - todo ==> b[d] == At(a, d)
    {
      var id :| id in todo;
      if (id !in a && b[id] != 0) || (id in a && a[id] != b[id]) {
        assert At(a, id) != At(b, id);
        return false;
      }
      todo := todo - {id};
    }
    return true;
  }

  /** Early exits on a smaller counter, and a flag for one strictly greater. */
  method Dominates(a: VersionVector, b: VersionVector) returns (dominates: bool)
    ensures dominates <==> StrictlyAfter(a, b)
  {
    var hasStrictlyGreater := false;
    var todo := a.Keys;
    while todo != {}
      invariant todo <= a.Keys
      invariant forall d :: d in a.Keys - todo ==> At(b, d) <= a[d]
      invariant hasStrictlyGreater <==> exists d :: d in a.Keys - todo && At(b, d) < a[d]
    {
      var id :| id in todo;
      var cb := if id in b then b[id] else 0;
      if a[id] < cb {
        return false;
      }
      if a[id] > cb {
        assert id in a.Keys - (todo - {id});
        hasStrictlyGreater := true;
      }
      todo := todo - {id};
    }
    todo := b.Keys;
    while todo != {}
      invariant todo <= b.Keys
      invariant forall d :: d in b.Keys - todo ==> b[d] <= At(a, d)
    {
      var id :| id in todo;
      if id !in a && b[id] > 0 {
        return false;
      }
      todo := todo - {id};
    }
    return hasStrictlyGreater;
  }

  method Merge(a: VersionVector, b: VersionVector) returns (out: VersionVector)
    ensures out == Join(a, b)
    ensures IsLeastUpperBound(out, [a, b])
  {
    out := Clone(a);
    var todo := b.Keys;
    while todo != {}
      invariant todo <= b.Keys && out.Keys == a.Keys + (b.Keys - todo)
      invariant forall d :: d in out && d !in todo ==> out[d] == Join(a, b)[d]
      invariant forall d :: d in todo && d in out ==> out[d] == a[d]
    {
      var id :| id in todo;
      if id !in out || b[id] > out[id] {
        out := out[id := b[id]];
      }
      todo := todo - {id};
    }
    JoinIsLeastUpperBound(a, b);
  }

  method Increment(a: VersionVector, device: DeviceID, delta: nat) returns (out: VersionVector)
    ensures out == Bump(a, device, delta)
    ensures forall d :: At(out, d) == if d == device then At(a, d) + delta else At(a, d)
  {
    out := Clone(a);
    out := out[device := (if device in out then out[device] else 0) + delta];
  }

  method Diverges(a: VersionVector, b: VersionVector) returns (r: bool)
    ensures r <==> Diverged(a, b)
  {
    var equal := Equal(a, b);
    var above := Dominates(a, b);
    var below := Dominates(b, a);
    r := !equal && !above && !below;
  }
}
