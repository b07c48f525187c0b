/** Version vectors are exact causality.
  * Any number of devices edit one file and synchronise with one another in any order.
  * Each edit is a distinct event, numbered by its position in a global log the program
  * never sees; a replica's `seen` set is what it has really learned.  The theorem is
  * that comparing vectors decides exactly how the seen sets compare.
  */
module Causality {
  import opened VersionVectors

  datatype Replica = Replica(vv: VersionVector, seen: set<nat>)

  /** `log[i]` is the device that made edit number `i`. */
  datatype World = World(log: seq<DeviceID>, replicas: map<DeviceID, Replica>)

  datatype Step = Edit(device: DeviceID) | Sync(into: DeviceID, from: DeviceID)

  function Start(devices: set<DeviceID>): World {
    World([], map d | d in devices :: Replica(map[], {}))
  }

  /** An edit increments the editor's own counter; a sync merges two vectors. */
  function Next(w: World, s: Step): World {
    match s
    case Edit(d) =>
      if d !in w.replicas then w else
      var r := w.replicas[d];
      World(w.log + [d], w.replicas[d := Replica(Bump(r.vv, d, 1), r.seen + {|w.log|})])
    case Sync(into, from) =>
      if into !in w.replicas || from !in w.replicas then w else
      var a, b := w.replicas[into], w.replicas[from];
      w.(replicas := w.replicas[into := Replica(Join(a.vv, b.vv), a.seen + b.seen)])
  }

  function Run(w: World, steps: seq<Step>): World
    decreases |steps|
  {
    if steps == [] then w else Run(Next(w, steps[0]), steps[1..])
  }

  // ---------- the invariant ----------

  /** How many edits in the log are by `d`. */
  ghost function Count(log: seq<DeviceID>, d: DeviceID): nat {
    if log == [] then 0
    else Count(log[..|log| - 1], d) + if log[|log| - 1] == d then 1 else 0
  }

  /** The number of edit `i` among the edits of its own device, from 1. */
  ghost function Ordinal(log: seq<DeviceID>, i: nat): nat
    requires i < |log|
  {
    Count(log[..i + 1], log[i])
  }

  /** The counters name, device by device, the initial run of edits that was seen. */
  ghost predicate Exact(log: seq<DeviceID>, r: Replica) {
    && (forall i :: i in r.seen ==> i < |log|)
    && (forall i: nat :: i < |log| ==> (i in r.seen <==> Ordinal(log, i) <= At(r.vv, log[i])))
    && (forall d :: At(r.vv, d) <= Count(log, d))
  }

  /** Every replica is exact, and a device has always seen its own edits. */
  ghost predicate Inv(w: World) {
    && (forall d :: d in w.replicas ==> Exact(w.log, w.replicas[d]))
    && (forall d :: d in w.replicas ==> At(w.replicas[d].vv, d) == Count(w.log, d))
    && (forall i: nat :: i < |w.log| ==> w.log[i] in w.replicas)
  }

  lemma CountSnoc(log: seq<DeviceID>, e: DeviceID, d: DeviceID)
    ensures Count(log + [e], d) == Count(log, d) + if e == d then 1 else 0
  {
    assert (log + [e])[..|log|] == log;
  }

  lemma OrdinalSnoc(log: seq<DeviceID>, e: DeviceID)
    ensures forall i: nat :: i < |log| ==> Ordinal(log + [e], i) == Ordinal(log, i)
    ensures Ordinal(log + [e], |log|) == Count(log, e) + 1
  {
    forall i: nat | i < |log| ensures Ordinal(log + [e], i) == Ordinal(log, i) {
      assert (log + [e])[..i + 1] == log[..i + 1];
    }
    assert (log + [e])[..|log| + 1] == log + [e];
    CountSnoc(log, e, e);
  }

  lemma {:induction false} OrdinalAtMostCount(log: seq<DeviceID>, i: nat)
    requires i < |log|
    ensures Ordinal(log, i) <= Count(log, log[i])
  {
    if i + 1 < |log| {
      var shorter := log[..|log| - 1];
      OrdinalAtMostCount(shorter, i);
      assert shorter[..i + 1] == log[..i + 1];
    } else {
      assert log[..i + 1] == log;
    }
  }

  /** The `n`-th edit of a device exists as soon as it has made `n`. */
  lemma {:induction false} NthEdit(log: seq<DeviceID>, d: DeviceID, n: nat) returns (i: nat)
    requires 1 <= n <= Count(log, d)
    ensures i < |log| && log[i] == d && Ordinal(log, i) == n
  {
    var shorter := log[..|log| - 1];
    if n <= Count(shorter, d) {
      i := NthEdit(shorter, d, n);
      assert shorter[..i + 1] == log[..i + 1];
    } else {
      i := |log| - 1;
      assert log[..i + 1] == log;
    }
  }

  lemma EditKeepsExact(log: seq<DeviceID>, r: Replica, e: DeviceID)
    requires Exact(log, r)
    ensures Exact(log + [e], r)
  {
    OrdinalSnoc(log, e);
    forall d ensures At(r.vv, d) <= Count(log + [e], d) { CountSnoc(log, e, d); }
    forall i: nat | i < |log + [e]|
      ensures i in r.seen <==> Ordinal(log + [e], i) <= At(r.vv, (log + [e])[i])
    {
      assert i < |log| ==> Ordinal(log + [e], i) == Ordinal(log, i);
    }
  }

  /** One position of the log, before and after its device appends an edit. */
  lemma OwnEditAt(log: seq<DeviceID>, r: Replica, e: DeviceID, i: nat)
    requires Exact(log, r) && At(r.vv, e) == Count(log, e) && i <= |log|
    ensures i in r.seen + {|log|} <==> Ordinal(log + [e], i) <= At(Bump(r.vv, e, 1), (log + [e])[i])
  {
    OrdinalSnoc(log, e);
    if i < |log| {
      assert Ordinal(log + [e], i) == Ordinal(log, i) && (log + [e])[i] == log[i];
      OrdinalAtMostCount(log, i);
    }
  }

  lemma OwnEditKeepsExact(log: seq<DeviceID>, r: Replica, e: DeviceID)
    requires Exact(log, r) && At(r.vv, e) == Count(log, e)
    ensures Exact(log + [e], Replica(Bump(r.vv, e, 1), r.seen + {|log|}))
  {
    forall d ensures At(Bump(r.vv, e, 1), d) <= Count(log + [e], d) { CountSnoc(log, e, d); }
    forall i: nat | i < |log + [e]|
      ensures i in r.seen + {|log|} <==> Ordinal(log + [e], i) <= At(Bump(r.vv, e, 1), (log + [e])[i])
    {
      OwnEditAt(log, r, e, i);
    }
  }

  lemma EditKeepsInv(w: World, e: DeviceID)
    requires Inv(w) && e in w.replicas
    ensures Inv(Next(w, Edit(e)))
  {
    var w' := Next(w, Edit(e));
    forall d | d in w'.replicas
      ensures Exact(w'.log, w'.replicas[d]) && At(w'.replicas[d].vv, d) == Count(w'.log, d)
    {
      CountSnoc(w.log, e, d);
      if d == e {
        OwnEditKeepsExact(w.log, w.replicas[e], e);
      } else {
        EditKeepsExact(w.log, w.replicas[d], e);
      }
    }
  }

  lemma JoinKeepsExact(log: seq<DeviceID>, a: Replica, b: Replica)
    requires Exact(log, a) && Exact(log, b)
    ensures Exact(log, Replica(Join(a.vv, b.vv), a.seen + b.seen))
  {
    var r := Replica(Join(a.vv, b.vv), a.seen + b.seen);
    assert forall d :: At(r.vv, d) == if At(a.vv, d) < At(b.vv, d) then At(b.vv, d) else At(a.vv, d);
  }

  lemma SyncKeepsInv(w: World, into: DeviceID, from: DeviceID)
    requires Inv(w) && into in w.replicas && from in w.replicas
    ensures Inv(Next(w, Sync(into, from)))
  {
    var a, b := w.replicas[into], w.replicas[from];
    JoinKeepsExact(w.log, a, b);
    assert At(b.vv, into) <= Count(w.log, into);
  }

  lemma NextKeepsInv(w: World, s: Step)
    requires Inv(w)
    ensures Inv(Next(w, s)) && Next(w, s).replicas.Keys == w.replicas.Keys
  {
    match s
    case Edit(d) =>
      if d in w.replicas {
        EditKeepsInv(w, d);
      }
    case Sync(into, from) =>
      if into in w.replicas && from in w.replicas {
        SyncKeepsInv(w, into, from);
      }
  }

  lemma {:induction false} RunKeepsInv(w: World, steps: seq<Step>)
    requires Inv(w)
    ensures Inv(Run(w, steps)) && Run(w, steps).replicas.Keys == w.replicas.Keys
    decreases |steps|
  {
    if steps != [] {
      NextKeepsInv(w, steps[0]);
      RunKeepsInv(Next(w, steps[0]), steps[1..]);
    }
  }

  lemma OrderIsInclusion(log: seq<DeviceID>, a: Replica, b: Replica)
    requires Exact(log, a) && Exact(log, b)
    ensures Leq(a.vv, b.vv) <==> a.seen <= b.seen
  {
    if a.seen <= b.seen {
      forall d | d in a.vv ensures a.vv[d] <= At(b.vv, d) {
        if At(b.vv, d) < a.vv[d] {
          assert At(a.vv, d) <= Count(log, d);
          var i := NthEdit(log, d, a.vv[d]);
          assert false;
        }
      }
    }
    if Leq(a.vv, b.vv) {
      forall i | i in a.seen ensures i in b.seen {
        assert Ordinal(log, i) <= At(a.vv, log[i]) <= At(b.vv, log[i]);
      }
    }
  }

  lemma ComparisonsAreInclusions(log: seq<DeviceID>, a: Replica, b: Replica)
    requires Exact(log, a) && Exact(log, b)
    ensures SameHistory(a.vv, b.vv) <==> a.seen == b.seen
    ensures StrictlyAfter(a.vv, b.vv) <==> b.seen < a.seen
    ensures Diverged(a.vv, b.vv) <==> !(a.seen <= b.seen) && !(b.seen <= a.seen)
  {
    OrderIsInclusion(log, a, b);
    OrderIsInclusion(log, b, a);
  }

  /** In every run of any number of devices, each comparison of two vectors is exactly
    * the corresponding comparison of the sets of edits the two replicas have seen. */
  lemma VectorsAreExactCausality(devices: set<DeviceID>, steps: seq<Step>, x: DeviceID, y: DeviceID)
    requires x in devices && y in devices
    ensures x in Run(Start(devices), steps).replicas && y in Run(Start(devices), steps).replicas
    ensures var a, b := Run(Start(devices), steps).replicas[x], Run(Start(devices), steps).replicas[y];
            && (SameHistory(a.vv, b.vv) <==> a.seen == b.seen)
            && (StrictlyAfter(a.vv, b.vv) <==> b.seen < a.seen)
            && (Diverged(a.vv, b.vv) <==> !(a.seen <= b.seen) && !(b.seen <= a.seen))
  {
    RunKeepsInv(Start(devices), steps);
    var w := Run(Start(devices), steps);
    ComparisonsAreInclusions(w.log, w.replicas[x], w.replicas[y]);
  }
}
