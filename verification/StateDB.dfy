/** The state database and its write-ahead log.  Log entries live under increasing
  * sequence numbers; what a crash leaves of the log is replayed when the database is
  * opened again.
  */
module StateDB {
  import opened MergeEngine

  datatype WalEntry = WalEntry(op: string, path: Path, state: FileState)

  // ---------- what entries mean ----------

  /** An entry with any other operation is skipped. */
  function Apply(m: Snapshot, e: WalEntry): Snapshot {
    if e.op == "set" then m[e.path := e.state]
    else if e.op == "delete" then m - {e.path}
    else m
  }

  function ApplyEach(m: Snapshot, es: seq<WalEntry>): Snapshot
    decreases |es|
  {
    if es == [] then m else Apply(ApplyEach(m, es[..|es| - 1]), es[|es| - 1])
  }

  // ---------- the log bucket ----------

  /** The bucket holds entries under the consecutive keys `first`, `first + 1`, ... */
  ghost predicate IsLog(bucket: map<nat, WalEntry>, first: nat, es: seq<WalEntry>) {
    && (forall k :: k in bucket <==> first <= k < first + |es|)
    && (forall i :: 0 <= i < |es| ==> first + i in bucket && bucket[first + i] == es[i])
  }

  /** The cursor's first key. */
  method First(bucket: map<nat, WalEntry>, ghost first: nat, ghost es: seq<WalEntry>) returns (k: nat)
    requires IsLog(bucket, first, es) && es != []
    ensures k == first
  {
    assert first in bucket;
    k :| k in bucket && forall j :: j in bucket ==> k <= j;
  }

  class Database {
    var state: Snapshot
    var bucket: map<nat, WalEntry>
    var sequence: nat
    var pending: seq<WalEntry>

    /** The log, in key order, and the key of its oldest entry. */
    ghost var log: seq<WalEntry>
    ghost var first: nat

    ghost predicate Valid()
      reads this
    {
      IsLog(bucket, first, log) && first + |log| == sequence + 1
    }

    constructor ()
      ensures Valid() && state == map[] && log == [] && pending == []
    {
      state, bucket, sequence, pending := map[], map[], 0, [];
      log, first := [], 1;
    }

    method Begin(e: WalEntry)
      requires Valid()
      modifies this
      ensures Valid() && log == old(log) + [e] && pending == old(pending) + [e] && state == old(state)
    {
      pending := pending + [e];
      sequence := sequence + 1;
      bucket := bucket[sequence := e];
      log := log + [e];
    }

    /** Forgets the oldest entry; with nothing pending in this process it does nothing. */
    method Commit()
      requires Valid()
      modifies this
      ensures Valid() && state == old(state)
      ensures pending == if old(pending) == [] then [] else old(pending)[1..]
      ensures log == if old(pending) == [] || old(log) == [] then old(log) else old(log)[1..]
    {
      if pending == [] {
        return;
      }
      pending := pending[1..];
      if bucket != map[] {
        ghost var any :| any in bucket;
        assert first <= any < first + |log|;
        var k := First(bucket, first, log);
        bucket := bucket - {k};
        log, first := log[1..], first + 1;
      } else {
        assert log != [] ==> first in bucket;
      }
    }

    method UpdateFile(f: FileState)
      modifies this`state
      ensures state == old(state)[f.path := f]
    {
      state := state[f.path := f];
    }

    method DeleteFile(p: Path)
      modifies this`state
      ensures state == old(state) - {p}
    {
      state := state - {p};
    }

    /** Opening after a crash: the process has no memory of what was pending. */
    method Reopen()
      requires Valid()
      modifies this
      ensures Valid() && state == ApplyEach(old(state), old(log)) && log == [] && bucket == map[] && pending == []
    {
      pending := [];
      ReplayWAL();
    }

    /** Applies every logged entry in key order, then clears the log. */
    method ReplayWAL()
      requires Valid()
      modifies this
      ensures Valid() && state == ApplyEach(old(state), old(log)) && log == [] && bucket == map[] && pending == old(pending)
    {
      var entries: seq<WalEntry> := [];
      var k := sequence + 1 - |bucket|;
      LogSize(bucket, first, log);
      while k <= sequence
        invariant first <= k <= sequence + 1 && entries == log[..k - first]
      {
        entries := entries + [bucket[k]];
        k := k + 1;
      }
      assert entries == log;
      if entries == [] {
        assert bucket == map[] by {
          assert forall j :: j !in bucket;
        }
        return;
      }
      ghost var before := state;
      for i := 0 to |entries|
        invariant state == ApplyEach(before, entries[..i])
        invariant entries == old(log) && bucket == old(bucket) && pending == old(pending) && sequence == old(sequence)
      {
        var e := entries[i];
        assert entries[..i + 1][..i] == entries[..i];
        if e.op == "set" {
          state := state[e.path := e.state];
        } else if e.op == "delete" {
          state := state - {e.path};
        }
      }
      assert entries[..|entries|] == entries;
      bucket := map[];
      log, first := [], sequence + 1;
    }
  }

  lemma {:induction false} LogSize(bucket: map<nat, WalEntry>, first: nat, es: seq<WalEntry>)
    requires IsLog(bucket, first, es)
    ensures |bucket| == |es|
    decreases |es|
  {
    if es == [] {
      assert bucket == map[] by { assert forall k :: k !in bucket; }
    } else {
      var last := first + |es| - 1;
      var rest := bucket - {last};
      LogSize(rest, first, es[..|es| - 1]);
      assert bucket.Keys == rest.Keys + {last};
      assert |bucket| == |bucket.Keys| && |rest| == |rest.Keys|;
    }
  }

  // ---------- crash recovery ----------

  /** What the entries of a list do to one path: nothing, or what the last one says. */
  predicate Speaks(e: WalEntry, p: Path) {
    e.path == p && (e.op == "set" || e.op == "delete")
  }

  predicate Mentions(es: seq<WalEntry>, p: Path) {
    exists i :: 0 <= i < |es| && Speaks(es[i], p)
  }

  lemma {:induction false} Unmentioned(m: Snapshot, es: seq<WalEntry>, p: Path)
    requires !Mentions(es, p)
    ensures Lookup(ApplyEach(m, es), p) == Lookup(m, p)
    decreases |es|
  {
    if es != [] {
      var init := es[..|es| - 1];
      assert forall i :: 0 <= i < |init| ==> init[i] == es[i];
      Unmentioned(m, init, p);
      assert !Speaks(es[|es| - 1], p);
    }
  }

  /** Where a path is mentioned, the state before the entries does not matter. */
  lemma {:induction false} MentionedDecides(m: Snapshot, n: Snapshot, es: seq<WalEntry>, p: Path)
    requires Mentions(es, p)
    ensures Lookup(ApplyEach(m, es), p) == Lookup(ApplyEach(n, es), p)
    decreases |es|
  {
    var last := es[|es| - 1];
    var init := es[..|es| - 1];
    if !Speaks(last, p) {
      var i :| 0 <= i < |es| && Speaks(es[i], p);
      assert init[i] == es[i];
      MentionedDecides(m, n, init, p);
    }
  }

  /** The last entry about a path decides: after a set it has that state, after a delete it is absent,
    * and with none it is as it was.
    */
  lemma {:induction false} LastEntryDecides(m: Snapshot, es: seq<WalEntry>, p: Path, last: nat)
    requires last < |es| && Speaks(es[last], p) && forall i :: last < i < |es| ==> !Speaks(es[i], p)
    ensures var x := ApplyEach(m, es);
      && (es[last].op == "set" ==> p in x && x[p] == es[last].state)
      && (es[last].op == "delete" ==> p !in x)
      && (es[last].op == "set" || es[last].op == "delete")
    decreases |es|
  {
    var n := |es| - 1;
    if last < n {
      LastEntryDecides(m, es[..n], p, last);
    }
  }

  lemma {:induction false} ApplyConcat(m: Snapshot, a: seq<WalEntry>, b: seq<WalEntry>)
    ensures ApplyEach(m, a + b) == ApplyEach(ApplyEach(m, a), b)
    decreases |b|
  {
    if b == [] {
      assert a + b == a;
    } else {
      assert (a + b)[..|a + b| - 1] == a + b[..|b| - 1];
      ApplyConcat(m, a, b[..|b| - 1]);
    }
  }

  /** Applying the tail of a list again, after more of it than its head, gives the same
    * map as applying the whole list once. */
  lemma ReapplyTail(m: Snapshot, ops: seq<WalEntry>, committed: nat, applied: nat)
    requires committed <= applied <= |ops|
    ensures ApplyEach(ApplyEach(m, ops[..applied]), ops[committed..]) == ApplyEach(m, ops)
  {
    var head, middle, tail := ops[..committed], ops[committed..applied], ops[committed..];
    assert ops == head + tail && ops[..applied] == head + middle;
    ApplyConcat(m, head, tail);
    ApplyConcat(m, head, middle);
    var base := ApplyEach(m, head);
    forall p ensures Lookup(ApplyEach(ApplyEach(base, middle), tail), p) == Lookup(ApplyEach(base, tail), p) {
      if Mentions(tail, p) {
        MentionedDecides(ApplyEach(base, middle), base, tail, p);
      } else {
        forall i | 0 <= i < |middle| ensures !Speaks(middle[i], p) { assert middle[i] == tail[i]; }
        Unmentioned(ApplyEach(base, middle), tail, p);
        Unmentioned(base, tail, p);
        Unmentioned(base, middle, p);
      }
    }
    SameLookups(ApplyEach(ApplyEach(base, middle), tail), ApplyEach(base, tail));
  }

  lemma SameLookups(m: Snapshot, n: Snapshot)
    requires forall p :: Lookup(m, p) == Lookup(n, p)
    ensures m == n
  {
    forall p ensures p in m <==> p in n { assert Lookup(m, p) == Lookup(n, p); }
    forall p | p in m ensures m[p] == n[p] { assert Lookup(m, p) == Lookup(n, p); }
  }

  /** One client of the log: operations are begun, applied and committed, each in order. */
  datatype Protocol = Protocol(begun: seq<WalEntry>, applied: nat, committed: nat)

  datatype Event = Begun(entry: WalEntry) | Applied | Committed

  predicate Enabled(s: Protocol, e: Event) {
    match e
    case Begun(_) => true
    case Applied => s.applied < |s.begun|
    case Committed => s.committed < s.applied
  }

  function Happen(s: Protocol, e: Event): Protocol {
    match e
    case Begun(entry) => s.(begun := s.begun + [entry])
    case Applied => s.(applied := s.applied + 1)
    case Committed => s.(committed := s.committed + 1)
  }

  /** The stores agree with how far the protocol has come. */
  ghost predicate Follows(db: Database, s: Protocol, m: Snapshot)
    reads db
  {
    && db.Valid()
    && s.committed <= s.applied <= |s.begun|
    && db.state == ApplyEach(m, s.begun[..s.applied])
    && db.log == s.begun[s.committed..]
    && db.pending == s.begun[s.committed..]
  }

  lemma ApplyEachNext(m: Snapshot, ops: seq<WalEntry>, n: nat)
    requires n < |ops|
    ensures ApplyEach(m, ops[..n + 1]) == Apply(ApplyEach(m, ops[..n]), ops[n])
  {
    assert ops[..n + 1][..n] == ops[..n];
  }

  /** Makes the change the next begun operation announced. */
  method DoNext(db: Database, s: Protocol, ghost m: Snapshot)
    requires Follows(db, s, m) && s.applied < |s.begun|
    modifies db
    ensures Follows(db, s.(applied := s.applied + 1), m)
  {
    var next := s.begun[s.applied];
    ApplyEachNext(m, s.begun, s.applied);
    if next.op == "set" {
      db.state := db.state[next.path := next.state];
    } else if next.op == "delete" {
      db.DeleteFile(next.path);
    }
  }

  /** Carries out one event of the protocol. */
  method Do(db: Database, s: Protocol, e: Event, ghost m: Snapshot)
    requires Follows(db, s, m) && Enabled(s, e)
    modifies db
    ensures Follows(db, Happen(s, e), m)
  {
    match e {
      case Begun(entry) =>
        db.Begin(entry);
        assert (s.begun + [entry])[..s.applied] == s.begun[..s.applied];
      case Applied =>
        DoNext(db, s, m);
      case Committed =>
        db.Commit();
    }
  }

  /** Any run of the protocol, a crash after its last event, and the recovery: the map is
    * what every begun operation, applied once and in order, makes of the map the run
    * started from, and the log is empty, so another run and crash may follow. */
  method RunCrashRecover(db: Database, events: seq<Event>) returns (ghost s: Protocol)
    requires db.Valid() && db.log == [] && db.pending == []
    requires EnabledAll(Protocol([], 0, 0), events)
    modifies db
    ensures s == HappenAll(Protocol([], 0, 0), events)
    ensures db.state == ApplyEach(old(db.state), s.begun)
    ensures db.Valid() && db.log == [] && db.bucket == map[] && db.pending == []
  {
    ghost var m := db.state;
    var at := Protocol([], 0, 0);
    for i := 0 to |events|
      invariant Follows(db, at, m)
      invariant EnabledAll(at, events[i..])
      invariant HappenAll(at, events[i..]) == HappenAll(Protocol([], 0, 0), events)
    {
      assert events[i..][0] == events[i] && events[i..][1..] == events[i + 1..];
      Do(db, at, events[i], m);
      at := Happen(at, events[i]);
    }
    s := at;
    ReapplyTail(m, s.begun, s.committed, s.applied);
    db.Reopen();
  }

  function HappenAll(s: Protocol, events: seq<Event>): Protocol
    decreases |events|
  {
    if events == [] then s else HappenAll(Happen(s, events[0]), events[1..])
  }

  predicate EnabledAll(s: Protocol, events: seq<Event>)
    decreases |events|
  {
    events == [] || (Enabled(s, events[0]) && EnabledAll(Happen(s, events[0]), events[1..]))
  }
}
