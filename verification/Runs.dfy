/** Runs made of single writes.  A job decides, from the state it finds, which writes to
  * make and whether it fails after them; a crash can come between any two writes, so what
  * a run may leave behind is the state after any prefix of its writes.
  */
module Runs {

  /** The writes of a job or of a run, in order, and whether everything was carried out. */
  datatype Outcome<X> = Outcome(writes: seq<X>, ok: bool)

  /** The state after some writes. */
  function After<W, X>(exec: (W, X) -> W, w: W, writes: seq<X>): W
    decreases |writes|
  {
    if writes == [] then w else exec(After(exec, w, writes[..|writes| - 1]), writes[|writes| - 1])
  }

  /** The jobs in order, up to the first that fails. */
  function RunAll<W, X, J>(exec: (W, X) -> W, step: (W, J) -> Outcome<X>, w: W, jobs: seq<J>): Outcome<X>
    decreases |jobs|
  {
    if jobs == [] then Outcome([], true)
    else
      var one := step(w, jobs[0]);
      if !one.ok then one
      else
        var rest := RunAll(exec, step, After(exec, w, one.writes), jobs[1..]);
        Outcome(one.writes + rest.writes, rest.ok)
  }

  lemma {:induction false} AfterConcat<W, X>(exec: (W, X) -> W, w: W, a: seq<X>, b: seq<X>)
    ensures After(exec, w, a + b) == After(exec, After(exec, w, a), b)
    decreases |b|
  {
    if b == [] {
      assert a + b == a;
    } else {
      AfterConcat(exec, w, a, b[..|b| - 1]);
      assert (a + b)[..|a + b| - 1] == a + b[..|b| - 1];
    }
  }

  lemma {:induction false} AfterOne<W, X>(exec: (W, X) -> W, w: W, x: X)
    ensures After(exec, w, [x]) == exec(w, x)
  {
    assert [x][..|[x]| - 1] == [];
    assert After(exec, w, [x]) == exec(After(exec, w, []), x);
  }

  lemma {:induction false} AfterTwo<W, X>(exec: (W, X) -> W, w: W, x: X, y: X)
    ensures After(exec, w, [x, y]) == exec(exec(w, x), y)
  {
    assert [x, y][..1] == [x];
    AfterOne(exec, w, x);
  }

  lemma {:induction false} AfterThree<W, X>(exec: (W, X) -> W, w: W, x: X, y: X, z: X)
    ensures After(exec, w, [x, y, z]) == exec(exec(exec(w, x), y), z)
  {
    assert [x, y, z][..2] == [x, y];
    AfterTwo(exec, w, x, y);
  }

  /** Each prefix of a job of at most three writes. */
  lemma {:induction false} AfterPrefix<W, X>(exec: (W, X) -> W, w: W, writes: seq<X>, k: nat)
    requires k <= |writes| <= 3
    ensures After(exec, w, writes[..k]) ==
            if k == 0 then w
            else if k == 1 then exec(w, writes[0])
            else if k == 2 then exec(exec(w, writes[0]), writes[1])
            else exec(exec(exec(w, writes[0]), writes[1]), writes[2])
  {
    if k == 1 {
      assert writes[..1] == [writes[0]];
      AfterOne(exec, w, writes[0]);
    } else if k == 2 {
      assert writes[..2] == [writes[0], writes[1]];
      AfterTwo(exec, w, writes[0], writes[1]);
    } else if k == 3 {
      assert writes[..3] == [writes[0], writes[1], writes[2]];
      AfterThree(exec, w, writes[0], writes[1], writes[2]);
    }
  }

  /** A run seen from its middle: `done` was written, the rest starts from `w`. */
  ghost predicate Resumes<W, X, J>(whole: Outcome<X>, done: seq<X>, exec: (W, X) -> W, step: (W, J) -> Outcome<X>,
                                   w: W, jobs: seq<J>, i: nat)
    requires i <= |jobs|
  {
    var rest := RunAll(exec, step, w, jobs[i..]);
    whole == Outcome(done + rest.writes, rest.ok)
  }

  lemma ResumeStart<W, X, J>(exec: (W, X) -> W, step: (W, J) -> Outcome<X>, start: W, jobs: seq<J>)
    ensures Resumes(RunAll(exec, step, start, jobs), [], exec, step, start, jobs, 0)
  {
    assert jobs[0..] == jobs;
  }

  lemma ResumeStep<W, X, J>(whole: Outcome<X>, done: seq<X>, exec: (W, X) -> W, step: (W, J) -> Outcome<X>,
                            w: W, jobs: seq<J>, i: nat, one: Outcome<X>)
    requires i < |jobs| && one == step(w, jobs[i])
    requires Resumes(whole, done, exec, step, w, jobs, i)
    ensures one.ok ==> Resumes(whole, done + one.writes, exec, step, After(exec, w, one.writes), jobs, i + 1)
    ensures !one.ok ==> whole == Outcome(done + one.writes, false)
  {
    assert jobs[i..][1..] == jobs[i + 1..];
    var rest := RunAll(exec, step, After(exec, w, one.writes), jobs[i + 1..]);
    assert done + (one.writes + rest.writes) == done + one.writes + rest.writes;
  }

  /** One more job: what it writes is added to what was written. */
  lemma Advance<W, X, J>(whole: Outcome<X>, done: seq<X>, exec: (W, X) -> W, step: (W, J) -> Outcome<X>,
                         start: W, w: W, jobs: seq<J>, i: nat) returns (next: seq<X>)
    requires i < |jobs| && w == After(exec, start, done) && Resumes(whole, done, exec, step, w, jobs, i)
    ensures next == done + step(w, jobs[i]).writes
    ensures After(exec, start, next) == After(exec, w, step(w, jobs[i]).writes)
    ensures step(w, jobs[i]).ok ==> Resumes(whole, next, exec, step, After(exec, start, next), jobs, i + 1)
    ensures !step(w, jobs[i]).ok ==> whole == Outcome(next, false)
  {
    var one := step(w, jobs[i]);
    next := done + one.writes;
    ResumeStep(whole, done, exec, step, w, jobs, i, one);
    AfterConcat(exec, start, done, one.writes);
  }

  lemma ResumeEnd<W, X, J>(whole: Outcome<X>, done: seq<X>, exec: (W, X) -> W, step: (W, J) -> Outcome<X>,
                           w: W, jobs: seq<J>)
    requires Resumes(whole, done, exec, step, w, jobs, |jobs|)
    ensures whole == Outcome(done, true)
  {
    assert done + [] == done;
  }

  /** What every job writes, a run writes. */
  lemma {:induction false} RunWrites<W(!new), X, J(!new)>(p: X -> bool, exec: (W, X) -> W, step: (W, J) -> Outcome<X>, w: W, jobs: seq<J>)
    requires forall v, j, x :: j in jobs && x in step(v, j).writes ==> p(x)
    ensures forall x :: x in RunAll(exec, step, w, jobs).writes ==> p(x)
    decreases |jobs|
  {
    if jobs != [] {
      var one := step(w, jobs[0]);
      assert jobs[0] in jobs;
      RunWrites(p, exec, step, After(exec, w, one.writes), jobs[1..]);
    }
  }

  /** A job leaves the invariant true after each of its writes. */
  ghost predicate StepKeeps<W, X, J>(inv: W -> bool, exec: (W, X) -> W, step: (W, J) -> Outcome<X>, w: W, job: J) {
    inv(w) ==> forall k: nat :: k <= |step(w, job).writes| ==> inv(After(exec, w, step(w, job).writes[..k]))
  }

  /** An invariant of every job holds after any prefix of the writes of a run. */
  lemma {:induction false} RunKeeps<W(!new), X, J(!new)>(inv: W -> bool, exec: (W, X) -> W, step: (W, J) -> Outcome<X>,
                                                         w: W, jobs: seq<J>, n: nat)
    requires inv(w)
    requires forall v, j :: j in jobs ==> StepKeeps(inv, exec, step, v, j)
    requires n <= |RunAll(exec, step, w, jobs).writes|
    ensures inv(After(exec, w, RunAll(exec, step, w, jobs).writes[..n]))
    decreases |jobs|
  {
    if jobs == [] {
      assert RunAll(exec, step, w, jobs).writes[..n] == [];
    } else {
      var one := step(w, jobs[0]);
      assert jobs[0] in jobs && StepKeeps(inv, exec, step, w, jobs[0]);
      if n <= |one.writes| {
        assert RunAll(exec, step, w, jobs).writes[..n] == one.writes[..n];
      } else {
        assert one.writes[..|one.writes|] == one.writes;
        var w' := After(exec, w, one.writes);
        var rest := RunAll(exec, step, w', jobs[1..]);
        RunKeeps(inv, exec, step, w', jobs[1..], n - |one.writes|);
        assert RunAll(exec, step, w, jobs).writes[..n] == one.writes + rest.writes[..n - |one.writes|];
        AfterConcat(exec, w, one.writes, rest.writes[..n - |one.writes|]);
      }
    }
  }

  lemma {:induction false} RunOfOne<W, X, J>(exec: (W, X) -> W, step: (W, J) -> Outcome<X>, w: W, jobs: seq<J>)
    requires |jobs| == 1
    ensures RunAll(exec, step, w, jobs) == step(w, jobs[0])
  {
    var one := step(w, jobs[0]);
    assert jobs[1..] == [] && one.writes + [] == one.writes;
  }

  /** A run starts with its first job, and goes on if that succeeds. */
  lemma {:induction false} RunStarts<W, X, J>(exec: (W, X) -> W, step: (W, J) -> Outcome<X>, w: W, jobs: seq<J>, i: nat, one: Outcome<X>)
    requires i < |jobs| && one == step(w, jobs[i])
    ensures var all, rest := RunAll(exec, step, w, jobs[i..]), RunAll(exec, step, After(exec, w, one.writes), jobs[i + 1..]);
      all == if one.ok then Outcome(one.writes + rest.writes, rest.ok) else one
  {
    assert jobs[i..][0] == jobs[i] && jobs[i..][1..] == jobs[i + 1..];
  }

  lemma RunIsFirstAndRest<W, X, J>(exec: (W, X) -> W, step: (W, J) -> Outcome<X>, w: W, first: J, rest: seq<J>, jobs: seq<J>)
    requires jobs == [first] + rest
    ensures var one := step(w, first);
      var more := RunAll(exec, step, After(exec, w, one.writes), rest);
      RunAll(exec, step, w, jobs) == if one.ok then Outcome(one.writes + more.writes, more.ok) else one
  {
    assert jobs[0] == first && jobs[1..] == rest;
  }

  /** Nothing is done after the first job that fails. */
  lemma {:induction false} NothingAfterFailure<W, X, J>(exec: (W, X) -> W, step: (W, J) -> Outcome<X>, w: W,
                                                        done: seq<J>, failing: J, rest: seq<J>)
    requires RunAll(exec, step, w, done).ok
    requires !step(After(exec, w, RunAll(exec, step, w, done).writes), failing).ok
    ensures var before := RunAll(exec, step, w, done).writes;
      RunAll(exec, step, w, done + ([failing] + rest)) == Outcome(before + step(After(exec, w, before), failing).writes, false)
    decreases |done|
  {
    if done == [] {
      RunIsFirstAndRest(exec, step, w, failing, rest, done + ([failing] + rest));
    } else {
      var first, others := done[0], done[1..];
      var one := step(w, first);
      var v := After(exec, w, one.writes);
      RunIsFirstAndRest(exec, step, w, first, others, done);
      RunIsFirstAndRest(exec, step, w, first, others + ([failing] + rest), done + ([failing] + rest));
      AfterConcat(exec, w, one.writes, RunAll(exec, step, v, others).writes);
      NothingAfterFailure(exec, step, v, others, failing, rest);
    }
  }

  /** From a state where `p` holds of the jobs done, one more job passes through states where `q`
    * holds, and `p` holds after it if it succeeds. */
  ghost predicate JobPasses<W, X, J>(p: (nat, W) -> bool, q: W -> bool, exec: (W, X) -> W, step: (W, J) -> Outcome<X>,
                                     w: W, jobs: seq<J>, i: nat)
    requires i < |jobs|
  {
    p(i, w) ==>
      && (forall k: nat :: k <= |step(w, jobs[i]).writes| ==> q(After(exec, w, step(w, jobs[i]).writes[..k])))
      && (step(w, jobs[i]).ok ==> p(i + 1, After(exec, w, step(w, jobs[i]).writes)))
  }

  /** Then a run passes through such states only. */
  lemma {:induction false} RunPasses<W(!new), X, J>(p: (nat, W) -> bool, q: W -> bool, exec: (W, X) -> W, step: (W, J) -> Outcome<X>,
                                                    w: W, jobs: seq<J>, i: nat, k: nat)
    requires i <= |jobs| && p(i, w) && q(w)
    requires forall j: nat, v :: j < |jobs| ==> JobPasses(p, q, exec, step, v, jobs, j)
    requires k <= |RunAll(exec, step, w, jobs[i..]).writes|
    ensures q(After(exec, w, RunAll(exec, step, w, jobs[i..]).writes[..k]))
    decreases |jobs| - i
  {
    var all := RunAll(exec, step, w, jobs[i..]);
    if i < |jobs| {
      var one := step(w, jobs[i]);
      assert JobPasses(p, q, exec, step, w, jobs, i);
      RunStarts(exec, step, w, jobs, i, one);
      if k <= |one.writes| {
        assert all.writes[..k] == one.writes[..k];
      } else {
        var w' := After(exec, w, one.writes);
        var rest := RunAll(exec, step, w', jobs[i + 1..]);
        assert one.writes[..|one.writes|] == one.writes;
        RunPasses(p, q, exec, step, w', jobs, i + 1, k - |one.writes|);
        assert all.writes[..k] == one.writes + rest.writes[..k - |one.writes|];
        AfterConcat(exec, w, one.writes, rest.writes[..k - |one.writes|]);
      }
    }
  }

  /** A completed run, one job at a time. */
  lemma RunUnfolds<W, X, J>(exec: (W, X) -> W, step: (W, J) -> Outcome<X>, w: W, jobs: seq<J>, i: nat)
    requires i < |jobs| && RunAll(exec, step, w, jobs[i..]).ok
    ensures step(w, jobs[i]).ok
    ensures var w' := After(exec, w, step(w, jobs[i]).writes);
            RunAll(exec, step, w', jobs[i + 1..]).ok
            && After(exec, w, RunAll(exec, step, w, jobs[i..]).writes)
               == After(exec, w', RunAll(exec, step, w', jobs[i + 1..]).writes)
  {
    assert jobs[i..][1..] == jobs[i + 1..];
    var one := step(w, jobs[i]);
    var rest := RunAll(exec, step, After(exec, w, one.writes), jobs[i + 1..]);
    AfterConcat(exec, w, one.writes, rest.writes);
  }
}
