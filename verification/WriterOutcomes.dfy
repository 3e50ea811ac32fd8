/**
 * What a call of `write_bytes` reports, over every interleaving: which calls may decline to
 * write, which operation a raised error names, and that undisturbed calls do what they are for.
 */
module WriterOutcomes {
  import opened Common
  import opened WriterProtocol
  import opened WriterSafety

  // ---------------------------------------------------------------------------
  // Declining to write
  // ---------------------------------------------------------------------------

  /** Only calls with `skip_identical` look at the target, and only they keep it. */
  ghost predicate SkipInv(c: Setup, s: State) {
    && |s.ws| == |c.calls|
    && (forall w | 0 <= w < |s.ws| && !c.calls[w].skip ::
          !s.ws[w].pc.Checking? && !s.ws[w].pc.Reading? && !s.ws[w].pc.Reports(Returned(false)))
    && (forall k | 0 <= k < |s.log| && s.log[k].Kept? :: s.log[k].call < |c.calls| && c.calls[s.log[k].call].skip)
  }

  lemma SkipStep(c: Setup, s: State, st: Step)
    requires SkipInv(c, s) && Enabled(c, s, st)
    ensures SkipInv(c, Apply(c, s, st))
  {
    hide View, SameBytes, SameSize;
  }

  lemma {:induction false} SkipRun(c: Setup, steps: seq<Step>, trace: seq<State>, i: nat)
    requires Execution(c, steps, trace) && i < |trace|
    ensures SkipInv(c, trace[i])
  {
    if i > 0 {
      SkipRun(c, steps, trace, i - 1);
      SkipStep(c, trace[i - 1], steps[i - 1]);
    }
  }

  /**
   * A call without `skip_identical` never declines to write: it is never logged as having
   * kept its target, and never returns `changed=False`, whatever the target holds.
   */
  lemma OnlySkippersKeep(c: Setup, steps: seq<Step>, trace: seq<State>, i: nat, w: nat)
    requires Execution(c, steps, trace) && i < |trace| && w < |c.calls|
    ensures Kept(w) in trace[i].log ==> c.calls[w].skip
    ensures |trace[i].ws| == |c.calls|
    ensures !c.calls[w].skip ==> !trace[i].ws[w].pc.Reports(Returned(false))
  {
    SkipRun(c, steps, trace, i);
  }

  // ---------------------------------------------------------------------------
  // Raising
  // ---------------------------------------------------------------------------

  /** The operation of call `w` that fails in this step, if one does. */
  function FailureIn(st: Step, w: nat): Option<Operation> {
    match st
    case Prepare(v, fault) => if v == w then fault else None
    case MakeTempFails(v) => if v == w then Some(CreateTemp) else None
    case Wrap(v, ok) => if v == w && !ok then Some(OpenTemp) else None
    case WriteFails(v) => if v == w then Some(Operation.Write) else None
    case Sync(v, ok) => if v == w && !ok then Some(Operation.Write) else None
    case RenameFails(v) => if v == w then Some(Operation.Replace) else None
    case _ => None
  }

  /** The latest failing operation of call `w`. */
  function Failure(steps: seq<Step>, w: nat): Option<Operation> {
    if steps == [] then None
    else
      var last := FailureIn(steps[|steps| - 1], w);
      if last.Some? then last else Failure(steps[..|steps| - 1], w)
  }

  /** What a call that still lives has seen fail, by where it stands. */
  ghost predicate Tells(pc: Pc, failure: Option<Operation>) {
    match pc
    case Dead => true
    case Closing(_, _, ok) => failure == if ok then None else Some(Operation.Write)
    case Unlinking(_, _, op) => failure == Some(op)
    case Releasing(Raised(op)) => failure == Some(op)
    case Done(Raised(op)) => failure == Some(op)
    case _ => failure == None
  }

  ghost predicate FailureInv(c: Setup, s: State, steps: seq<Step>) {
    |s.ws| == |c.calls| && forall w | 0 <= w < |s.ws| :: Tells(s.ws[w].pc, Failure(steps, w))
  }

  lemma LatestFailure(steps: seq<Step>, st: Step, w: nat)
    ensures Failure(steps + [st], w) == if FailureIn(st, w).Some? then FailureIn(st, w) else Failure(steps, w)
  {
    assert (steps + [st])[..|steps|] == steps;
  }

  /** The acting call tells what failed just now. */
  lemma ActorTells(c: Setup, s: State, st: Step, failure: Option<Operation>)
    requires Enabled(c, s, st) && !st.ProcessCrash? && !st.PowerLoss? && Tells(s.ws[st.w].pc, failure)
    ensures var now := FailureIn(st, st.w);
            Tells(Advance(c, s, st, s.ws[st.w]).pc, if now.Some? then now else failure)
  {
    hide View, SameBytes, SameSize;
  }

  lemma FailureStep(c: Setup, s: State, steps: seq<Step>, st: Step)
    requires FailureInv(c, s, steps) && Enabled(c, s, st)
    ensures FailureInv(c, Apply(c, s, st), steps + [st])
  {
    var s' := Apply(c, s, st);
    forall w | 0 <= w < |s.ws| ensures Tells(s'.ws[w].pc, Failure(steps + [st], w)) {
      assert Tells(s.ws[w].pc, Failure(steps, w));
      LatestFailure(steps, st, w);
      if Acts(st, w) {
        ActorTells(c, s, st, Failure(steps, w));
        hide Advance, Failure, FailureIn, Tells;
      } else {
        OtherWriter(c, s, st, w);
        hide Advance, Failure, Apply, NextWriters;
        assert s'.ws[w] == s.ws[w] || s'.ws[w] == Killed(s.ws[w]) by { NextOther(c, s, st, w); }
      }
    }
  }

  lemma NextOther(c: Setup, s: State, st: Step, w: nat)
    requires |s.ws| == |c.calls| && Enabled(c, s, st) && !Acts(st, w) && w < |s.ws|
    ensures Apply(c, s, st).ws[w] == s.ws[w] || Apply(c, s, st).ws[w] == Killed(s.ws[w])
  {
    OtherWriter(c, s, st, w);
    hide NextWriters;
  }

  lemma {:induction false} FailureRun(c: Setup, steps: seq<Step>, trace: seq<State>, i: nat)
    requires Execution(c, steps, trace) && i < |trace|
    ensures FailureInv(c, trace[i], steps[..i])
  {
    if i > 0 {
      FailureRun(c, steps, trace, i - 1);
      FailureStep(c, trace[i - 1], steps[..i - 1], steps[i - 1]);
      assert steps[..i] == steps[..i - 1] + [steps[i - 1]];
    }
  }

  /**
   * A call raises exactly what failed: when it has ended it reports an error if and only if
   * one of its operations failed, and the error names that operation.
   */
  lemma ReportsWhatFailed(c: Setup, steps: seq<Step>, trace: seq<State>, i: nat, w: nat)
    requires Execution(c, steps, trace) && i < |trace| && w < |c.calls|
    requires |trace[i].ws| == |c.calls| && trace[i].ws[w].pc.Done?
    ensures match Failure(steps[..i], w)
            case Some(op) => trace[i].ws[w].pc.out == Raised(op)
            case None => trace[i].ws[w].pc.out.Returned?
  {
    FailureRun(c, steps, trace, i);
    assert Tells(trace[i].ws[w].pc, Failure(steps[..i], w));
  }

  // ---------------------------------------------------------------------------
  // Undisturbed calls
  // ---------------------------------------------------------------------------

  /** The steps can be taken one after the other from `s`, and lead to `t`. */
  ghost predicate Leads(c: Setup, s: State, steps: seq<Step>, t: State)
    decreases |steps|
  {
    if steps == [] then t == s else Enabled(c, s, steps[0]) && Leads(c, Apply(c, s, steps[0]), steps[1..], t)
  }

  lemma LeadsOne(c: Setup, s: State, st: Step)
    requires Enabled(c, s, st)
    ensures Leads(c, s, [st], Apply(c, s, st))
  {
    assert [st][1..] == [];
    hide Apply, Enabled;
  }

  lemma {:induction false} LeadsOn(c: Setup, s: State, a: seq<Step>, m: State, b: seq<Step>, t: State)
    requires Leads(c, s, a, m) && Leads(c, m, b, t)
    ensures Leads(c, s, a + b, t)
    decreases |a|
  {
    hide Apply, Enabled;
    if a == [] {
      assert a + b == b;
    } else {
      LeadsOn(c, Apply(c, s, a[0]), a[1..], m, b, t);
      assert (a + b)[1..] == a[1..] + b;
    }
  }

  /** One step of call `w`, after those that led to `s`. */
  lemma Take(c: Setup, from: State, done: seq<Step>, s: State, st: Step) returns (t: State, steps: seq<Step>)
    requires Leads(c, from, done, s) && Enabled(c, s, st)
    ensures Leads(c, from, steps, t) && t == Apply(c, s, st) && steps == done + [st]
  {
    t, steps := Apply(c, s, st), done + [st];
    LeadsOne(c, s, st);
    hide Apply, Enabled, Leads;
    LeadsOn(c, from, done, s, [st], t);
  }

  /** A call that has not started, on a target nobody holds. */
  ghost predicate Ready(c: Setup, s: State, w: nat) {
    w < |c.calls| && |s.ws| == |c.calls| && s.ws[w].pc.Start? && c.Key(w) !in s.locks
  }

  /** Where call `w` stands, with everything it can change. */
  ghost predicate Stands(c: Setup, s: State, w: nat, pc: Pc, dir: map<Name, Ino>, disk: map<Ino, File>,
                         locks: map<LockKey, nat>, log: seq<Event>) {
    && w < |s.ws| == |c.calls| && s.ws[w].pc == pc && s.dir == dir && s.disk == disk && s.locks == locks && s.log == log
  }

  /** Up to the open temporary file. */
  lemma Opens(c: Setup, s: State, w: nat, temp: nat, ino: Ino) returns (t: State)
    requires Ready(c, s, w) && !c.calls[w].skip && Temp(temp) !in s.dir && ino !in s.disk
    ensures Leads(c, s, [Prepare(w, None), Acquire(w), MakeTemp(w, temp, ino), Wrap(w, true)], t)
    ensures Stands(c, t, w, Writing(temp, ino, 0), s.dir[Temp(temp) := ino], s.disk[ino := File([], false)],
                   s.locks[c.Key(w) := w], s.log)
  {
    hide View, SameBytes, SameSize, Leads;
    Stays(c, s);
    var d;
    t, d := Take(c, s, [], s, Prepare(w, None));
    t, d := Take(c, s, d, t, Acquire(w));
    t, d := Take(c, s, d, t, MakeTemp(w, temp, ino));
    t, d := Take(c, s, d, t, Wrap(w, true));
    assert d == [Prepare(w, None), Acquire(w), MakeTemp(w, temp, ino), Wrap(w, true)];
  }

  lemma Stays(c: Setup, s: State)
    ensures Leads(c, s, [], s)
  {
  }

  /** The whole payload, made durable, and the descriptor closed. */
  lemma Fills(c: Setup, s: State, w: nat, temp: nat, ino: Ino) returns (t: State)
    requires w < |s.ws| == |c.calls| && s.ws[w].pc == Writing(temp, ino, 0) && ino in s.disk
             && s.disk[ino] == File([], false)
    ensures Leads(c, s, [WriteSome(w, |c.calls[w].payload|), Sync(w, true), Close(w)], t)
    ensures Stands(c, t, w, Renaming(temp, ino), s.dir, s.disk[ino := File(c.calls[w].payload, true)], s.locks, s.log)
  {
    hide View, SameBytes, SameSize, Leads;
    var payload := c.calls[w].payload;
    assert payload[0..|payload|] == payload && [] + payload == payload;
    Stays(c, s);
    var d;
    t, d := Take(c, s, [], s, WriteSome(w, |payload|));
    t, d := Take(c, s, d, t, Sync(w, true));
    t, d := Take(c, s, d, t, Close(w));
    assert d == [WriteSome(w, |payload|), Sync(w, true), Close(w)];
  }

  /** The rename, and leaving the section. */
  lemma Lands(c: Setup, s: State, w: nat, temp: nat, ino: Ino) returns (t: State)
    requires w < |s.ws| == |c.calls| && s.ws[w].pc == Renaming(temp, ino)
    ensures Leads(c, s, [Rename(w), Release(w)], t)
    ensures Stands(c, t, w, Done(Returned(true)), s.dir[Target(c.calls[w].target) := ino] - {Temp(temp)}, s.disk,
                   s.locks - {c.Key(w)}, s.log + [Replaced(w)])
  {
    hide View, SameBytes, SameSize, Leads;
    Stays(c, s);
    var d;
    t, d := Take(c, s, [], s, Rename(w));
    t, d := Take(c, s, d, t, Release(w));
    assert d == [Rename(w), Release(w)];
  }

  function FreshWrite(c: Setup, w: nat, temp: nat, ino: Ino): seq<Step>
    requires w < |c.calls|
  {
    [Prepare(w, None), Acquire(w), MakeTemp(w, temp, ino), Wrap(w, true)]
    + [WriteSome(w, |c.calls[w].payload|), Sync(w, true), Close(w)]
    + [Rename(w), Release(w)]
  }

  lemma WritesThrough(c: Setup, s: State, w: nat, temp: nat, ino: Ino) returns (t: State)
    requires Ready(c, s, w) && !c.calls[w].skip && Temp(temp) !in s.dir && ino !in s.disk
    ensures Leads(c, s, FreshWrite(c, w, temp, ino), t)
    ensures Stands(c, t, w, Done(Returned(true)), s.dir[Target(c.calls[w].target) := ino],
                   s.disk[ino := File(c.calls[w].payload, true)], s.locks, s.log + [Replaced(w)])
  {
    hide View, SameBytes, SameSize, Leads, Enabled, Apply;
    var a, b := [Prepare(w, None), Acquire(w), MakeTemp(w, temp, ino), Wrap(w, true)],
    [WriteSome(w, |c.calls[w].payload|), Sync(w, true), Close(w)];
    var s1 := Opens(c, s, w, temp, ino);
    var s2 := Fills(c, s1, w, temp, ino);
    t := Lands(c, s2, w, temp, ino);
    LeadsOn(c, s, a, s1, b, s2);
    LeadsOn(c, s, a + b, s2, [Rename(w), Release(w)], t);
    assert s.disk[ino := File([], false)][ino := File(c.calls[w].payload, true)]
           == s.disk[ino := File(c.calls[w].payload, true)];
    assert s.locks[c.Key(w) := w] - {c.Key(w)} == s.locks;
    assert s.dir[Temp(temp) := ino][Target(c.calls[w].target) := ino] - {Temp(temp)}
           == s.dir[Target(c.calls[w].target) := ino];
  }

  /**
   * An undisturbed call without `skip_identical` replaces the target even by what it already
   * holds: it ends with `changed=True`, the target shows its payload and nothing else changed.
   */
  lemma FreshWriteReplaces(c: Setup, s: State, w: nat, temp: nat, ino: Ino) returns (t: State)
    requires Ready(c, s, w) && !c.calls[w].skip && Temp(temp) !in s.dir && ino !in s.disk
    requires forall n | n in s.dir :: s.dir[n] in s.disk
    ensures Leads(c, s, FreshWrite(c, w, temp, ino), t) && w < |t.ws|
    ensures t.ws[w].pc == Done(Returned(true)) && t.log == s.log + [Replaced(w)] && t.locks == s.locks
    ensures View(t.dir, t.disk) == View(s.dir, s.disk)[c.calls[w].target := c.calls[w].payload]
    ensures forall k {:trigger Temp(k)} :: Temp(k) in t.dir <==> Temp(k) in s.dir
  {
    t := WritesThrough(c, s, w, temp, ino);
    Installs(s.dir, s.disk, c.calls[w].target, ino, c.calls[w].payload);
    hide Enabled, Apply, Leads, View;
  }

  lemma Installs(dir: map<Name, Ino>, disk: map<Ino, File>, target: string, ino: Ino, payload: seq<byte>)
    requires ino !in disk && forall n | n in dir :: dir[n] in disk
    ensures View(dir[Target(target) := ino], disk[ino := File(payload, true)]) == View(dir, disk)[target := payload]
  {
    var dir', disk' := dir[Target(target) := ino], disk[ino := File(payload, true)];
    var v, v' := View(dir, disk)[target := payload], View(dir', disk');
    forall p ensures (p in v' <==> p in v) && (p in v ==> v'[p] == v[p]) {
      ViewAt(dir, disk, p);
      ViewAt(dir', disk', p);
    }
    hide View;
    SameView(v, v');
  }

  function Skipping(w: nat): seq<Step> {
    [Prepare(w, None), Acquire(w), CheckSize(w, true), ReadBack(w, true), Release(w)]
  }

  /** Up to the comparison. */
  lemma Compares(c: Setup, s: State, w: nat) returns (t: State)
    requires Ready(c, s, w) && c.calls[w].skip && Holds(View(s.dir, s.disk), c.calls[w])
    ensures Leads(c, s, [Prepare(w, None), Acquire(w), CheckSize(w, true)], t)
    ensures Stands(c, t, w, Reading, s.dir, s.disk, s.locks[c.Key(w) := w], s.log)
  {
    hide View, Leads;
    Stays(c, s);
    var d;
    t, d := Take(c, s, [], s, Prepare(w, None));
    t, d := Take(c, s, d, t, Acquire(w));
    t, d := Take(c, s, d, t, CheckSize(w, true));
    assert d == [Prepare(w, None), Acquire(w), CheckSize(w, true)];
  }

  /** The comparison succeeds, and the call leaves. */
  lemma Keeps(c: Setup, s: State, w: nat) returns (t: State)
    requires w < |s.ws| == |c.calls| && s.ws[w].pc == Reading && Holds(View(s.dir, s.disk), c.calls[w])
    ensures Leads(c, s, [ReadBack(w, true), Release(w)], t)
    ensures Stands(c, t, w, Done(Returned(false)), s.dir, s.disk, s.locks - {c.Key(w)}, s.log + [Kept(w)])
  {
    hide View, Leads;
    Stays(c, s);
    var d;
    t, d := Take(c, s, [], s, ReadBack(w, true));
    t, d := Take(c, s, d, t, Release(w));
    assert d == [ReadBack(w, true), Release(w)];
  }

  /** An undisturbed call with `skip_identical` on a target that already holds its payload writes nothing. */
  lemma IdenticalIsKept(c: Setup, s: State, w: nat) returns (t: State)
    requires Ready(c, s, w) && c.calls[w].skip && Holds(View(s.dir, s.disk), c.calls[w])
    ensures Leads(c, s, Skipping(w), t)
    ensures Stands(c, t, w, Done(Returned(false)), s.dir, s.disk, s.locks, s.log + [Kept(w)])
  {
    hide View, Leads, Apply, Enabled;
    var s1 := Compares(c, s, w);
    t := Keeps(c, s1, w);
    LeadsOn(c, s, [Prepare(w, None), Acquire(w), CheckSize(w, true)], s1, [ReadBack(w, true), Release(w)], t);
    assert s.locks[c.Key(w) := w] - {c.Key(w)} == s.locks;
    assert [Prepare(w, None), Acquire(w), CheckSize(w, true)] + [ReadBack(w, true), Release(w)] == Skipping(w);
  }
}
