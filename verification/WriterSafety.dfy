/**
 * What every interleaving of `write_bytes` calls keeps.  One inductive invariant,
 * split by concern, carries the three main results: no target is ever torn
 * (`NeverTorn`), without power loss the files are exactly what the logged events
 * produce one after the other (`Linearizable`), and calls that end leave no
 * descriptor and no temporary file behind (`NoDebris`).
 */
module WriterSafety {
  import opened Common
  import opened WriterProtocol

  // ---------------------------------------------------------------------------
  // Files
  // ---------------------------------------------------------------------------

  ghost predicate OwnOk(c: Setup, s: State, w: nat)
    requires Running(c, s, w) && s.ws[w].pc.Owns()
  {
    var pc := s.ws[w].pc;
    var payload := c.calls[w].payload;
    && Temp(pc.temp) in s.dir && s.dir[Temp(pc.temp)] == pc.ino && pc.ino in s.disk
    && match pc {
         case Wrapping(_, _) => s.disk[pc.ino] == File([], false)
         case Writing(_, _, n) => n <= |payload| && s.disk[pc.ino] == File(payload[..n], false)
         case Syncing(_, _) => s.disk[pc.ino] == File(payload, false)
         case Closing(_, _, ok) => ok ==> s.disk[pc.ino] == File(payload, true)
         case Renaming(_, _) => s.disk[pc.ino] == File(payload, true)
         case _ => true
       }
  }

  /** Target `p` shows inode `i` now, showed it at the start, or was renamed to it at some time. */
  ghost predicate Linked(c: Setup, s: State, p: string, i: Ino) {
    || (Target(p) in s.dir && s.dir[Target(p)] == i)
    || (Target(p) in c.dir && c.dir[Target(p)] == i)
    || (p, i) in s.renamed
  }

  ghost predicate Owned(s: State, i: Ino) {
    exists w :: 0 <= w < |s.ws| && s.ws[w].pc.Owns() && s.ws[w].pc.ino == i
  }

  /** An inode that is whole, durable, and that no call can write to any more. */
  ghost predicate Settled(c: Setup, s: State, p: string, i: Ino) {
    i in s.disk && s.disk[i].synced && Whole(c, p, s.disk[i].data) && !Owned(s, i)
  }

  ghost predicate FileInv(c: Setup, s: State) {
    && |s.ws| == |c.calls|
    && (forall n | n in s.dir :: s.dir[n] in s.disk)
    && (forall w | 0 <= w < |s.ws| && s.ws[w].pc.Owns() :: OwnOk(c, s, w))
    && (forall v, w | 0 <= v < w < |s.ws| && s.ws[v].pc.Owns() && s.ws[w].pc.Owns() ::
          s.ws[v].pc.ino != s.ws[w].pc.ino && s.ws[v].pc.temp != s.ws[w].pc.temp)
  }

  ghost predicate LinkInv(c: Setup, s: State) {
    forall p, i | Linked(c, s, p, i) :: Settled(c, s, p, i)
  }

  ghost predicate HeldBy(s: State, w: nat, t: nat) {
    w < |s.ws| && s.ws[w].pc.Owns() && s.ws[w].pc.temp == t
  }

  /** Every temporary name is initial, leaked, or still held by a call. */
  ghost predicate TempInv(c: Setup, s: State) {
    forall t {:trigger Temp(t)} | Temp(t) in s.dir ::
      Temp(t) in c.dir || t in s.leaked || exists w :: HeldBy(s, w, t)
  }

  // ---------------------------------------------------------------------------
  // Locks and descriptors
  // ---------------------------------------------------------------------------

  ghost predicate LockInv(c: Setup, s: State) {
    && |s.ws| == |c.calls|
    && (forall w | 0 <= w < |s.ws| && s.ws[w].pc.InLock() :: c.Key(w) in s.locks && s.locks[c.Key(w)] == w)
  }

  /** At most one descriptor is ever opened, and it is closed exactly once. */
  ghost predicate DescriptorOk(x: Writer) {
    !x.pc.Dead? ==>
      && x.fdsOpened <= 1
      && x.fdsOpened == x.fdsClosed + (if x.pc.HasDescriptor() then 1 else 0)
      && ((x.pc.Start? || x.pc.Waiting? || x.pc.Checking? || x.pc.Reading? || x.pc.Creating?) ==> x.fdsOpened == 0)
  }

  ghost predicate DescriptorInv(s: State) {
    forall w | 0 <= w < |s.ws| :: DescriptorOk(s.ws[w])
  }

  // ---------------------------------------------------------------------------
  // History
  // ---------------------------------------------------------------------------

  function EventOf(w: nat, changed: bool): Event {
    if changed then Replaced(w) else Kept(w)
  }

  /** What the log says of a call is what the call reports, unless it died meanwhile. */
  ghost predicate EventOk(s: State, e: Event) {
    e.call < |s.ws| && (s.ws[e.call].pc.Dead? || s.ws[e.call].pc.Reports(Returned(e.Replaced?)))
  }

  /** A call that reports a return is in the log. */
  ghost predicate ReportOk(s: State, w: nat)
    requires w < |s.ws|
  {
    var pc := s.ws[w].pc;
    (pc.Releasing? || pc.Done?) && pc.out.Returned? ==> EventOf(w, pc.out.changed) in s.log
  }

  ghost predicate LogInv(c: Setup, s: State) {
    && |s.ws| == |c.calls|
    && (forall k | 0 <= k < |s.log| :: EventOk(s, s.log[k]))
    && (forall j, k | 0 <= j < k < |s.log| :: s.log[j].call != s.log[k].call)
    && (forall w | 0 <= w < |s.ws| :: ReportOk(s, w))
  }

  /** While no power was lost, the files are the log replayed. */
  ghost predicate ReplayInv(c: Setup, s: State) {
    !s.lost ==> View(s.dir, s.disk) == Replay(c, s.log) && LegalLog(c, s.log)
  }

  /** All calls on the target of `w` come from one process, hence share one lock. */
  ghost predicate SoleProcess(c: Setup, w: nat)
    requires w < |c.calls|
  {
    forall v | 0 <= v < |c.calls| && c.calls[v].target == c.calls[w].target :: c.calls[v].proc == c.calls[w].proc
  }

  ghost predicate Holds(view: map<string, seq<byte>>, call: Call) {
    call.target in view && view[call.target] == call.payload
  }

  /** A call about to release its lock leaves the target with its own payload. */
  ghost predicate HandoverInv(c: Setup, s: State) {
    && |s.ws| == |c.calls|
    && (!s.lost ==>
          forall w | 0 <= w < |s.ws| && s.ws[w].pc.Releasing? && s.ws[w].pc.out.Returned? && SoleProcess(c, w) ::
            Holds(View(s.dir, s.disk), c.calls[w]))
  }

  ghost predicate Inv(c: Setup, s: State) {
    && FileInv(c, s) && LinkInv(c, s) && TempInv(c, s) && LockInv(c, s) && DescriptorInv(s)
    && LogInv(c, s) && ReplayInv(c, s) && HandoverInv(c, s)
  }

  // ---------------------------------------------------------------------------
  // Preservation, concern by concern
  // ---------------------------------------------------------------------------

  lemma InitInv(c: Setup)
    requires c.Valid()
    ensures Inv(c, Init(c))
  {
    var s := Init(c);
    forall p, i | Linked(c, s, p, i) ensures Settled(c, s, p, i) {
      assert i == c.dir[Target(p)];
    }
  }

  /** An owner keeps its names, or has just created them. */
  lemma OwnerWas(c: Setup, s: State, st: Step, w: nat)
    requires |s.ws| == |c.calls| && Enabled(c, s, st)
    requires w < |s.ws| && Apply(c, s, st).ws[w].pc.Owns() && !(st.MakeTemp? && st.w == w)
    ensures s.ws[w].pc.Owns()
    ensures s.ws[w].pc.temp == Apply(c, s, st).ws[w].pc.temp && s.ws[w].pc.ino == Apply(c, s, st).ws[w].pc.ino
  {
  }

  /** The call that takes a step; crashes and power loss have none. */
  predicate Acts(st: Step, w: nat) {
    !st.ProcessCrash? && !st.PowerLoss? && st.w == w
  }

  /** Names and files change only for the inode and the names of the call that steps. */
  lemma FilesFrame(c: Setup, s: State, st: Step, temp: nat, ino: Ino)
    requires FileInv(c, s) && Enabled(c, s, st) && !st.PowerLoss?
    requires Temp(temp) in s.dir && ino in s.disk
    requires !st.ProcessCrash? && s.ws[st.w].pc.Owns() ==> s.ws[st.w].pc.temp != temp && s.ws[st.w].pc.ino != ino
    ensures var s' := Apply(c, s, st);
            Temp(temp) in s'.dir && s'.dir[Temp(temp)] == s.dir[Temp(temp)] && ino in s'.disk
                && s'.disk[ino] == s.disk[ino]
  {
  }

  /** A step of another call leaves an owner's name and file alone. */
  lemma OwnFrame(c: Setup, s: State, st: Step, w: nat)
    requires FileInv(c, s) && Enabled(c, s, st) && !Acts(st, w)
    requires w < |s.ws| && Apply(c, s, st).ws[w].pc.Owns()
    ensures OwnOk(c, Apply(c, s, st), w)
  {
    var pc := s.ws[w].pc;
    OwnerWas(c, s, st, w);
    assert OwnOk(c, s, w);
    SamePc(c, s, st, w);
    FilesFrame(c, s, st, pc.temp, pc.ino);
  }

  lemma SamePc(c: Setup, s: State, st: Step, w: nat)
    requires |s.ws| == |c.calls| && Enabled(c, s, st) && !Acts(st, w)
    requires w < |s.ws| && Apply(c, s, st).ws[w].pc.Owns()
    ensures Apply(c, s, st).ws[w].pc == s.ws[w].pc && !st.PowerLoss?
  {
  }

  /** A call's own step takes its file to the next stage. */
  lemma OwnProgress(c: Setup, s: State, st: Step, w: nat)
    requires FileInv(c, s) && Enabled(c, s, st) && Acts(st, w)
    requires w < |s.ws| && Apply(c, s, st).ws[w].pc.Owns()
    ensures OwnOk(c, Apply(c, s, st), w)
  {
    if !st.MakeTemp? {
      OwnerWas(c, s, st, w);
      assert OwnOk(c, s, w);
    }
  }

  lemma FileStep(c: Setup, s: State, st: Step)
    requires FileInv(c, s) && LinkInv(c, s) && Enabled(c, s, st)
    ensures FileInv(c, Apply(c, s, st))
  {
    var s' := Apply(c, s, st);
    forall w | 0 <= w < |s'.ws| && s'.ws[w].pc.Owns() ensures OwnOk(c, s', w) {
      if Acts(st, w) { OwnProgress(c, s, st, w); } else { OwnFrame(c, s, st, w); }
    }
    forall v, w | 0 <= v < w < |s'.ws| && s'.ws[v].pc.Owns() && s'.ws[w].pc.Owns()
      ensures s'.ws[v].pc.ino != s'.ws[w].pc.ino && s'.ws[v].pc.temp != s'.ws[w].pc.temp
    {
      if !(st.MakeTemp? && st.w == v) { OwnerWas(c, s, st, v); assert OwnOk(c, s, v); }
      if !(st.MakeTemp? && st.w == w) { OwnerWas(c, s, st, w); assert OwnOk(c, s, w); }
    }
    NamesStep(c, s, st);
  }

  lemma NamesStep(c: Setup, s: State, st: Step)
    requires FileInv(c, s) && Enabled(c, s, st)
    ensures forall n | n in Apply(c, s, st).dir :: Apply(c, s, st).dir[n] in Apply(c, s, st).disk
  {
    if st.Rename? {
      assert OwnOk(c, s, st.w);
    }
  }

  /** An owned inode was owned before the step, or has just been created. */
  lemma OwnersStep(c: Setup, s: State, st: Step, i: Ino)
    requires FileInv(c, s) && Enabled(c, s, st) && Owned(Apply(c, s, st), i)
    ensures Owned(s, i) || (st.MakeTemp? && i == st.ino)
  {
    var s' := Apply(c, s, st);
    var w :| 0 <= w < |s'.ws| && s'.ws[w].pc.Owns() && s'.ws[w].pc.ino == i;
    if !(st.MakeTemp? && st.w == w) {
      OwnerWas(c, s, st, w);
    }
  }

  lemma LinkStep(c: Setup, s: State, st: Step)
    requires FileInv(c, s) && LinkInv(c, s) && Enabled(c, s, st)
    ensures LinkInv(c, Apply(c, s, st))
  {
    var s' := Apply(c, s, st);
    forall p, i | Linked(c, s', p, i) ensures Settled(c, s', p, i) {
      if st.Rename? && p == c.calls[st.w].target && i == s.ws[st.w].pc.ino {
        RenamedSettled(c, s, st.w);
      } else {
        assert Linked(c, s, p, i) && Settled(c, s, p, i);
        if Owned(s', i) {
          OwnersStep(c, s, st, i);
        }
        UntouchedStep(c, s, st, i);
      }
    }
  }

  /** A step changes or drops no durable inode except those still owned. */
  lemma UntouchedStep(c: Setup, s: State, st: Step, i: Ino)
    requires FileInv(c, s) && Enabled(c, s, st)
    requires i in s.disk && s.disk[i].synced && !Owned(s, i)
    ensures i in Apply(c, s, st).disk && Apply(c, s, st).disk[i] == s.disk[i]
  {
    if st.WriteSome? || st.Sync? {
      assert s.ws[st.w].pc.ino != i;
    }
  }

  lemma RenamedSettled(c: Setup, s: State, w: nat)
    requires FileInv(c, s) && Enabled(c, s, Rename(w))
    ensures Settled(c, Apply(c, s, Rename(w)), c.calls[w].target, s.ws[w].pc.ino)
  {
    var s' := Apply(c, s, Rename(w));
    var i := s.ws[w].pc.ino;
    assert OwnOk(c, s, w);
    forall v | 0 <= v < |s'.ws| && s'.ws[v].pc.Owns() ensures s'.ws[v].pc.ino != i {
      assert v != w && s.ws[v].pc.Owns();
    }
  }

  /** A call stops holding a temporary name only by renaming, removing or leaking it. */
  lemma HolderActs(c: Setup, s: State, st: Step, t: nat)
    requires Enabled(c, s, st) && !st.ProcessCrash? && !st.PowerLoss? && HeldBy(s, st.w, t)
    ensures
      var x := Advance(c, s, st, s.ws[st.w]);
      (x.pc.Owns() && x.pc.temp == t) || Temp(t) !in NextDir(c, s, st) || t in NextLeaked(c, s, st)
  {
  }

  lemma HolderStep(c: Setup, s: State, st: Step, w: nat, t: nat)
    requires |s.ws| == |c.calls| && Enabled(c, s, st) && HeldBy(s, w, t) && !st.PowerLoss?
    ensures var s' := Apply(c, s, st); HeldBy(s', w, t) || Temp(t) !in s'.dir || t in s'.leaked
  {
    if Acts(st, w) {
      HolderActs(c, s, st, t);
    } else {
      OtherWriter(c, s, st, w);
      if st.ProcessCrash? && c.calls[w].proc == st.proc {
        assert t in TempsOf(c, s.ws, st.proc);
      }
    }
  }

  lemma TempStep(c: Setup, s: State, st: Step)
    requires FileInv(c, s) && TempInv(c, s) && Enabled(c, s, st)
    ensures TempInv(c, Apply(c, s, st))
  {
    var s' := Apply(c, s, st);
    if st.PowerLoss? {
      forall t {:trigger Temp(t)} | Temp(t) in s'.dir ensures t in s'.leaked {
        assert Temp(t).id == t;
      }
      return;
    }
    forall t {:trigger Temp(t)} | Temp(t) in s'.dir && Temp(t) !in c.dir && t !in s'.leaked
      ensures exists w :: HeldBy(s', w, t)
    {
      if st.MakeTemp? && t == st.temp {
        assert HeldBy(s', st.w, t);
      } else {
        assert Temp(t) in s.dir && t !in s.leaked;
        var w :| HeldBy(s, w, t);
        HolderStep(c, s, st, w, t);
      }
    }
  }

  lemma LockStep(c: Setup, s: State, st: Step)
    requires LockInv(c, s) && Enabled(c, s, st)
    ensures LockInv(c, Apply(c, s, st))
  {
    var s' := Apply(c, s, st);
    forall w | 0 <= w < |s'.ws| && s'.ws[w].pc.InLock() ensures c.Key(w) in s'.locks && s'.locks[c.Key(w)] == w {
      if !Acts(st, w) {
        OtherWriter(c, s, st, w);
        assert c.Key(w) in s.locks && s.locks[c.Key(w)] == w;
      } else {
        ActorLock(c, s, st);
      }
    }
  }

  /** A step keeps its call in the section, except that it enters by taking the lock. */
  lemma ActorLock(c: Setup, s: State, st: Step)
    requires Enabled(c, s, st) && !st.ProcessCrash? && !st.PowerLoss?
    requires Advance(c, s, st, s.ws[st.w]).pc.InLock()
    ensures st.Acquire? || (s.ws[st.w].pc.InLock() && !st.Release?)
  {
  }

  lemma DescriptorAdvance(c: Setup, s: State, st: Step)
    requires Enabled(c, s, st) && !st.ProcessCrash? && !st.PowerLoss? && DescriptorOk(s.ws[st.w])
    ensures DescriptorOk(Advance(c, s, st, s.ws[st.w]))
  {
  }

  lemma DescriptorStep(c: Setup, s: State, st: Step)
    requires |s.ws| == |c.calls| && DescriptorInv(s) && Enabled(c, s, st)
    ensures DescriptorInv(Apply(c, s, st))
  {
    var s' := Apply(c, s, st);
    forall v | 0 <= v < |s'.ws| ensures DescriptorOk(s'.ws[v]) {
      assert DescriptorOk(s.ws[v]);
      if Acts(st, v) { DescriptorAdvance(c, s, st); } else { OtherWriter(c, s, st, v); }
    }
  }

  /** The log only grows, by the event of the call that takes the step. */
  lemma LogGrows(c: Setup, s: State, st: Step)
    requires LogInv(c, s) && Enabled(c, s, st)
    ensures var s' := Apply(c, s, st);
            s'.log == s.log || (st.ReadBack? && s'.log == s.log + [Kept(st.w)])
                || (st.Rename? && s'.log == s.log + [Replaced(st.w)])
  {
  }

  lemma EventStep(c: Setup, s: State, st: Step, e: Event)
    requires |s.ws| == |c.calls| && Enabled(c, s, st) && EventOk(s, e)
    ensures EventOk(Apply(c, s, st), e)
  {
  }

  lemma ReportStep(c: Setup, s: State, st: Step, w: nat)
    requires |s.ws| == |c.calls| && Enabled(c, s, st) && w < |s.ws| && ReportOk(s, w)
    ensures ReportOk(Apply(c, s, st), w)
  {
    var s' := Apply(c, s, st);
    assert forall e | e in s.log :: e in s'.log;
    if !Acts(st, w) {
      OtherWriter(c, s, st, w);
    } else if s'.log != s.log {
      assert s'.log[|s.log|] in s'.log;
    }
  }

  lemma LogStep(c: Setup, s: State, st: Step)
    requires LogInv(c, s) && Enabled(c, s, st)
    ensures LogInv(c, Apply(c, s, st))
  {
    var s' := Apply(c, s, st);
    LogGrows(c, s, st);
    forall k | 0 <= k < |s.log| ensures EventOk(s', s.log[k]) {
      EventStep(c, s, st, s.log[k]);
    }
    forall w | 0 <= w < |s'.ws| ensures ReportOk(s', w) {
      ReportStep(c, s, st, w);
    }
  }

  lemma ViewStepAt(c: Setup, s: State, st: Step, p: string)
    requires FileInv(c, s) && LinkInv(c, s) && Enabled(c, s, st) && !st.PowerLoss? && !st.Rename?
    ensures Target(p) in NextDir(c, s, st) <==> Target(p) in s.dir
    ensures Target(p) in s.dir ==>
              && NextDir(c, s, st)[Target(p)] == s.dir[Target(p)]
              && s.dir[Target(p)] in s.disk && s.dir[Target(p)] in NextDisk(c, s, st)
              && NextDisk(c, s, st)[s.dir[Target(p)]] == s.disk[s.dir[Target(p)]]
  {
    TargetNamesKept(c, s, st, p);
    if Target(p) in s.dir {
      assert Linked(c, s, p, s.dir[Target(p)]) && Settled(c, s, p, s.dir[Target(p)]);
      UntouchedStep(c, s, st, s.dir[Target(p)]);
    }
  }

  /** Only a rename changes what a reader of any target sees. */
  lemma ViewStep(c: Setup, s: State, st: Step)
    requires FileInv(c, s) && LinkInv(c, s) && Enabled(c, s, st) && !st.PowerLoss? && !st.Rename?
    ensures View(NextDir(c, s, st), NextDisk(c, s, st)) == View(s.dir, s.disk)
  {
    var v, v' := View(s.dir, s.disk), View(NextDir(c, s, st), NextDisk(c, s, st));
    forall p ensures (p in v' <==> p in v) && (p in v ==> v'[p] == v[p]) {
      ViewStepAt(c, s, st, p);
      SameViewAt(s.dir, s.disk, NextDir(c, s, st), NextDisk(c, s, st), p);
    }
    SameView(v, v');
  }

  /** Target `p` shows the same through two directories. */
  ghost predicate SameAt(dir: map<Name, Ino>, disk: map<Ino, File>, dir': map<Name, Ino>, disk': map<Ino, File>,
                         p: string) {
    && (Target(p) in dir' <==> Target(p) in dir)
    && (Target(p) in dir ==>
          && dir'[Target(p)] == dir[Target(p)] && dir[Target(p)] in disk && dir[Target(p)] in disk'
          && disk'[dir[Target(p)]] == disk[dir[Target(p)]])
  }

  lemma SameViewAt(dir: map<Name, Ino>, disk: map<Ino, File>, dir': map<Name, Ino>, disk': map<Ino, File>, p: string)
    requires SameAt(dir, disk, dir', disk', p)
    ensures p in View(dir', disk') <==> p in View(dir, disk)
    ensures p in View(dir, disk) ==> View(dir', disk')[p] == View(dir, disk)[p]
  {
    ViewAt(dir, disk, p);
    ViewAt(dir', disk', p);
  }

  lemma SameView(v: map<string, seq<byte>>, v': map<string, seq<byte>>)
    requires forall p :: p in v' <==> p in v
    requires forall p | p in v :: v'[p] == v[p]
    ensures v == v'
  {
  }

  lemma TargetNamesKept(c: Setup, s: State, st: Step, p: string)
    requires Enabled(c, s, st) && !st.PowerLoss? && !st.Rename?
    ensures Target(p) in NextDir(c, s, st) <==> Target(p) in s.dir
    ensures Target(p) in s.dir ==> NextDir(c, s, st)[Target(p)] == s.dir[Target(p)]
  {
  }

  lemma ViewAt(dir: map<Name, Ino>, disk: map<Ino, File>, p: string)
    ensures p in View(dir, disk) <==> Target(p) in dir && dir[Target(p)] in disk
    ensures p in View(dir, disk) ==> View(dir, disk)[p] == disk[dir[Target(p)]].data
  {
    if Target(p) in dir && dir[Target(p)] in disk {
      assert Target(p).Target? && Target(p).path == p;
    }
  }

  lemma RenameView(c: Setup, s: State, w: nat)
    requires FileInv(c, s) && Enabled(c, s, Rename(w))
    ensures var s' := Apply(c, s, Rename(w));
            View(s'.dir, s'.disk) == View(s.dir, s.disk)[c.calls[w].target := c.calls[w].payload]
  {
    var s' := Apply(c, s, Rename(w));
    assert OwnOk(c, s, w);
    var t := c.calls[w].target;
    var v, v' := View(s.dir, s.disk)[t := c.calls[w].payload], View(s'.dir, s'.disk);
    forall p ensures (p in v <==> p in v') && (p in v ==> v'[p] == v[p]) {
      ViewAt(s.dir, s.disk, p);
      ViewAt(s'.dir, s'.disk, p);
    }
  }

  lemma LegalExtends(c: Setup, log: seq<Event>, e: Event)
    requires LegalLog(c, log)
    requires e.Kept? ==> e.call < |c.calls| && c.calls[e.call].target in Replay(c, log)
                         && Replay(c, log)[c.calls[e.call].target] == c.calls[e.call].payload
    ensures LegalLog(c, log + [e])
  {
    var log' := log + [e];
    assert log'[..|log|] == log;
    forall i | 0 <= i < |log'| && log'[i].Kept?
      ensures log'[i].call < |c.calls|
      ensures var call := c.calls[log'[i].call];
              call.target in Replay(c, log'[..i]) && Replay(c, log'[..i])[call.target] == call.payload
    {
      assert i < |log| ==> log'[..i] == log[..i];
    }
  }

  lemma ReplayAppend(c: Setup, log: seq<Event>, e: Event)
    requires e.call < |c.calls|
    ensures Replay(c, log + [e]) ==
            if e.Replaced? then Replay(c, log)[c.calls[e.call].target := c.calls[e.call].payload] else Replay(c, log)
  {
    assert (log + [e])[..|log + [e]| - 1] == log;
  }

  lemma ReplayStep(c: Setup, s: State, st: Step)
    requires FileInv(c, s) && LinkInv(c, s) && ReplayInv(c, s) && Enabled(c, s, st)
    ensures ReplayInv(c, Apply(c, s, st))
  {
    if s.lost || st.PowerLoss? {
      return;
    }
    if st.Rename? {
      RenameView(c, s, st.w);
      LegalExtends(c, s.log, Replaced(st.w));
      ReplayAppend(c, s.log, Replaced(st.w));
    } else {
      ViewStep(c, s, st);
      if st.ReadBack? && st.ok && SameBytes(c, s, st.w) {
        LegalExtends(c, s.log, Kept(st.w));
        ReplayAppend(c, s.log, Kept(st.w));
      }
    }
  }

  lemma HandoverStep(c: Setup, s: State, st: Step)
    requires Inv(c, s) && Enabled(c, s, st)
    ensures HandoverInv(c, Apply(c, s, st))
  {
    var s' := Apply(c, s, st);
    if !s'.lost {
      forall w | 0 <= w < |s'.ws| && s'.ws[w].pc.Releasing? && s'.ws[w].pc.out.Returned? && SoleProcess(c, w)
        ensures Holds(View(s'.dir, s'.disk), c.calls[w])
      {
        if Acts(st, w) {
          HandoverByActor(c, s, st);
        } else {
          OtherWriter(c, s, st, w);
          assert Holds(View(s.dir, s.disk), c.calls[w]);
          HandoverFrame(c, s, st, w);
        }
      }
    }
  }

  lemma OtherWriter(c: Setup, s: State, st: Step, w: nat)
    requires |s.ws| == |c.calls| && Enabled(c, s, st) && !Acts(st, w) && w < |s.ws|
    ensures NextWriters(c, s, st)[w] == s.ws[w] || NextWriters(c, s, st)[w] == Killed(s.ws[w])
  {
  }

  lemma HandoverByActor(c: Setup, s: State, st: Step)
    requires FileInv(c, s) && LinkInv(c, s) && Enabled(c, s, st) && !st.ProcessCrash? && !st.PowerLoss?
    requires var x := Advance(c, s, st, s.ws[st.w]); x.pc.Releasing? && x.pc.out.Returned?
    ensures Holds(View(NextDir(c, s, st), NextDisk(c, s, st)), c.calls[st.w])
  {
    if st.Rename? {
      RenamedHolds(c, s, st.w);
    } else {
      ViewStep(c, s, st);
      hide View, NextDir, NextDisk, FileInv, LinkInv;
      assert st.ReadBack? && SameBytes(c, s, st.w);
    }
  }

  lemma RenamedHolds(c: Setup, s: State, w: nat)
    requires FileInv(c, s) && Enabled(c, s, Rename(w))
    ensures Holds(View(NextDir(c, s, Rename(w)), NextDisk(c, s, Rename(w))), c.calls[w])
  {
    RenameView(c, s, w);
    hide View, FileInv, Enabled;
  }

  /** Nobody else can rename over the target while its lock is held. */
  lemma HandoverFrame(c: Setup, s: State, st: Step, w: nat)
    requires FileInv(c, s) && LinkInv(c, s) && LockInv(c, s) && Enabled(c, s, st) && !Acts(st, w) && !st.PowerLoss?
    requires w < |s.ws| && s.ws[w].pc.Releasing? && SoleProcess(c, w) && Holds(View(s.dir, s.disk), c.calls[w])
    ensures Holds(View(NextDir(c, s, st), NextDisk(c, s, st)), c.calls[w])
  {
    if st.Rename? {
      RenameView(c, s, st.w);
      assert s.ws[st.w].pc.InLock() && s.ws[w].pc.InLock();
      assert c.Key(w) != c.Key(st.w);
    } else {
      ViewStep(c, s, st);
    }
  }

  /** One step keeps everything. */
  lemma StepInv(c: Setup, s: State, st: Step)
    requires c.Valid() && Inv(c, s) && Enabled(c, s, st)
    ensures Inv(c, Apply(c, s, st))
  {
    FileStep(c, s, st);
    LinkStep(c, s, st);
    TempStep(c, s, st);
    LockStep(c, s, st);
    DescriptorStep(c, s, st);
    LogStep(c, s, st);
    ReplayStep(c, s, st);
    HandoverStep(c, s, st);
  }

  // ---------------------------------------------------------------------------
  // Whole runs
  // ---------------------------------------------------------------------------

  /** `trace` is what some interleaving of the calls goes through, from the start. */
  ghost predicate Execution(c: Setup, steps: seq<Step>, trace: seq<State>) {
    && |trace| == |steps| + 1
    && trace[0] == Init(c)
    && forall i | 0 <= i < |steps| :: Enabled(c, trace[i], steps[i]) && trace[i + 1] == Apply(c, trace[i], steps[i])
  }

  lemma {:induction false} ExecutionInv(c: Setup, steps: seq<Step>, trace: seq<State>, i: nat)
    requires c.Valid() && Execution(c, steps, trace) && i < |trace|
    ensures Inv(c, trace[i])
  {
    if i == 0 {
      InitInv(c);
    } else {
      ExecutionInv(c, steps, trace, i - 1);
      StepInv(c, trace[i - 1], steps[i - 1]);
    }
  }

  /**
   * At every moment of every execution, crashes and power loss included, a target
   * shows its initial contents or the complete payload of one call made on it.
   */
  lemma NeverTorn(c: Setup, steps: seq<Step>, trace: seq<State>, i: nat, p: string)
    requires c.Valid() && Execution(c, steps, trace) && i < |trace|
    requires p in View(trace[i].dir, trace[i].disk)
    ensures Whole(c, p, View(trace[i].dir, trace[i].disk)[p])
  {
    ExecutionInv(c, steps, trace, i);
    var s := trace[i];
    assert Linked(c, s, p, s.dir[Target(p)]) && Settled(c, s, p, s.dir[Target(p)]);
  }

  /** A target that exists is never seen missing, short of power loss. */
  lemma {:induction false} NeverMissing(c: Setup, steps: seq<Step>, trace: seq<State>, i: nat, p: string)
    requires c.Valid() && Execution(c, steps, trace) && i < |trace| && !trace[i].lost
    requires Target(p) in c.dir
    ensures p in View(trace[i].dir, trace[i].disk)
  {
    ExecutionInv(c, steps, trace, i);
    ReplayKeeps(c, trace[i].log, p);
  }

  lemma {:induction false} ReplayKeeps(c: Setup, log: seq<Event>, p: string)
    requires c.Valid() && Target(p) in c.dir
    ensures p in Replay(c, log)
  {
    if log != [] {
      ReplayKeeps(c, log[..|log| - 1], p);
    } else {
      assert Target(p).path in View(c.dir, c.disk);
    }
  }

  /**
   * One sequential history explains state `s`: the files are the logged events
   * replayed one at a time, each skipped write found its own payload, no call is
   * logged twice, a logged call that lived reports that event, a call that returned
   * is logged with what it returned, and a call that raised is not logged.
   */
  ghost predicate Explained(c: Setup, s: State) {
    && View(s.dir, s.disk) == Replay(c, s.log)
    && LegalLog(c, s.log)
    && (forall j, k | 0 <= j < k < |s.log| :: s.log[j].call != s.log[k].call)
    && (forall k | 0 <= k < |s.log| :: EventOk(s, s.log[k]))
    && (forall w | 0 <= w < |s.ws| && s.ws[w].pc.Done? :: OutcomeLogged(s, w))
  }

  ghost predicate OutcomeLogged(s: State, w: nat)
    requires w < |s.ws| && s.ws[w].pc.Done?
  {
    match s.ws[w].pc.out
    case Returned(changed) => EventOf(w, changed) in s.log
    case Raised(_) => forall k | 0 <= k < |s.log| :: s.log[k].call != w
  }

  lemma OutcomesLogged(c: Setup, s: State, w: nat)
    requires LogInv(c, s) && w < |s.ws| && s.ws[w].pc.Done?
    ensures OutcomeLogged(s, w)
  {
    assert ReportOk(s, w);
    forall k | 0 <= k < |s.log| && s.ws[w].pc.out.Raised? ensures s.log[k].call != w {
      assert EventOk(s, s.log[k]);
    }
  }

  /** Without power loss every execution is linearizable. */
  lemma Linearizable(c: Setup, steps: seq<Step>, trace: seq<State>, i: nat)
    requires c.Valid() && Execution(c, steps, trace) && i < |trace| && !trace[i].lost
    ensures Explained(c, trace[i])
  {
    ExecutionInv(c, steps, trace, i);
    forall w | 0 <= w < |trace[i].ws| && trace[i].ws[w].pc.Done? ensures OutcomeLogged(trace[i], w) {
      OutcomesLogged(c, trace[i], w);
    }
  }

  /** Two calls of one process are never inside the section of the same target together. */
  lemma MutualExclusion(c: Setup, steps: seq<Step>, trace: seq<State>, i: nat, v: nat, w: nat)
    requires c.Valid() && Execution(c, steps, trace) && i < |trace|
    requires v < |c.calls| && w < |c.calls| && v != w && c.Key(v) == c.Key(w)
    requires |trace[i].ws| == |c.calls|
    ensures !(trace[i].ws[v].pc.InLock() && trace[i].ws[w].pc.InLock())
  {
    ExecutionInv(c, steps, trace, i);
  }

  /**
   * The last writer decides: when only one process writes a target, a call that is
   * about to leave its section leaves exactly its own payload in place.
   */
  lemma LastHolderDecides(c: Setup, steps: seq<Step>, trace: seq<State>, i: nat, w: nat)
    requires c.Valid() && Execution(c, steps, trace) && i < |trace| && !trace[i].lost
    requires w < |c.calls| && w < |trace[i].ws| && SoleProcess(c, w)
    requires trace[i].ws[w].pc.Releasing? && trace[i].ws[w].pc.out.Returned?
    ensures Holds(View(trace[i].dir, trace[i].disk), c.calls[w])
  {
    ExecutionInv(c, steps, trace, i);
  }

  /** The last replacement of `p` in a log, if there is one. */
  ghost predicate LastReplace(c: Setup, log: seq<Event>, k: nat, p: string) {
    && k < |log| && Replaces(c, log[k], p)
    && forall j | k < j < |log| :: !Replaces(c, log[j], p)
  }

  ghost predicate Replaces(c: Setup, e: Event, p: string) {
    e.Replaced? && e.call < |c.calls| && c.calls[e.call].target == p
  }

  /** Replaying keeps, for each target, the last payload. */
  lemma {:induction false} ReplayLast(c: Setup, log: seq<Event>, p: string, k: nat)
    requires LastReplace(c, log, k, p)
    ensures p in Replay(c, log) && Replay(c, log)[p] == c.calls[log[k].call].payload
  {
    hide View;
    if k < |log| - 1 {
      assert !Replaces(c, log[|log| - 1], p);
      ReplayLast(c, log[..|log| - 1], p, k);
    }
  }

  /** And the initial contents (or none) where there is no replacement. */
  lemma {:induction false} ReplaySpares(c: Setup, log: seq<Event>, p: string)
    requires forall j | 0 <= j < |log| :: !Replaces(c, log[j], p)
    ensures var before := View(c.dir, c.disk);
            (p in Replay(c, log) <==> p in before) && (p in before ==> Replay(c, log)[p] == before[p])
  {
    hide View;
    if log != [] {
      assert !Replaces(c, log[|log| - 1], p);
      ReplaySpares(c, log[..|log| - 1], p);
    }
  }

  /**
   * Whoever replaces last decides, whichever process it belongs to: at every moment short
   * of power loss a target shows the payload of the last call that replaced it.
   */
  lemma LastReplaceDecides(c: Setup, steps: seq<Step>, trace: seq<State>, i: nat, p: string, k: nat)
    requires c.Valid() && Execution(c, steps, trace) && i < |trace| && !trace[i].lost
    requires LastReplace(c, trace[i].log, k, p)
    ensures Holds(View(trace[i].dir, trace[i].disk), c.calls[trace[i].log[k].call])
  {
    ExecutionInv(c, steps, trace, i);
    ReplayLast(c, trace[i].log, p, k);
    hide View, Replay;
  }

  /** A target that no call replaced keeps its initial contents, or stays absent. */
  lemma UnreplacedKept(c: Setup, steps: seq<Step>, trace: seq<State>, i: nat, p: string)
    requires c.Valid() && Execution(c, steps, trace) && i < |trace| && !trace[i].lost
    requires forall j | 0 <= j < |trace[i].log| :: !Replaces(c, trace[i].log[j], p)
    ensures p in View(trace[i].dir, trace[i].disk) <==> p in View(c.dir, c.disk)
    ensures p in View(c.dir, c.disk) ==> View(trace[i].dir, trace[i].disk)[p] == View(c.dir, c.disk)[p]
  {
    ExecutionInv(c, steps, trace, i);
    ReplaySpares(c, trace[i].log, p);
    hide View, Replay;
  }

  /**
   * Every call that ended opened at most one descriptor and closed it once; once all
   * calls ended and no unlink failed and nothing crashed, the only temporary names
   * left are those that were there at the start.
   */
  lemma NoDebris(c: Setup, steps: seq<Step>, trace: seq<State>, i: nat)
    requires c.Valid() && Execution(c, steps, trace) && i < |trace|
    ensures forall w | 0 <= w < |trace[i].ws| && trace[i].ws[w].pc.Done? ::
              trace[i].ws[w].fdsOpened == trace[i].ws[w].fdsClosed <= 1
    ensures (forall w | 0 <= w < |trace[i].ws| :: trace[i].ws[w].pc.Done?) ==>
              forall t {:trigger Temp(t)} | Temp(t) in trace[i].dir :: Temp(t) in c.dir || t in trace[i].leaked
    ensures (forall k | 0 <= k < i :: !steps[k].UnlinkFails? && !steps[k].ProcessCrash? && !steps[k].PowerLoss?) ==>
              trace[i].leaked == {}
  {
    ExecutionInv(c, steps, trace, i);
    var s := trace[i];
    forall w | 0 <= w < |s.ws| && s.ws[w].pc.Done? ensures s.ws[w].fdsOpened == s.ws[w].fdsClosed <= 1 {
      assert DescriptorOk(s.ws[w]);
    }
    if forall k | 0 <= k < i :: !steps[k].UnlinkFails? && !steps[k].ProcessCrash? && !steps[k].PowerLoss? {
      NothingLeaked(c, steps, trace, i);
    }
  }

  lemma {:induction false} NothingLeaked(c: Setup, steps: seq<Step>, trace: seq<State>, i: nat)
    requires Execution(c, steps, trace) && i < |trace|
    requires forall k | 0 <= k < i :: !steps[k].UnlinkFails? && !steps[k].ProcessCrash? && !steps[k].PowerLoss?
    ensures trace[i].leaked == {}
  {
    if i > 0 {
      NothingLeaked(c, steps, trace, i - 1);
      assert Enabled(c, trace[i - 1], steps[i - 1]);
    }
  }
}
