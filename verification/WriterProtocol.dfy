/**
 * The concurrent protocol behind `write_bytes`: any number of calls, from any
 * number of processes, run as interleaved steps over names, inodes, locks and
 * descriptors.  Every operating-system step may fail, a process may die, and the
 * machine may lose power (names may then fall back to an earlier inode, and the
 * contents of every inode that was not fsynced become arbitrary).
 */
module WriterProtocol {
  import opened Common

  type Ino = nat

  /** Temporary names live in a namespace of their own, in the directory of the target. */
  datatype Name = Target(path: string) | Temp(id: nat)

  datatype Call = Call(proc: nat, target: string, payload: seq<byte>, skip: bool)

  /** The operation a raised error names. */
  datatype Operation = CreateDirectory | Containment | CreateTemp | OpenTemp | Write | Replace

  datatype Outcome = Returned(changed: bool) | Raised(op: Operation)

  datatype File = File(data: seq<byte>, synced: bool)

  /** Where one call stands; the payload of a state is what its local variables hold. */
  datatype Pc =
    | Start
    | Waiting
    | Checking
    | Reading
    | Creating
    | Wrapping(temp: nat, ino: Ino)
    | Writing(temp: nat, ino: Ino, n: nat)
    | Syncing(temp: nat, ino: Ino)
    | Closing(temp: nat, ino: Ino, ok: bool)
    | Renaming(temp: nat, ino: Ino)
    | Unlinking(temp: nat, ino: Ino, op: Operation)
    | Releasing(out: Outcome)
    | Done(out: Outcome)
    | Dead
  {
    predicate Owns() {
      Wrapping? || Writing? || Syncing? || Closing? || Renaming? || Unlinking?
    }

    predicate HasDescriptor() {
      Wrapping? || Writing? || Syncing? || Closing?
    }

    /** Inside `with _target_lock(target)`. */
    predicate InLock() {
      !Start? && !Waiting? && !Done? && !Dead?
    }

    /** The call has decided to report this outcome. */
    predicate Reports(o: Outcome) {
      (Releasing? || Done?) && out == o
    }
  }

  datatype Writer = Writer(pc: Pc, fdsOpened: nat, fdsClosed: nat)

  datatype Event = Replaced(call: nat) | Kept(call: nat)

  type LockKey = (nat, string)

  /** What is fixed for a whole run: the calls, and the names and files it starts from. */
  datatype Setup = Setup(calls: seq<Call>, dir: map<Name, Ino>, disk: map<Ino, File>) {
    ghost predicate Valid() {
      && (forall n | n in dir :: dir[n] in disk)
      && (forall i | i in disk :: disk[i].synced)
    }

    function Key(w: nat): LockKey
      requires w < |calls|
    {
      (calls[w].proc, calls[w].target)
    }
  }

  /**
   * `log`, `leaked`, `renamed` and `lost` record the history: the events in order,
   * the temporary names nobody will remove, every rename ever made, and whether
   * power was lost.
   */
  datatype State = State(
    dir: map<Name, Ino>,
    disk: map<Ino, File>,
    locks: map<LockKey, nat>,
    ws: seq<Writer>,
    log: seq<Event>,
    leaked: set<nat>,
    renamed: set<(string, Ino)>,
    lost: bool)

  datatype Step =
    | Prepare(w: nat, fault: Option<Operation>)
    | Acquire(w: nat)
    | CheckSize(w: nat, ok: bool)
    | ReadBack(w: nat, ok: bool)
    | MakeTemp(w: nat, temp: nat, ino: Ino)
    | MakeTempFails(w: nat)
    | Wrap(w: nat, ok: bool)
    | WriteSome(w: nat, k: nat)
    | WriteFails(w: nat)
    | Sync(w: nat, ok: bool)
    | Close(w: nat)
    | Rename(w: nat)
    | RenameFails(w: nat)
    | Unlink(w: nat)
    | UnlinkFails(w: nat)
    | Release(w: nat)
    | ProcessCrash(proc: nat)
    | PowerLoss(dir: map<Name, Ino>, disk: map<Ino, File>)

  // ---------------------------------------------------------------------------
  // Contents
  // ---------------------------------------------------------------------------

  /** The bytes a reader of each target would see. */
  function View(dir: map<Name, Ino>, disk: map<Ino, File>): map<string, seq<byte>> {
    map n | n in dir && n.Target? && dir[n] in disk :: n.path := disk[dir[n]].data
  }

  /** The contents after the logged events, each taken as one atomic action. */
  function Replay(c: Setup, log: seq<Event>): map<string, seq<byte>> {
    if log == [] then View(c.dir, c.disk)
    else
      var before := Replay(c, log[..|log| - 1]);
      var e := log[|log| - 1];
      if e.Replaced? && e.call < |c.calls|
      then before[c.calls[e.call].target := c.calls[e.call].payload]
      else before
  }

  /** Every skipped write found exactly its own payload in place. */
  ghost predicate LegalLog(c: Setup, log: seq<Event>) {
    forall i | 0 <= i < |log| && log[i].Kept? ::
      && log[i].call < |c.calls|
      && var call := c.calls[log[i].call];
      call.target in Replay(c, log[..i]) && Replay(c, log[..i])[call.target] == call.payload
  }

  /** Whole contents a target may show: what it started with, or one call's payload. */
  ghost predicate Whole(c: Setup, p: string, data: seq<byte>) {
    || (Target(p) in c.dir && c.dir[Target(p)] in c.disk && data == c.disk[c.dir[Target(p)]].data)
    || (exists w :: 0 <= w < |c.calls| && c.calls[w].target == p && c.calls[w].payload == data)
  }

  // ---------------------------------------------------------------------------
  // Steps
  // ---------------------------------------------------------------------------

  function Init(c: Setup): State {
    State(c.dir, c.disk, map[], seq(|c.calls|, i => Writer(Start, 0, 0)), [], {}, {}, false)
  }

  /** The temporary names held by the calls of one process. */
  function TempsOf(c: Setup, ws: seq<Writer>, proc: nat): set<nat>
    requires |ws| == |c.calls|
  {
    set w | 0 <= w < |ws| && c.calls[w].proc == proc && ws[w].pc.Owns() :: ws[w].pc.temp
  }

  /** A call that was under way when its process died. */
  function Killed(x: Writer): Writer {
    if x.pc.Start? || x.pc.Done? then x else x.(pc := Dead)
  }

  predicate Running(c: Setup, s: State, w: nat) {
    w < |s.ws| && |s.ws| == |c.calls|
  }

  ghost predicate Survives(c: Setup, s: State, dir: map<Name, Ino>, disk: map<Ino, File>) {
    && disk.Keys == s.disk.Keys
    && (forall i | i in s.disk && s.disk[i].synced :: disk[i] == s.disk[i])
    && (forall n | n in dir :: dir[n] in disk)
    && (forall p {:trigger Target(p)} | Target(p) in dir ::
          (Target(p) in c.dir && dir[Target(p)] == c.dir[Target(p)]) || (p, dir[Target(p)]) in s.renamed)
  }

  ghost predicate Enabled(c: Setup, s: State, st: Step) {
    match st
    case Prepare(w, fault) =>
      Running(c, s, w) && s.ws[w].pc.Start? && (fault.Some? ==> fault.value in {CreateDirectory, Containment})
    case Acquire(w) => Running(c, s, w) && s.ws[w].pc.Waiting? && c.Key(w) !in s.locks
    case CheckSize(w, _) => Running(c, s, w) && s.ws[w].pc.Checking?
    case ReadBack(w, _) => Running(c, s, w) && s.ws[w].pc.Reading?
    case MakeTemp(w, temp, ino) =>
      Running(c, s, w) && s.ws[w].pc.Creating? && Temp(temp) !in s.dir && ino !in s.disk
    case MakeTempFails(w) => Running(c, s, w) && s.ws[w].pc.Creating?
    case Wrap(w, _) => Running(c, s, w) && s.ws[w].pc.Wrapping?
    case WriteSome(w, k) =>
      Running(c, s, w) && s.ws[w].pc.Writing? && s.ws[w].pc.n + k <= |c.calls[w].payload| && s.ws[w].pc.ino in s.disk
    case WriteFails(w) => Running(c, s, w) && s.ws[w].pc.Writing?
    case Sync(w, _) => Running(c, s, w) && s.ws[w].pc.Syncing? && s.ws[w].pc.ino in s.disk
    case Close(w) => Running(c, s, w) && s.ws[w].pc.Closing?
    case Rename(w) => Running(c, s, w) && s.ws[w].pc.Renaming?
    case RenameFails(w) => Running(c, s, w) && s.ws[w].pc.Renaming?
    case Unlink(w) => Running(c, s, w) && s.ws[w].pc.Unlinking?
    case UnlinkFails(w) => Running(c, s, w) && s.ws[w].pc.Unlinking?
    case Release(w) => Running(c, s, w) && s.ws[w].pc.Releasing?
    case ProcessCrash(_) => |s.ws| == |c.calls|
    case PowerLoss(dir, disk) => Survives(c, s, dir, disk)
  }

  /** How a call moves on from `x`, by its own step. */
  ghost function Advance(c: Setup, s: State, st: Step, x: Writer): Writer
    requires Enabled(c, s, st) && !st.ProcessCrash? && !st.PowerLoss? && x == s.ws[st.w]
  {
    var pc := x.pc;
    var call := c.calls[st.w];
    match st
    case Prepare(_, fault) => x.(pc := if fault.Some? then Done(Raised(fault.value)) else Waiting)
    case Acquire(_) => x.(pc := if call.skip then Checking else Creating)
    case CheckSize(_, ok) => x.(pc := if ok && SameSize(c, s, st.w) then Reading else Creating)
    case ReadBack(_, ok) => x.(pc := if ok && SameBytes(c, s, st.w) then Releasing(Returned(false)) else Creating)
    case MakeTemp(_, temp, ino) => Writer(Wrapping(temp, ino), x.fdsOpened + 1, x.fdsClosed)
    case MakeTempFails(_) => x.(pc := Releasing(Raised(CreateTemp)))
    case Wrap(_, ok) =>
      if ok then x.(pc := Writing(pc.temp, pc.ino, 0))
      else Writer(Unlinking(pc.temp, pc.ino, OpenTemp), x.fdsOpened, x.fdsClosed + 1)
    case WriteSome(_, k) =>
      x.(pc := if pc.n + k == |call.payload| then Syncing(pc.temp, pc.ino) else Writing(pc.temp, pc.ino, pc.n + k))
    case WriteFails(_) => x.(pc := Closing(pc.temp, pc.ino, false))
    case Sync(_, ok) => x.(pc := Closing(pc.temp, pc.ino, ok))
    case Close(_) =>
      Writer(if pc.ok then Renaming(pc.temp, pc.ino)
             else Unlinking(pc.temp, pc.ino, Write), x.fdsOpened, x.fdsClosed + 1)
    case Rename(_) => x.(pc := Releasing(Returned(true)))
    case RenameFails(_) => x.(pc := Unlinking(pc.temp, pc.ino, Replace))
    case Unlink(_) => x.(pc := Releasing(Raised(pc.op)))
    case UnlinkFails(_) => x.(pc := Releasing(Raised(pc.op)))
    case Release(_) => x.(pc := Done(pc.out))
  }

  predicate SameSize(c: Setup, s: State, w: nat)
    requires w < |c.calls|
  {
    var v := View(s.dir, s.disk);
    c.calls[w].target in v && |v[c.calls[w].target]| == |c.calls[w].payload|
  }

  predicate SameBytes(c: Setup, s: State, w: nat)
    requires w < |c.calls|
  {
    var v := View(s.dir, s.disk);
    c.calls[w].target in v && v[c.calls[w].target] == c.calls[w].payload
  }

  ghost function NextWriters(c: Setup, s: State, st: Step): seq<Writer>
    requires Enabled(c, s, st)
  {
    match st
    case ProcessCrash(p) =>
      seq(|s.ws|, i requires 0 <= i < |s.ws| => if c.calls[i].proc == p then Killed(s.ws[i]) else s.ws[i])
    case PowerLoss(_, _) => seq(|s.ws|, i requires 0 <= i < |s.ws| => Killed(s.ws[i]))
    case _ => s.ws[st.w := Advance(c, s, st, s.ws[st.w])]
  }

  ghost function NextDir(c: Setup, s: State, st: Step): map<Name, Ino>
    requires Enabled(c, s, st)
  {
    match st
    case MakeTemp(_, temp, ino) => s.dir[Temp(temp) := ino]
    case Rename(w) => s.dir[Target(c.calls[w].target) := s.ws[w].pc.ino] - {Temp(s.ws[w].pc.temp)}
    case Unlink(w) => s.dir - {Temp(s.ws[w].pc.temp)}
    case PowerLoss(dir, _) => dir
    case _ => s.dir
  }

  ghost function NextDisk(c: Setup, s: State, st: Step): map<Ino, File>
    requires Enabled(c, s, st)
  {
    match st
    case MakeTemp(_, _, ino) => s.disk[ino := File([], false)]
    case WriteSome(w, k) =>
      var pc := s.ws[w].pc;
      s.disk[pc.ino := File(s.disk[pc.ino].data + c.calls[w].payload[pc.n..pc.n + k], false)]
    case Sync(w, ok) =>
      if ok then s.disk[s.ws[w].pc.ino := File(s.disk[s.ws[w].pc.ino].data, true)] else s.disk
    case PowerLoss(_, disk) => disk
    case _ => s.disk
  }

  ghost function NextLocks(c: Setup, s: State, st: Step): map<LockKey, nat>
    requires Enabled(c, s, st)
  {
    match st
    case Acquire(w) => s.locks[c.Key(w) := w]
    case Release(w) => s.locks - {c.Key(w)}
    case ProcessCrash(p) => map k | k in s.locks && k.0 != p :: s.locks[k]
    case PowerLoss(_, _) => map[]
    case _ => s.locks
  }

  ghost function NextLog(c: Setup, s: State, st: Step): seq<Event>
    requires Enabled(c, s, st)
  {
    match st
    case ReadBack(w, ok) => if ok && SameBytes(c, s, w) then s.log + [Kept(w)] else s.log
    case Rename(w) => s.log + [Replaced(w)]
    case _ => s.log
  }

  ghost function NextLeaked(c: Setup, s: State, st: Step): set<nat>
    requires Enabled(c, s, st)
  {
    match st
    case UnlinkFails(w) => s.leaked + {s.ws[w].pc.temp}
    case ProcessCrash(p) => s.leaked + TempsOf(c, s.ws, p)
    case PowerLoss(dir, _) => s.leaked + (set n | n in dir && n.Temp? :: n.id)
    case _ => s.leaked
  }

  ghost function Apply(c: Setup, s: State, st: Step): State
    requires Enabled(c, s, st)
  {
    State(
      NextDir(c, s, st), NextDisk(c, s, st), NextLocks(c, s, st), NextWriters(c, s, st),
      NextLog(c, s, st), NextLeaked(c, s, st),
      if st.Rename? then s.renamed + {(c.calls[st.w].target, s.ws[st.w].pc.ino)} else s.renamed,
      s.lost || st.PowerLoss?)
  }
}
