/**
 * The writer as one caller sees it: planning a bundle, writing one artifact through
 * a temporary file, and writing a whole plan.  The operating system is a `Volume`
 * whose every operation may fail, and which counts the failures.
 */
module Writer {
  import opened Common
  import opened Encoding
  import opened Paths
  import Text
  import WriterProtocol

  type Operation = WriterProtocol.Operation

  datatype Kind = All | AllBase64 | ByProtocol | ByTransport | ByCountry | Tier

  datatype Artifact = Artifact(text: string, kind: Kind, path: string)

  datatype OutputFile = OutputFile(path: string, text: string, kind: Kind)

  datatype PlanError = Refused(why: PathError) | Duplicate(path: string) | CaseClash(first: string, second: string)

  // ---------------------------------------------------------------------------
  // Planning
  // ---------------------------------------------------------------------------

  function Canonical(a: Artifact): string {
    Text.Swap(a.path, '\\', '/')
  }

  function PlannedFile(a: Artifact): OutputFile {
    OutputFile(Canonical(a), a.text, a.kind)
  }

  function Planned(artifacts: seq<Artifact>): (files: seq<OutputFile>)
    ensures |files| == |artifacts| && forall k | 0 <= k < |files| :: files[k] == PlannedFile(artifacts[k])
  {
    seq(|artifacts|, k requires 0 <= k < |artifacts| => PlannedFile(artifacts[k]))
  }

  /** Every path is sound and no two differ only by case. */
  ghost predicate Plannable(casing: Casing, artifacts: seq<Artifact>) {
    && (forall k | 0 <= k < |artifacts| :: Acceptable(casing, artifacts[k].path))
    && (forall j, k | 0 <= j < k < |artifacts| ::
          casing.Fold(Canonical(artifacts[j])) != casing.Fold(Canonical(artifacts[k])))
  }

  /** Artifact `k` is the first one that stops the plan, for reason `e`. */
  ghost predicate FirstFault(casing: Casing, artifacts: seq<Artifact>, k: nat, e: PlanError) {
    && k < |artifacts|
    && Plannable(casing, artifacts[..k])
    && match e {
         case Refused(why) => ValidateRelativePath(casing, artifacts[k].path) == Err(why)
         case Duplicate(p) =>
           ValidateRelativePath(casing, artifacts[k].path) == Ok(p) && exists j ::
               0 <= j < k && Canonical(artifacts[j]) == p
         case CaseClash(p, q) =>
           && ValidateRelativePath(casing, artifacts[k].path) == Ok(q) && p != q && casing.Fold(p) == casing.Fold(q)
           && exists j :: 0 <= j < k && Canonical(artifacts[j]) == p
       }
  }

  lemma PlannableNext(casing: Casing, artifacts: seq<Artifact>, i: nat)
    requires i < |artifacts| && Plannable(casing, artifacts[..i]) && Acceptable(casing, artifacts[i].path)
    requires forall j | 0 <= j < i :: casing.Fold(Canonical(artifacts[j])) != casing.Fold(Canonical(artifacts[i]))
    ensures Plannable(casing, artifacts[..i + 1])
  {
  }

  /** A fault at any artifact makes the whole list unplannable. */
  lemma FaultBlocks(casing: Casing, artifacts: seq<Artifact>, i: nat, e: PlanError)
    requires FirstFault(casing, artifacts, i, e)
    ensures !Plannable(casing, artifacts)
  {
    AcceptedExactly(casing, artifacts[i].path);
  }

  /** `plan_outputs`: accepted exactly when plannable, and otherwise stopped by the first fault. */
  method PlanOutputs(casing: Casing, artifacts: seq<Artifact>) returns (r: Result<seq<OutputFile>, PlanError>)
    ensures r.Ok? <==> Plannable(casing, artifacts)
    ensures r.Ok? ==> r.value == Planned(artifacts)
    ensures r.Err? ==> exists k :: FirstFault(casing, artifacts, k, r.error)
  {
    hide Casing.Fold, Acceptable, ValidateRelativePath;
    var files: seq<OutputFile> := [];
    var seen: set<string> := {};
    var folded: map<string, string> := map[];
    for i := 0 to |artifacts|
      invariant Plannable(casing, artifacts[..i])
      invariant files == Planned(artifacts[..i])
      invariant forall j | 0 <= j < i :: Canonical(artifacts[j]) in seen
      invariant forall p | p in seen :: exists j :: 0 <= j < i && Canonical(artifacts[j]) == p
      invariant forall j | 0 <= j < i :: casing.Fold(Canonical(artifacts[j])) in folded
      invariant forall key | key in folded :: folded[key] in seen && casing.Fold(folded[key]) == key
    {
      var a := artifacts[i];
      AcceptedExactly(casing, a.path);
      var checked := ValidateRelativePath(casing, a.path);
      if checked.Err? {
        assert FirstFault(casing, artifacts, i, Refused(checked.error));
        FaultBlocks(casing, artifacts, i, Refused(checked.error));
        return Err(Refused(checked.error));
      }
      var path := checked.value;
      if path in seen {
        assert FirstFault(casing, artifacts, i, Duplicate(path));
        FaultBlocks(casing, artifacts, i, Duplicate(path));
        return Err(Duplicate(path));
      }
      var key := casing.Fold(path);
      if key in folded {
        assert FirstFault(casing, artifacts, i, CaseClash(folded[key], path));
        FaultBlocks(casing, artifacts, i, CaseClash(folded[key], path));
        return Err(CaseClash(folded[key], path));
      }
      PlannableNext(casing, artifacts, i);
      seen := seen + {path};
      folded := folded[key := path];
      files := files + [OutputFile(path, a.text, a.kind)];
      assert artifacts[..i + 1] == artifacts[..i] + [a];
    }
    assert artifacts[..|artifacts|] == artifacts;
    return Ok(files);
  }

  /** On an accepted plan no two artifacts can land on one file, even where case and trailing dots are ignored. */
  lemma PlanIsAliasFree(casing: Casing, artifacts: seq<Artifact>, j: nat, k: nat)
    requires Plannable(casing, artifacts) && j < k < |artifacts|
    ensures Landing(casing, Planned(artifacts)[j].path) != Landing(casing, Planned(artifacts)[k].path)
  {
    AcceptedExactly(casing, artifacts[j].path);
    AcceptedExactly(casing, artifacts[k].path);
    LandsAsFolded(casing, artifacts[j].path);
    LandsAsFolded(casing, artifacts[k].path);
  }

  // ---------------------------------------------------------------------------
  // One artifact
  // ---------------------------------------------------------------------------

  /** Validation accepts this path and changes nothing in it. */
  ghost predicate IsCanonical(casing: Casing, path: string) {
    ValidateRelativePath(casing, path) == Ok(path)
  }

  datatype Policy = Policy(createRoot: bool, createDirs: bool, skipIdentical: bool)

  datatype WrittenFile = WrittenFile(path: string, size: nat, changed: bool)

  datatype WriteError = UnsafePath(why: PathError) | Escapes | Failed(op: Operation)

  /** Files below the output root by canonical path, temporary files, and open descriptors. */
  class Volume {
    var files: map<string, seq<byte>>
    var temps: map<nat, seq<byte>>
    var open: set<nat>
    var next: nat
    var debris: bool
    /** How many operations have failed so far. */
    var failures: nat

    ghost predicate Valid()
      reads this
    {
      open <= temps.Keys && forall t | t in temps :: t < next
    }

    constructor (files: map<string, seq<byte>>)
      ensures Valid() && this.files == files && temps == map[] && open == {} && !debris && failures == 0
    {
      this.files, temps, open, next, debris, failures := files, map[], {}, 0, false, 0;
    }

    /** An operation that only answers whether it worked. */
    method Attempt() returns (ok: bool)
      modifies this`failures
      ensures failures == old(failures) + (if ok then 0 else 1)
    {
      ok := *;
      if !ok {
        failures := failures + 1;
      }
    }

    method MakeTemp() returns (t: Option<nat>)
      requires Valid()
      modifies this`temps, this`open, this`next, this`failures
      ensures Valid() && failures == old(failures) + (if t.Some? then 0 else 1)
      ensures t.None? ==> temps == old(temps) && open == old(open)
      ensures t.Some? ==> t.value !in old(temps) && t.value !in old(open)
                          && temps == old(temps)[t.value := []] && open == old(open) + {t.value}
    {
      var ok := Attempt();
      if !ok {
        return None;
      }
      t := Some(next);
      temps, open, next := temps[next := []], open + {next}, next + 1;
    }

    /** A failed write may leave any prefix behind. */
    method Write(t: nat, payload: seq<byte>) returns (ok: bool)
      requires Valid() && t in open && temps[t] == []
      modifies this`temps, this`failures
      ensures Valid() && failures == old(failures) + (if ok then 0 else 1)
      ensures exists n :: 0 <= n <= |payload| && temps == old(temps)[t := payload[..n]] && (ok ==> n == |payload|)
    {
      ok := Attempt();
      var n: int := *;
      var reached := if ok || !(0 <= n <= |payload|) then |payload| else n;
      temps := temps[t := payload[..reached]];
    }

    method Close(t: nat)
      requires Valid() && t in open
      modifies this`open
      ensures Valid() && open == old(open) - {t}
    {
      open := open - {t};
    }

    /** `os.replace`: all or nothing. */
    method Replace(t: nat, target: string) returns (ok: bool)
      requires Valid() && t in temps && t !in open
      modifies this`files, this`temps, this`failures
      ensures Valid() && failures == old(failures) + (if ok then 0 else 1)
      ensures ok ==> files == old(files)[target := old(temps)[t]] && temps == old(temps) - {t}
      ensures !ok ==> files == old(files) && temps == old(temps)
    {
      ok := Attempt();
      if ok {
        files, temps := files[target := temps[t]], temps - {t};
      }
    }

    /** Best-effort removal; a failure is remembered as debris. */
    method Unlink(t: nat)
      requires Valid() && t in temps && t !in open
      modifies this`temps, this`debris, this`failures
      ensures Valid() && failures >= old(failures)
      ensures (temps == old(temps) - {t} && debris == old(debris))
              || (failures > old(failures) && temps == old(temps) && debris)
    {
      var ok := Attempt();
      if ok {
        temps := temps - {t};
      } else {
        debris := true;
      }
    }

    /** `_same_bytes`: an unreadable file counts as different. */
    method SameBytes(target: string, data: seq<byte>) returns (same: bool)
      modifies this`failures
      ensures failures >= old(failures)
      ensures same ==> target in files && files[target] == data
      ensures failures == old(failures) && target in files && files[target] == data ==> same
    {
      var sized := Attempt();
      if !sized || target !in files || |files[target]| != |data| {
        return false;
      }
      var read := Attempt();
      return read && files[target] == data;
    }

    /**
     * `_atomic_replace` succeeds exactly when no operation fails.  On success the target
     * holds exactly the payload, on failure nothing changed; either way every descriptor
     * is closed and, unless an unlink failed, no temporary file remains.
     */
    method AtomicReplace(target: string, payload: seq<byte>) returns (r: Result<(), Operation>)
      requires Valid()
      modifies this
      ensures Valid() && open == old(open) && failures >= old(failures)
      ensures r.Ok? <==> failures == old(failures)
      ensures r.Ok? ==> files == old(files)[target := payload] && temps == old(temps) && debris == old(debris)
      ensures r.Err? ==> files == old(files) && ((temps == old(temps) && debris == old(debris)) || debris)
    {
      var made := MakeTemp();
      if made.None? {
        return Err(WriterProtocol.CreateTemp);
      }
      var t := made.value;
      var wrapped := Attempt();
      if !wrapped {
        Close(t);
        Unlink(t);
        return Err(WriterProtocol.OpenTemp);
      }
      var ok := Write(t, payload);
      if ok {
        ok := Attempt();
      }
      assert ok ==> temps[t] == payload;
      Close(t);
      if !ok {
        Unlink(t);
        return Err(WriterProtocol.Write);
      }
      var moved := Replace(t, target);
      if !moved {
        Unlink(t);
        return Err(WriterProtocol.Replace);
      }
      return Ok(());
    }

    /** `write_bytes`. */
    method WriteBytes(casing: Casing, policy: Policy, relpath: string, data: seq<byte>)
      returns (r: Result<WrittenFile, WriteError>)
      requires Valid()
      modifies this
      ensures Valid() && open == old(open) && failures >= old(failures)
      ensures ValidateRelativePath(casing, relpath).Err? ==> r.Err? && r.error.UnsafePath?
      ensures r.Err? ==> files == old(files)
      ensures r.Ok? ==> var path := r.value.path;
              && ValidateRelativePath(casing, relpath) == Ok(path) && r.value.size == |data|
              && files == old(files)[path := data]
              && (!r.value.changed ==> policy.skipIdentical && files == old(files))
              && (temps == old(temps) && debris == old(debris))
      ensures failures == old(failures) && policy.skipIdentical && r.Ok? && r.value.path in old(files) ==>
                old(files)[r.value.path] == data ==> !r.value.changed
      ensures failures == old(failures) && ValidateRelativePath(casing, relpath).Ok? ==> r.Ok?
      ensures r.Ok? && !policy.skipIdentical ==> failures == old(failures)
    {
      var checked := ValidateRelativePath(casing, relpath);
      if checked.Err? {
        return Err(UnsafePath(checked.error));
      }
      var path := checked.value;
      if policy.createRoot {
        var ok := Attempt();
        if !ok { return Err(Failed(WriterProtocol.CreateDirectory)); }
      }
      if policy.createDirs && |Text.Split(path, "/")| > 1 {
        var ok := Attempt();
        if !ok { return Err(Failed(WriterProtocol.CreateDirectory)); }
      }
      var inside := Attempt();
      if !inside {
        return Err(Escapes);
      }
      if policy.skipIdentical {
        var same := SameBytes(path, data);
        if same {
          return Ok(WrittenFile(path, |data|, false));
        }
      }
      var replaced := AtomicReplace(path, data);
      if replaced.Err? {
        return Err(Failed(replaced.error));
      }
      return Ok(WrittenFile(path, |data|, true));
    }

    /** `write_text` for a path that is already canonical. */
    method WriteText(casing: Casing, policy: Policy, item: OutputFile) returns (r: Result<WrittenFile, WriteError>)
      requires Valid() && IsCanonical(casing, item.path)
      modifies this
      ensures Valid() && open == old(open) && failures >= old(failures) && (failures == old(failures) ==> r.Ok?)
      ensures r.Err? ==> files == old(files)
      ensures r.Ok? ==> files == old(files)[item.path := Utf8(item.text)] && temps == old(temps)
      ensures r.Ok? ==> r.value.path == item.path && r.value.size == |Utf8(item.text)|
      ensures r.Ok? && !policy.skipIdentical ==> r.value.changed && failures == old(failures)
      ensures r.Ok? && !r.value.changed ==> files == old(files)
      ensures failures == old(failures) && policy.skipIdentical && r.Ok? && item.path in old(files) ==>
                old(files)[item.path] == Utf8(item.text) ==> !r.value.changed
    {
      r := WriteBytes(casing, policy, item.path, Utf8(item.text));
    }

    /**
     * `write_outputs` over an accepted plan: the first `done` artifacts are
     * published and every other file is as before.
     */
    method WriteOutputs(casing: Casing, policy: Policy, plan: seq<OutputFile>)
      returns (r: Result<WriteOutcome, WriteError>, done: nat)
      requires Valid()
      requires forall k | 0 <= k < |plan| :: IsCanonical(casing, plan[k].path)
      modifies this
      ensures Valid() && open == old(open) && failures >= old(failures)
      ensures done <= |plan| && (r.Ok? <==> done == |plan|) && (failures == old(failures) ==> r.Ok?)
      ensures files == Publish(old(files), plan, done)
      ensures r.Ok? ==> temps == old(temps)
      ensures r.Ok? ==> r.value.written + r.value.kept == |plan|
      ensures r.Ok? ==> r.value.written == Changed(r.value.files) && r.value.bytesWritten == BytesChanged(r.value.files)
      ensures r.Ok? ==> Reported(r.value.files, plan)
      ensures r.Ok? && policy.skipIdentical && failures == old(failures) ==>
                ChangedWhere(old(files), plan, r.value.files)
      ensures r.Ok? && !policy.skipIdentical ==> r.value.written == |plan| && failures == old(failures)
      ensures Installed(old(files), plan) ==> files == old(files)
      ensures failures == old(failures) && policy.skipIdentical && Installed(old(files), plan) ==>
                r.value.written == 0 && r.value.bytesWritten == 0
    {
      hide Utf8, IsCanonical, Changed, BytesChanged, ChangedWhere;
      NothingChanged(files, plan[..0]);
      ghost var before := files;
      ghost var settled := Installed(files, plan);
      var written: seq<WrittenFile> := [];
      done := 0;
      while done < |plan|
        invariant done <= |plan| && Valid() && open == old(open) && temps == old(temps)
        invariant files == Publish(before, plan, done)
        invariant Reported(written, plan[..done])
        invariant failures >= old(failures)
        invariant !policy.skipIdentical ==> AllChanged(written, true) && failures == old(failures)
        invariant policy.skipIdentical && failures == old(failures) ==>
                    ChangedWhere(before, plan[..done], written)
        invariant settled ==> files == before
        invariant settled && policy.skipIdentical && failures == old(failures) ==> AllChanged(written, false)
      {
        var item := plan[done];
        var w := WriteText(casing, policy, item);
        if w.Err? {
          return Err(w.error), done;
        }
        ChangedNext(before, plan, done, written, w.value);
        written := written + [w.value];
        assert plan[..done + 1] == plan[..done] + [item];
        done := done + 1;
      }
      assert plan[..done] == plan;
      CountsAddUp(written);
      var count := Changed(written);
      r := Ok(WriteOutcome(written, count, |written| - count, BytesChanged(written)));
    }
  }

  // ---------------------------------------------------------------------------
  // The whole plan
  // ---------------------------------------------------------------------------

  datatype WriteOutcome = WriteOutcome(files: seq<WrittenFile>, written: nat, kept: nat, bytesWritten: nat)

  function Changed(ws: seq<WrittenFile>): (n: nat)
    ensures n <= |ws|
  {
    if ws == [] then 0 else (if ws[0].changed then 1 else 0) + Changed(ws[1..])
  }

  function BytesChanged(ws: seq<WrittenFile>): nat {
    if ws == [] then 0 else (if ws[0].changed then ws[0].size else 0) + BytesChanged(ws[1..])
  }

  ghost predicate AllChanged(ws: seq<WrittenFile>, changed: bool) {
    forall k | 0 <= k < |ws| :: ws[k].changed == changed
  }

  /** One record for each artifact, in plan order, with its path and encoded size. */
  ghost predicate Reported(ws: seq<WrittenFile>, files: seq<OutputFile>) {
    |ws| == |files| && forall k | 0 <= k < |ws| :: ws[k].path == files[k].path && ws[k].size == |Utf8(files[k].text)|
  }

  /** The counters over one record more: it counts, with its size, when its file changed. */
  lemma {:induction false} CountsSnoc(ws: seq<WrittenFile>, w: WrittenFile)
    ensures Changed([]) == 0 && BytesChanged([]) == 0
    ensures Changed(ws + [w]) == Changed(ws) + (if w.changed then 1 else 0)
    ensures BytesChanged(ws + [w]) == BytesChanged(ws) + (if w.changed then w.size else 0)
  {
    if ws == [] {
      assert [] + [w] == [w] && [w][1..] == [];
    } else {
      CountsSnoc(ws[1..], w);
      assert (ws + [w])[1..] == ws[1..] + [w];
    }
  }

  /** Just those files are reported as changed that were not already in place when their turn came. */
  ghost predicate ChangedWhere(before: map<string, seq<byte>>, plan: seq<OutputFile>, ws: seq<WrittenFile>) {
    && |ws| == |plan|
    && forall k | 0 <= k < |ws| :: ws[k].changed <==> !InPlace(Publish(before, plan, k), plan[k])
  }

  ghost predicate InPlace(m: map<string, seq<byte>>, f: OutputFile) {
    f.path in m && m[f.path] == Utf8(f.text)
  }

  lemma NothingChanged(before: map<string, seq<byte>>, plan: seq<OutputFile>)
    requires plan == []
    ensures ChangedWhere(before, plan, [])
  {
  }

  lemma {:induction false} PublishPrefix(before: map<string, seq<byte>>, plan: seq<OutputFile>, done: nat, k: nat)
    requires k <= done <= |plan|
    ensures Publish(before, plan[..done], k) == Publish(before, plan, k)
  {
    if k > 0 {
      PublishPrefix(before, plan, done, k - 1);
    }
  }

  lemma ChangedNext(before: map<string, seq<byte>>, plan: seq<OutputFile>, done: nat, ws: seq<WrittenFile>,
                    w: WrittenFile)
    requires done < |plan|
    ensures ChangedWhere(before, plan[..done], ws)
            && (w.changed <==> !InPlace(Publish(before, plan, done), plan[done])) ==>
              ChangedWhere(before, plan[..done + 1], ws + [w])
  {
    hide Publish, InPlace;
    forall k | 0 <= k <= done
      ensures Publish(before, plan[..done + 1], k) == Publish(before, plan, k)
      ensures k < done ==> Publish(before, plan[..done], k) == Publish(before, plan, k) {
      PublishPrefix(before, plan, done + 1, k);
      if k < done {
        PublishPrefix(before, plan, done, k);
      }
    }
  }

  lemma {:induction false} CountsAddUp(ws: seq<WrittenFile>)
    ensures AllChanged(ws, true) ==> Changed(ws) == |ws|
    ensures AllChanged(ws, false) ==> Changed(ws) == 0 && BytesChanged(ws) == 0
  {
    if ws != [] {
      CountsAddUp(ws[1..]);
    }
  }

  /** The files after publishing the first `n` artifacts of a plan onto `before`. */
  function Publish(before: map<string, seq<byte>>, files: seq<OutputFile>, n: nat): map<string, seq<byte>>
    requires n <= |files|
  {
    if n == 0 then before else Publish(before, files, n - 1)[files[n - 1].path := Utf8(files[n - 1].text)]
  }

  /** Every artifact of the plan is in place with its exact encoded text. */
  ghost predicate Installed(m: map<string, seq<byte>>, files: seq<OutputFile>) {
    forall k | 0 <= k < |files| :: files[k].path in m && m[files[k].path] == Utf8(files[k].text)
  }

  /** Publishing a plan installs all of it. */
  lemma {:induction false} PublishInstalls(before: map<string, seq<byte>>, files: seq<OutputFile>, n: nat, k: nat)
    requires k < n <= |files|
    requires forall i, j | 0 <= i < j < |files| :: files[i].path != files[j].path
    ensures var m := Publish(before, files, n); files[k].path in m && m[files[k].path] == Utf8(files[k].text)
  {
    if k < n - 1 {
      PublishInstalls(before, files, n - 1, k);
    }
  }

  /** Files the plan does not name are left alone: nothing is pruned. */
  lemma {:induction false} PublishSpares(before: map<string, seq<byte>>, files: seq<OutputFile>, n: nat, p: string)
    requires n <= |files| && forall k | 0 <= k < n :: files[k].path != p
    ensures p in Publish(before, files, n) <==> p in before
    ensures p in before ==> Publish(before, files, n)[p] == before[p]
  {
    if n > 0 {
      PublishSpares(before, files, n - 1, p);
    }
  }

  /** The same plan published onto a volume that keeps one file per case-folded, dot-stripped name. */
  function PublishFolded(casing: Casing, before: map<string, seq<byte>>, files: seq<OutputFile>,
                         n: nat): map<string, seq<byte>>
    requires n <= |files|
  {
    if n == 0 then before
    else PublishFolded(casing, before, files, n - 1)[Landing(casing, files[n - 1].path) := Utf8(files[n - 1].text)]
  }

  /** Even through such a volume every artifact of an accepted plan reads back whole. */
  lemma {:induction false} FoldedInstalls(casing: Casing, before: map<string, seq<byte>>, artifacts: seq<Artifact>,
                                          n: nat, k: nat)
    requires Plannable(casing, artifacts) && k < n <= |artifacts|
    ensures var files := Planned(artifacts);
            var m := PublishFolded(casing, before, files, n);
            Landing(casing, files[k].path) in m && m[Landing(casing, files[k].path)] == Utf8(files[k].text)
  {
    hide Landing, Utf8;
    if k < n - 1 {
      FoldedInstalls(casing, before, artifacts, n - 1, k);
      PlanIsAliasFree(casing, artifacts, k, n - 1);
    }
  }

  /** Writing an installed plan again with `skip_identical` changes no file, and writes nothing if nothing fails. */
  method WriteAgain(casing: Casing, volume: Volume, policy: Policy, plan: seq<OutputFile>)
    returns (r: Result<WriteOutcome, WriteError>, failed: nat)
    requires volume.Valid() && policy.skipIdentical && Installed(volume.files, plan)
    requires forall k | 0 <= k < |plan| :: IsCanonical(casing, plan[k].path)
    modifies volume
    ensures volume.files == old(volume.files)
    ensures failed == 0 ==> r.Ok? && r.value.written == 0 && r.value.kept == |plan| && r.value.bytesWritten == 0
  {
    hide Publish, IsCanonical, Reported, Installed, ChangedWhere, Changed, BytesChanged;
    var before := volume.failures;
    var n;
    r, n := volume.WriteOutputs(casing, policy, plan);
    failed := volume.failures - before;
  }

  /**
   * Publishing the same plan twice with `skip_identical`.  Once the first run succeeded the
   * second one changes no file, whatever fails in it; and if nothing fails it writes nothing.
   */
  method Republish(casing: Casing, volume: Volume, policy: Policy, artifacts: seq<Artifact>)
    returns (first: Result<WriteOutcome, WriteError>, second: Result<WriteOutcome, WriteError>, failed: nat)
    requires volume.Valid() && policy.skipIdentical && Plannable(casing, artifacts)
    modifies volume
    ensures first.Ok? ==> volume.files == Publish(old(volume.files), Planned(artifacts), |artifacts|)
    ensures first.Ok? ==> Installed(volume.files, Planned(artifacts))
    ensures first.Ok? && failed == 0 ==>
              second.Ok? && second.value.written == 0 && second.value.kept == |artifacts|
                  && second.value.bytesWritten == 0
    ensures first.Err? ==> second == first
  {
    PlanIsCanonical(casing, artifacts);
    hide Plannable, Planned, Publish, IsCanonical, Reported, Utf8, ChangedWhere, Changed, BytesChanged;
    var plan := Planned(artifacts);
    var n;
    first, n := volume.WriteOutputs(casing, policy, plan);
    if first.Err? {
      return first, first, 0;
    }
    AllInstalled(old(volume.files), plan);
    hide Installed;
    second, failed := WriteAgain(casing, volume, policy, plan);
  }

  datatype PublishError = Unplannable(plan: PlanError) | Unwritten(write: WriteError)

  /** `write_outputs`: the plan first, so that nothing is touched when it is refused. */
  method PublishArtifacts(casing: Casing, volume: Volume, policy: Policy, artifacts: seq<Artifact>)
    returns (r: Result<WriteOutcome, PublishError>, done: nat)
    requires volume.Valid()
    modifies volume
    ensures volume.Valid() && volume.failures >= old(volume.failures) && done <= |artifacts|
    ensures volume.files == Publish(old(volume.files), Planned(artifacts), done)
    ensures (r.Err? && r.error.Unplannable?) <==> !Plannable(casing, artifacts)
    ensures r.Err? && r.error.Unplannable? ==>
              done == 0 && volume.files == old(volume.files) && volume.failures == old(volume.failures)
    ensures r.Err? && r.error.Unwritten? ==> done < |artifacts| && volume.failures > old(volume.failures)
    ensures r.Ok? ==> done == |artifacts| && Installed(volume.files, Planned(artifacts))
    ensures r.Ok? && !policy.skipIdentical ==> volume.failures == old(volume.failures) && r.value.written == |artifacts|
  {
    hide Plannable, FirstFault, PlannedFile, Installed, Reported, IsCanonical, ChangedWhere, Changed, BytesChanged;
    done := 0;
    var plan := PlanOutputs(casing, artifacts);
    if plan.Err? {
      return Err(Unplannable(plan.error)), 0;
    }
    PlanIsCanonical(casing, artifacts);
    var w;
    w, done := volume.WriteOutputs(casing, policy, plan.value);
    if w.Err? {
      return Err(Unwritten(w.error)), done;
    }
    AllInstalled(old(volume.files), plan.value);
    return Ok(w.value), done;
  }

  lemma AllInstalled(before: map<string, seq<byte>>, files: seq<OutputFile>)
    requires forall i, j | 0 <= i < j < |files| :: files[i].path != files[j].path
    ensures Installed(Publish(before, files, |files|), files)
  {
    hide Publish;
    var m := Publish(before, files, |files|);
    forall k | 0 <= k < |files| ensures files[k].path in m && m[files[k].path] == Utf8(files[k].text) {
      PublishInstalls(before, files, |files|, k);
    }
  }

  lemma PlanIsCanonical(casing: Casing, artifacts: seq<Artifact>)
    requires Plannable(casing, artifacts)
    ensures forall k | 0 <= k < |artifacts| :: IsCanonical(casing, Planned(artifacts)[k].path)
    ensures forall j, k | 0 <= j < k < |artifacts| :: Planned(artifacts)[j].path != Planned(artifacts)[k].path
  {
    forall k | 0 <= k < |artifacts|
      ensures IsCanonical(casing, Planned(artifacts)[k].path)
    {
      AcceptedExactly(casing, artifacts[k].path);
      ValidateIdempotent(casing, artifacts[k].path);
    }
  }
}
