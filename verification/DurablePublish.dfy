/** scripts/build_publication_provenance_v2.py:290-307, 631-675: publishing a staged
    directory durably, whatever call fails. */
module DurablePublish {
  import opened Options

  datatype Which = Staging | Parent

  /** The calls made on the file system, in order, and whether each succeeded. */
  datatype Op =
    | Open(dir: Which, ok: bool)
    | Fsync(dir: Which, ok: bool)
    | Close(dir: Which, ok: bool)
    | Rename(ok: bool)

  datatype Error = OsError | TargetAlreadyExists | PostconditionFailed | DurabilityUnconfirmed

  datatype Node = Directory(contents: string) | PlainFile

  /** The two names the protocol works on, with what stands there. */
  datatype Disk = Disk(staging: Option<Node>, target: Option<Node>)

  predicate IsDirectory(x: Option<Node>) { x.Some? && x.value.Directory? }

  /** What the rename meets once the target was seen to be absent. When it works,
      rivals may change either name before the check that follows. */
  datatype Meets =
    | Rival(node: Node)           // somebody else takes the target first
    | Failure                     // the system call fails
    | Works(rivals: Option<Disk>) // and rivals leave the names alone, or leave them like this

  /** Which calls fail. */
  datatype Plan = Plan(
    openStaging: bool, fsyncStaging: bool, closeStaging: bool, openParent: bool,
    meets: Meets, fsyncParent: bool, closeParent: bool)

  // -------------------- the protocol on values --------------------

  /** `error` is None for a normal return. */
  datatype Run = Run(error: Option<Error>, disk: Disk, trace: seq<Op>)

  /** The names as the check after a working rename sees them. */
  function AfterRename(disk: Disk, rivals: Option<Disk>): Disk {
    if rivals.Some? then rivals.value else Disk(None, disk.staging)
  }

  /** `staging.exists() or not final_dir.is_dir()`. */
  predicate CheckFails(after: Disk) { after.staging.Some? || !IsDirectory(after.target) }

  /** atomic_publish_directory_noreplace. */
  function AtomicPublish(plan: Plan, disk: Disk): Run {
    if disk.target.Some? then Run(Some(TargetAlreadyExists), disk, [])
    else
      match plan.meets
      case Rival(node) => Run(Some(TargetAlreadyExists), Disk(disk.staging, Some(node)), [Rename(false)])
      case Failure => Run(Some(OsError), disk, [Rename(false)])
      case Works(rivals) =>
        var after := AfterRename(disk, rivals);
        Run(if CheckFails(after) then Some(PostconditionFailed) else None, after, [Rename(true)])
  }

  /** The staging directory: open, fsync, and close whatever the fsync did. */
  function SyncStaging(plan: Plan, disk: Disk): Run {
    if plan.openStaging || !IsDirectory(disk.staging) then Run(Some(OsError), disk, [Open(Staging, false)])
    else
      Run(
        if plan.fsyncStaging || plan.closeStaging then Some(OsError) else None, disk,
        [Open(Staging, true), Fsync(Staging, !plan.fsyncStaging), Close(Staging, !plan.closeStaging)])
  }

  /** From the rename on, with the parent open. */
  function RenameAndConfirm(plan: Plan, disk: Disk): Run {
    var r := AtomicPublish(plan, disk);
    if r.error.Some? then
      Run(if plan.closeParent then Some(OsError) else r.error, r.disk, r.trace + [Close(Parent, !plan.closeParent)])
    else
      Run(
        if plan.fsyncParent || plan.closeParent then Some(DurabilityUnconfirmed) else None, r.disk,
        r.trace + [Fsync(Parent, !plan.fsyncParent), Close(Parent, !plan.closeParent)])
  }

  /** durable_publish_directory_v2. */
  function Publish(plan: Plan, disk: Disk): Run {
    var staged := SyncStaging(plan, disk);
    if staged.error.Some? then staged
    else if plan.openParent then Run(Some(OsError), disk, staged.trace + [Open(Parent, false)])
    else
      var last := RenameAndConfirm(plan, disk);
      Run(last.error, last.disk, staged.trace + [Open(Parent, true)] + last.trace)
  }

  // -------------------- what it guarantees --------------------

  predicate Renamed(trace: seq<Op>) { Rename(true) in trace }

  /** What a power loss after these calls is sure to leave behind. */
  datatype Durable = Durable(stagingSynced: bool, renamed: bool, targetDurable: bool)

  function Effect(d: Durable, op: Op): Durable {
    match op
    case Fsync(dir, ok) =>
      if !ok then d
      else if dir == Staging then d.(stagingSynced := true)
      else d.(targetDurable := d.renamed && d.stagingSynced)
    case Rename(ok) => if ok then d.(renamed := true) else d
    case _ => d
  }

  function AfterCalls(trace: seq<Op>): Durable {
    if trace == [] then Durable(false, false, false)
    else Effect(AfterCalls(trace[..|trace| - 1]), trace[|trace| - 1])
  }

  /** Rename only ever follows a good fsync of the staging directory. */
  ghost predicate NeverExposesUnsynced(trace: seq<Op>) {
    forall k :: 0 <= k <= |trace| ==> SafeAt(trace, k)
  }

  predicate SafeAt(trace: seq<Op>, k: nat)
    requires k <= |trace|
  {
    AfterCalls(trace[..k]).renamed ==> AfterCalls(trace[..k]).stagingSynced
  }

  lemma AfterPush(trace: seq<Op>, op: Op)
    ensures AfterCalls(trace + [op]) == Effect(AfterCalls(trace), op)
  {
    assert (trace + [op])[..|trace|] == trace;
  }

  lemma SafePush(trace: seq<Op>, op: Op)
    requires NeverExposesUnsynced(trace)
    requires op == Rename(true) ==> AfterCalls(trace).stagingSynced
    ensures NeverExposesUnsynced(trace + [op])
  {
    var all := trace + [op];
    AfterPush(trace, op);
    forall k | 0 <= k <= |all| ensures SafeAt(all, k) {
      if k <= |trace| {
        assert all[..k] == trace[..k];
        assert SafeAt(trace, k);
      } else {
        assert all[..k] == all;
        assert trace[..|trace|] == trace;
        assert SafeAt(trace, |trace|);
      }
    }
  }

  lemma SafeEmpty()
    ensures NeverExposesUnsynced([]) && AfterCalls([]) == Durable(false, false, false)
  {}

  lemma StagedTrace(plan: Plan, disk: Disk)
    ensures NeverExposesUnsynced(SyncStaging(plan, disk).trace)
    ensures var d := AfterCalls(SyncStaging(plan, disk).trace);
      !d.renamed && !d.targetDurable && (SyncStaging(plan, disk).error == None ==> d.stagingSynced)
  {
    var open := [Open(Staging, !(plan.openStaging || !IsDirectory(disk.staging)))];
    SafeEmpty();
    SafePush([], open[0]);
    AfterPush([], open[0]);
    assert [] + open == open;
    if open[0].ok {
      var fsync := Fsync(Staging, !plan.fsyncStaging);
      SafePush(open, fsync);
      AfterPush(open, fsync);
      SafePush(open + [fsync], Close(Staging, !plan.closeStaging));
      AfterPush(open + [fsync], Close(Staging, !plan.closeStaging));
      assert SyncStaging(plan, disk).trace == open + [fsync] + [Close(Staging, !plan.closeStaging)];
    }
  }

  lemma SafePushAll(before: seq<Op>, ops: seq<Op>)
    requires NeverExposesUnsynced(before) && AfterCalls(before).stagingSynced
    ensures NeverExposesUnsynced(before + ops) && AfterCalls(before + ops).stagingSynced
    decreases |ops|
  {
    if ops == [] {
      assert before + ops == before;
    } else {
      SafePush(before, ops[0]);
      AfterPush(before, ops[0]);
      SafePushAll(before + [ops[0]], ops[1..]);
      assert before + [ops[0]] + ops[1..] == before + ops;
    }
  }

  /** Lose power at any point of any run: a target that was renamed into place has had
      its contents synced first. */
  lemma CrashNeverExposesUnsynced(plan: Plan, disk: Disk)
    ensures NeverExposesUnsynced(Publish(plan, disk).trace)
  {
    var staged := SyncStaging(plan, disk);
    StagedTrace(plan, disk);
    if staged.error == None {
      if plan.openParent {
        SafePushAll(staged.trace, [Open(Parent, false)]);
      } else {
        var rest := [Open(Parent, true)] + RenameAndConfirm(plan, disk).trace;
        SafePushAll(staged.trace, rest);
        assert Publish(plan, disk).trace == staged.trace + rest;
      }
    }
  }

  lemma SuccessfulRun(plan: Plan, disk: Disk)
    requires Publish(plan, disk).error == None
    ensures Publish(plan, disk).trace
      == SyncStaging(plan, disk).trace + [Open(Parent, true), Rename(true), Fsync(Parent, true), Close(Parent, true)]
    ensures SyncStaging(plan, disk).trace == [Open(Staging, true), Fsync(Staging, true), Close(Staging, true)]
    ensures disk.target == None && IsDirectory(disk.staging) && plan.meets.Works?
    ensures Publish(plan, disk).disk == AfterRename(disk, plan.meets.rivals)
  {}

  lemma RenameThenSync(before: seq<Op>)
    requires AfterCalls(before).stagingSynced
    ensures AfterCalls(before + [Open(Parent, true), Rename(true), Fsync(Parent, true), Close(Parent, true)])
      == Durable(true, true, true)
  {
    var t1 := before + [Open(Parent, true)];
    var t2 := t1 + [Rename(true)];
    var t3 := t2 + [Fsync(Parent, true)];
    AfterPush(before, Open(Parent, true));
    AfterPush(t1, Rename(true));
    AfterPush(t2, Fsync(Parent, true));
    AfterPush(t3, Close(Parent, true));
    assert before + [Open(Parent, true), Rename(true), Fsync(Parent, true), Close(Parent, true)]
      == t3 + [Close(Parent, true)];
  }

  /** A normal return: the staging fsync came before the rename and the parent fsync
      after it, so the published contents survive a power loss. */
  lemma ReturnMeansDurable(plan: Plan, disk: Disk)
    requires Publish(plan, disk).error == None
    ensures var trace := Publish(plan, disk).trace;
      && AfterCalls(trace) == Durable(true, true, true)
      && |trace| == 7 && trace[1] == Fsync(Staging, true) && trace[4] == Rename(true) && trace[5] == Fsync(Parent, true)
    ensures disk.target == None && IsDirectory(disk.staging) && IsDirectory(Publish(plan, disk).disk.target)
    ensures plan.meets == Works(None) ==> Publish(plan, disk).disk == Disk(None, disk.staging)
  {
    SuccessfulRun(plan, disk);
    StagedTrace(plan, disk);
    RenameThenSync(SyncStaging(plan, disk).trace);
  }

  /** The promise behind the error: the rename happened and the call did not return. */
  ghost predicate UnconfirmedIsExact(plan: Plan, disk: Disk) {
    var r := Publish(plan, disk);
    r.error == Some(DurabilityUnconfirmed) <==> Renamed(r.trace) && r.error.Some?
  }

  /** The rename is reached: nothing before it fails and no target is in the way. */
  predicate ReachesRename(plan: Plan, disk: Disk) {
    && !plan.openStaging && IsDirectory(disk.staging) && !plan.fsyncStaging && !plan.closeStaging && !plan.openParent
    && disk.target == None
  }

  /** The rename works and the check right after it fails, because rivals recreated the
      staging name or took the target away. */
  predicate Disturbed(plan: Plan, disk: Disk) {
    ReachesRename(plan, disk) && plan.meets.Works? && CheckFails(AfterRename(disk, plan.meets.rivals))
  }

  lemma RenamedIff(plan: Plan, disk: Disk)
    ensures Renamed(Publish(plan, disk).trace) <==> ReachesRename(plan, disk) && plan.meets.Works?
  {
    if ReachesRename(plan, disk) && plan.meets.Works? {
      assert Publish(plan, disk).trace[4] == Rename(true);
    }
  }

  /** The promise holds except when the rename works and the check right after it
      fails: then another error is raised although the rename happened. */
  lemma UnconfirmedIffNotDisturbed(plan: Plan, disk: Disk)
    ensures UnconfirmedIsExact(plan, disk) <==> !Disturbed(plan, disk)
  {
    RenamedIff(plan, disk);
  }

  /** Both ways to disturb the check, with nothing failing: the staging name is back,
      or the target is gone. */
  lemma DisturbedRenames()
    ensures var disk := Disk(Some(Directory("new")), None);
      forall rivals :: rivals in {disk.(target := disk.staging), Disk(None, None), Disk(None, Some(PlainFile))} ==>
        var r := Publish(Plan(false, false, false, false, Works(Some(rivals)), false, false), disk);
        Renamed(r.trace) && r.error == Some(PostconditionFailed)
  {
    var disk := Disk(Some(Directory("new")), None);
    forall rivals | rivals in {disk.(target := disk.staging), Disk(None, None), Disk(None, Some(PlainFile))}
      ensures Renamed(Publish(Plan(false, false, false, false, Works(Some(rivals)), false, false), disk).trace)
    {
      RenamedIff(Plan(false, false, false, false, Works(Some(rivals)), false, false), disk);
    }
  }

  /** A target that is there is never replaced: neither one that stood there before, nor
      one a rival put there first. Without a rename the staging name is untouched and the
      target is as it was or a rival's; with one, the target was absent and both names are
      as the rename and the rivals leave them. */
  lemma NeverReplaces(plan: Plan, disk: Disk)
    ensures var r := Publish(plan, disk);
      && (disk.target.Some? ==> r.disk == disk && r.error.Some? && !Renamed(r.trace))
      && (plan.meets.Rival? ==> r.error.Some? && !Renamed(r.trace))
      && (!Renamed(r.trace) ==> r.disk.staging == disk.staging)
      && (!Renamed(r.trace) ==>
            || r.disk.target == disk.target
            || (disk.target == None && plan.meets.Rival? && r.disk.target == Some(plan.meets.node)))
      && (Renamed(r.trace) ==>
            disk.target == None && plan.meets.Works? && r.disk == AfterRename(disk, plan.meets.rivals))
  {
    RenamedIff(plan, disk);
  }

  /** Any error other than the unconfirmed one: no rename happened, or its check was
      disturbed. In the first case the names are as they were but for a rival's target. */
  lemma OtherErrorsLeaveTarget(plan: Plan, disk: Disk)
    ensures var r := Publish(plan, disk);
      r.error.Some? && r.error != Some(DurabilityUnconfirmed) && !Disturbed(plan, disk) ==>
        && !Renamed(r.trace) && r.disk.staging == disk.staging
        && (r.disk.target == disk.target || (plan.meets.Rival? && r.disk.target == Some(plan.meets.node)))
  {
    UnconfirmedIffNotDisturbed(plan, disk);
    NeverReplaces(plan, disk);
  }

  /** Which error is raised. An existing or a rival's target is named as such unless closing
      the parent fails as well; the failed check likewise; every other failure before the
      rename is an OS error, and every failure after it leaves durability unconfirmed. */
  lemma EachErrorHasItsCause(plan: Plan, disk: Disk)
    ensures var r := Publish(plan, disk);
      var synced := !plan.openStaging && IsDirectory(disk.staging) && !plan.fsyncStaging && !plan.closeStaging
        && !plan.openParent;
      var taken := disk.target.Some? || plan.meets.Rival?;
      && (r.error == Some(TargetAlreadyExists) <==> synced && taken && !plan.closeParent)
      && (r.error == Some(PostconditionFailed) <==> Disturbed(plan, disk) && !plan.closeParent)
      && (r.error == Some(DurabilityUnconfirmed) <==>
        Renamed(r.trace) && !Disturbed(plan, disk) && (plan.fsyncParent || plan.closeParent))
      && (r.error == Some(OsError) <==>
        !synced || (synced && !taken && plan.meets.Failure?) || (plan.closeParent && (taken || Disturbed(plan, disk))))
      && (r.error == None <==>
        Renamed(r.trace) && !Disturbed(plan, disk) && !plan.fsyncParent && !plan.closeParent)
  {
    RenamedIff(plan, disk);
  }

  function Opens(trace: seq<Op>, dir: Which): nat {
    if trace == [] then 0 else Opens(trace[1..], dir) + (if trace[0] == Open(dir, true) then 1 else 0)
  }

  function Closes(trace: seq<Op>, dir: Which): nat {
    if trace == [] then 0
    else Closes(trace[1..], dir) + (if trace[0].Close? && trace[0].dir == dir then 1 else 0)
  }

  lemma {:induction false} CountsConcat(a: seq<Op>, b: seq<Op>, dir: Which)
    ensures Opens(a + b, dir) == Opens(a, dir) + Opens(b, dir)
    ensures Closes(a + b, dir) == Closes(a, dir) + Closes(b, dir)
  {
    if a == [] {
      assert a + b == b;
    } else {
      assert (a + b)[1..] == a[1..] + b;
      CountsConcat(a[1..], b, dir);
    }
  }

  lemma CountsOne(op: Op, dir: Which)
    ensures Opens([op], dir) == if op == Open(dir, true) then 1 else 0
    ensures Closes([op], dir) == if op.Close? && op.dir == dir then 1 else 0
  {
    assert [op][1..] == [];
  }

  /** Every descriptor that was opened is closed exactly once, and none is closed that
      was not opened. */
  lemma DescriptorsAreClosedOnce(plan: Plan, disk: Disk, dir: Which)
    ensures var trace := Publish(plan, disk).trace; Opens(trace, dir) == Closes(trace, dir) <= 1
  {
    var staged := SyncStaging(plan, disk);
    StagedCounts(plan, disk, dir);
    if staged.error == None {
      if plan.openParent {
        CountsConcat(staged.trace, [Open(Parent, false)], dir);
        CountsOne(Open(Parent, false), dir);
      } else {
        var last := RenameAndConfirm(plan, disk).trace;
        ConfirmCounts(plan, disk, dir);
        CountsConcat(staged.trace + [Open(Parent, true)], last, dir);
        CountsConcat(staged.trace, [Open(Parent, true)], dir);
        CountsOne(Open(Parent, true), dir);
      }
    }
  }

  lemma StagedCounts(plan: Plan, disk: Disk, dir: Which)
    ensures var trace := SyncStaging(plan, disk).trace;
      Opens(trace, dir) == Closes(trace, dir) <= if dir == Staging then 1 else 0
  {
    var trace := SyncStaging(plan, disk).trace;
    CountsOne(trace[0], dir);
    if |trace| == 3 {
      CountsOne(trace[1], dir);
      CountsOne(trace[2], dir);
      CountsConcat([trace[0]], [trace[1]], dir);
      CountsConcat([trace[0]] + [trace[1]], [trace[2]], dir);
      assert trace == [trace[0]] + [trace[1]] + [trace[2]];
    }
  }

  lemma ConfirmCounts(plan: Plan, disk: Disk, dir: Which)
    ensures var trace := RenameAndConfirm(plan, disk).trace;
      Opens(trace, dir) == 0 && Closes(trace, dir) == if dir == Parent then 1 else 0
  {
    var r := AtomicPublish(plan, disk);
    var close, fsync := Close(Parent, !plan.closeParent), Fsync(Parent, !plan.fsyncParent);
    CountsOne(close, dir);
    CountsOne(fsync, dir);
    CountsOne(Rename(true), dir);
    CountsOne(Rename(false), dir);
    CountsConcat(r.trace, [close], dir);
    CountsConcat([fsync], [close], dir);
    CountsConcat(r.trace, [fsync] + [close], dir);
    assert [fsync] + [close] == [fsync, close];
  }

  // -------------------- the protocol step by step --------------------

  /** The file system as the publisher acts on it. */
  class FileSystem {
    const plan: Plan
    var disk: Disk
    var trace: seq<Op>

    constructor (plan: Plan, disk: Disk)
      ensures this.plan == plan && this.disk == disk && trace == []
    {
      this.plan := plan;
      this.disk := disk;
      trace := [];
    }

    method OpenDirectory(dir: Which) returns (ok: bool)
      modifies this`trace
      ensures ok == (if dir == Staging then !plan.openStaging && IsDirectory(disk.staging) else !plan.openParent)
      ensures trace == old(trace) + [Open(dir, ok)]
    {
      ok := if dir == Staging then !plan.openStaging && IsDirectory(disk.staging) else !plan.openParent;
      trace := trace + [Open(dir, ok)];
    }

    method FsyncDirectory(dir: Which) returns (ok: bool)
      modifies this`trace
      ensures ok == (if dir == Staging then !plan.fsyncStaging else !plan.fsyncParent)
      ensures trace == old(trace) + [Fsync(dir, ok)]
    {
      ok := if dir == Staging then !plan.fsyncStaging else !plan.fsyncParent;
      trace := trace + [Fsync(dir, ok)];
    }

    method CloseFd(dir: Which) returns (ok: bool)
      modifies this`trace
      ensures ok == (if dir == Staging then !plan.closeStaging else !plan.closeParent)
      ensures trace == old(trace) + [Close(dir, ok)]
    {
      ok := if dir == Staging then !plan.closeStaging else !plan.closeParent;
      trace := trace + [Close(dir, ok)];
    }

    method AtomicPublishNoReplace() returns (error: Option<Error>)
      modifies this
      ensures var r := AtomicPublish(plan, old(disk));
        error == r.error && disk == r.disk && trace == old(trace) + r.trace
    {
      if disk.target.Some? {
        return Some(TargetAlreadyExists);
      }
      match plan.meets {
        case Failure =>
          trace := trace + [Rename(false)];
          return Some(OsError);
        case Rival(node) =>
          disk := disk.(target := Some(node));
          trace := trace + [Rename(false)];
          return Some(TargetAlreadyExists);
        case Works(rivals) =>
          trace := trace + [Rename(true)];
          disk := AfterRename(disk, rivals);
      }
      error := if disk.staging.Some? || !IsDirectory(disk.target) then Some(PostconditionFailed) else None;
    }

    /** The descriptor is closed whether or not the fsync worked. */
    method SyncStagingDirectory() returns (error: Option<Error>)
      modifies this`trace
      ensures var r := SyncStaging(plan, old(disk)); error == r.error && trace == old(trace) + r.trace
    {
      var opens := OpenDirectory(Staging);
      if !opens {
        return Some(OsError);
      }
      var synced := FsyncDirectory(Staging);
      var closed := CloseFd(Staging);
      error := if synced && closed then None else Some(OsError);
    }

    /** With the parent open; `renamed` decides which error a failing fsync or close turns
        into. */
    method RenameUnderParent() returns (error: Option<Error>)
      modifies this
      ensures var r := RenameAndConfirm(plan, old(disk));
        error == r.error && disk == r.disk && trace == old(trace) + r.trace
    {
      var renamed := false;
      error := AtomicPublishNoReplace();
      if error == None {
        renamed := true;
        var confirmed := FsyncDirectory(Parent);
        if !confirmed {
          error := Some(DurabilityUnconfirmed);
        }
      }
      var closed := CloseFd(Parent);
      if !closed {
        error := Some(if renamed then DurabilityUnconfirmed else OsError);
      }
    }

    method DurablePublishDirectory() returns (error: Option<Error>)
      modifies this
      ensures var r := Publish(plan, old(disk));
        error == r.error && disk == r.disk && trace == old(trace) + r.trace
    {
      error := SyncStagingDirectory();
      if error.Some? {
        return;
      }
      var opens := OpenDirectory(Parent);
      if !opens {
        return Some(OsError);
      }
      error := RenameUnderParent();
    }
  }
}
