/** Runs in which no two operations overlap. Each operation is one particular schedule of the
    protocol's steps, so everything proved there holds here; and without overlap the status
    discipline that the service promises holds as well. */
module WallpaperRuns {
  import opened Common
  import opened Wallpapers
  import opened WallpaperProtocol
  import opened WallpaperServer

  function Next(ok: bool): Step { if ok then Proceed(0) else Abort(0) }

  /** The protocol steps of one operation, taken back to back by call 0. */
  function Schedule(op: Op): seq<Step> {
    match op
    case Create(id, uploader, title, category, insertOk, setKeyOk, urlOk) =>
      if insertOk
      then [CreateInsert(0, id, uploader, title, Stored(category))] + [Next(setKeyOk)] + [Next(urlOk)] else []
    case Put(key) => [Upload(key)]
    case Finalize(id, user, env) =>
      var opening := [FinalizeRead(0, id, user)] + [Next(env.CopyMade())] + [ProbeReply(0, env.probe)];
      var closing := [Next(env.ThumbnailStored())] + [Next(env.PreviewStored())] + [Next(env.updateOk)];
      if env.readOk then opening + closing else []
    case Approve(id, readOk, writeOk) => if readOk then [ApproveRead(0, id)] + [Next(writeOk)] else []
    case Reject(id, reason, readOk, writeOk) => if readOk then [RejectRead(0, id, reason)] + [Next(writeOk)] else []
    case Download(id, readOk, signOk, countOk) =>
      if readOk then [DownloadRead(0, id)] + [Next(signOk)] + [Next(countOk)] else []
    case EditMetadata(id, title, category, tags, writeOk) =>
      if writeOk then [Edit(id, title, Stored(category), tags)] else []
  }

  lemma RunThree(l: Limits, s: State, a: Step, b: Step, c: Step)
    ensures Run(l, s, [a] + [b] + [c]) == Apply(l, Apply(l, Apply(l, s, a), b), c)
  {
    RunConcat(l, s, [a] + [b], [c]);
    RunConcat(l, s, [a], [b]);
  }

  lemma FinalizeOpens(l: Limits, s: State, id: Id, user: Id, env: FinalizeEnv)
    requires s.calls == map[] && env.readOk
    ensures Run(l, s, [FinalizeRead(0, id, user)] + [Next(env.CopyMade())] + [ProbeReply(0, env.probe)])
         == if ReachesUploads(l, s, id, user, env) then Begin(s, 0, PutThumbnail(id, env.probe.value)) else s
  {
    RunThree(l, s, FinalizeRead(0, id, user), Next(env.CopyMade()), ProbeReply(0, env.probe));
  }

  lemma FinalizeCloses(l: Limits, s: State, id: Id, user: Id, env: FinalizeEnv)
    requires s.calls == map[] && ReachesUploads(l, s, id, user, env)
    ensures Run(l, Begin(s, 0, PutThumbnail(id, env.probe.value)),
                [Next(env.ThumbnailStored())] + [Next(env.PreviewStored())] + [Next(env.updateOk)])
         == FinalizeState(l, s, id, user, env)
  {
    var s0 := Begin(s, 0, PutThumbnail(id, env.probe.value));
    RunThree(l, s0, Next(env.ThumbnailStored()), Next(env.PreviewStored()), Next(env.updateOk));
    assert s0.calls - {0} == map[];
    if env.PreviewStored() {
      assert s.objects + {Thumbnail(id)} + {Preview(id)} == s.objects + {Thumbnail(id), Preview(id)};
    }
  }

  lemma FinalizeIsInterleaving(l: Limits, s: State, id: Id, user: Id, env: FinalizeEnv)
    requires s.calls == map[]
    ensures Run(l, s, Schedule(Finalize(id, user, env))) == FinalizeState(l, s, id, user, env)
  {
    if !env.readOk {
      assert s.objects + {} == s.objects;
      return;
    }
    var opening := [FinalizeRead(0, id, user)] + [Next(env.CopyMade())] + [ProbeReply(0, env.probe)];
    var closing := [Next(env.ThumbnailStored())] + [Next(env.PreviewStored())] + [Next(env.updateOk)];
    RunConcat(l, s, opening, closing);
    FinalizeOpens(l, s, id, user, env);
    if ReachesUploads(l, s, id, user, env) {
      FinalizeCloses(l, s, id, user, env);
    } else {
      RunThree(l, s, Next(env.ThumbnailStored()), Next(env.PreviewStored()), Next(env.updateOk));
    }
  }

  lemma CreateIsInterleaving(l: Limits, s: State, op: Op)
    requires s.calls == map[] && op.Create?
    ensures Run(l, s, Schedule(op)) == Serial(l, s, op)
  {
    if op.insertOk {
      var insert := CreateInsert(0, op.id, op.uploader, op.title, Stored(op.category));
      RunThree(l, s, insert, Next(op.setKeyOk), Next(op.urlOk));
    }
  }

  lemma DownloadIsInterleaving(l: Limits, s: State, op: Op)
    requires s.calls == map[] && op.Download?
    ensures Run(l, s, Schedule(op)) == Serial(l, s, op)
  {
    if op.readOk { RunThree(l, s, DownloadRead(0, op.id), Next(op.signOk), Next(op.countOk)); }
  }

  lemma ReviewIsInterleaving(l: Limits, s: State, op: Op)
    requires s.calls == map[] && (op.Approve? || op.Reject?)
    ensures Run(l, s, Schedule(op)) == Serial(l, s, op)
  {
    var read := if op.Approve? then ApproveRead(0, op.id) else RejectRead(0, op.id, op.reason);
    if op.readOk { TwoSteps(l, s, read, Next(op.writeOk)); }
  }

  /** An operation that nothing overlaps does what its steps do in the interleaved protocol. */
  lemma SerialIsInterleaving(l: Limits, s: State, op: Op)
    requires s.calls == map[]
    ensures Run(l, s, Schedule(op)) == Serial(l, s, op)
  {
    match op
    case Create(_, _, _, _, _, _, _) => CreateIsInterleaving(l, s, op);
    case Finalize(id, user, env) => FinalizeIsInterleaving(l, s, id, user, env);
    case Download(_, _, _, _) => DownloadIsInterleaving(l, s, op);
    case Approve(_, _, _) => ReviewIsInterleaving(l, s, op);
    case Reject(_, _, _, _) => ReviewIsInterleaving(l, s, op);
    case Put(_) =>
    case EditMetadata(_, _, _, _, _) =>
  }

  lemma SerialEndsItsCall(l: Limits, s: State, op: Op)
    requires s.calls == map[]
    ensures Serial(l, s, op).calls == map[]
  {
  }

  // ----- Whole runs -----

  function RunSerial(l: Limits, ops: seq<Op>): State
    decreases |ops|
  {
    if ops == [] then INITIAL
    else Serial(l, RunSerial(l, ops[..|ops| - 1]), ops[|ops| - 1])
  }

  function Schedules(ops: seq<Op>): seq<Step>
    decreases |ops|
  {
    if ops == [] then [] else Schedules(ops[..|ops| - 1]) + Schedule(ops[|ops| - 1])
  }

  /** A run of operations without overlap is a run of the interleaved protocol. */
  lemma {:induction false} SerialRunIsInterleaving(l: Limits, ops: seq<Op>)
    ensures RunSerial(l, ops) == Run(l, INITIAL, Schedules(ops))
    ensures RunSerial(l, ops).calls == map[]
    decreases |ops|
  {
    if ops != [] {
      var init := ops[..|ops| - 1];
      SerialRunIsInterleaving(l, init);
      SerialIsInterleaving(l, RunSerial(l, init), ops[|ops| - 1]);
      SerialEndsItsCall(l, RunSerial(l, init), ops[|ops| - 1]);
      RunConcat(l, INITIAL, Schedules(init), Schedule(ops[|ops| - 1]));
    }
  }

  /** The statuses that row `id` takes on over the run, without repetitions. */
  function Trail(l: Limits, ops: seq<Op>, id: Id): seq<Status>
    decreases |ops|
  {
    if ops == [] then []
    else
      var t := Trail(l, ops[..|ops| - 1], id);
      var now := CurrentStatus(RunSerial(l, ops), id);
      if now.None? || (t != [] && t[|t| - 1] == now.value) then t else t + [now.value]
  }

  /** The only way to each status. */
  function Path(status: Option<Status>): seq<Status> {
    match status
    case None => []
    case Some(Pending) => [Pending]
    case Some(PendingReview) => [Pending, PendingReview]
    case Some(Approved) => [Pending, PendingReview, Approved]
    case Some(Rejected) => [Pending, PendingReview, Rejected]
  }

  predicate Finalizes(l: Limits, s: State, op: Op, id: Id) {
    op.Finalize? && op.id == id && FinalizeSucceeds(l, s, id, op.user, op.env)
  }

  /** The operation reached the counter update of row `id`, and the update succeeded. */
  predicate Counts(s: State, op: Op, id: Id) {
    op.Download? && op.id == id && HasStatus(s, id, Approved) && op.readOk && op.signOk && op.countOk
  }

  function SuccessfulFinalizes(l: Limits, ops: seq<Op>, id: Id): nat
    decreases |ops|
  {
    if ops == [] then 0
    else
      SuccessfulFinalizes(l, ops[..|ops| - 1], id)
      + if Finalizes(l, RunSerial(l, ops[..|ops| - 1]), ops[|ops| - 1], id) then 1 else 0
  }

  function Increments(l: Limits, ops: seq<Op>, id: Id): nat
    decreases |ops|
  {
    if ops == [] then 0
    else
      Increments(l, ops[..|ops| - 1], id)
      + if Counts(RunSerial(l, ops[..|ops| - 1]), ops[|ops| - 1], id) then 1 else 0
  }

  /** One operation moves a row along one edge of the lifecycle or leaves its status alone. */
  lemma SerialStatusStep(l: Limits, s: State, op: Op, id: Id)
    ensures
      var was, now := CurrentStatus(s, id), CurrentStatus(Serial(l, s, op), id);
      LegalEdge(was, now) && (Finalizes(l, s, op, id) <==> was == Some(Pending) && now == Some(PendingReview))
  {
  }

  lemma SerialReasonStep(l: Limits, s: State, op: Op, id: Id)
    requires ReasonOk(s, id)
    ensures ReasonOk(Serial(l, s, op), id)
  {
  }

  /** Without overlap each row goes pending, pending_review, then approved or rejected, and
      nowhere else; Finalize succeeds once for a row that has left `pending` and never for one
      that has not; and a rejection reason is set exactly on rejected rows. */
  lemma {:induction false} SerialLifecycle(l: Limits, ops: seq<Op>, id: Id)
    ensures
      var s := RunSerial(l, ops);
      && Trail(l, ops, id) == Path(CurrentStatus(s, id))
      && SuccessfulFinalizes(l, ops, id) == (if LeftPending(s, id) then 1 else 0)
      && ReasonOk(s, id)
    decreases |ops|
  {
    if ops != [] {
      var init, op := ops[..|ops| - 1], ops[|ops| - 1];
      SerialLifecycle(l, init, id);
      SerialStatusStep(l, RunSerial(l, init), op, id);
      SerialReasonStep(l, RunSerial(l, init), op, id);
    }
  }

  lemma SerialCountStep(l: Limits, s: State, op: Op, id: Id)
    ensures
      var t := Serial(l, s, op);
      var was := if id in s.rows then s.rows[id].downloadCount else 0;
      var now := if id in t.rows then t.rows[id].downloadCount else 0;
      now == was + if Counts(s, op, id) then 1 else 0
  {
  }

  /** Every row's counter is the number of successful increments, each made while it was approved. */
  lemma {:induction false} DownloadsAreCounted(l: Limits, ops: seq<Op>, id: Id)
    ensures
      var s := RunSerial(l, ops);
      Increments(l, ops, id) == if id in s.rows then s.rows[id].downloadCount else 0
    decreases |ops|
  {
    if ops != [] {
      DownloadsAreCounted(l, ops[..|ops| - 1], id);
      SerialCountStep(l, RunSerial(l, ops[..|ops| - 1]), ops[|ops| - 1], id);
    }
  }
}
