/** The wallpaper lifecycle under arbitrary interleaving. Every database statement and every
    object-store call is one atomic step; what a handler has read so far lives in `calls`.
    A step whose guard does not hold changes nothing, so a run is any sequence of steps. */
module WallpaperProtocol {
  import opened Common
  import opened Wallpapers

  /** Where an in-flight handler stands: the next step it will take. */
  datatype Call =
    | SetKey(id: Id)
    | IssueUrl(id: Id)
    | Fetch(id: Id)
    | Probe(id: Id)
    | PutThumbnail(id: Id, info: ProbeInfo)
    | PutPreview(id: Id, info: ProbeInfo)
    | UpdateRow(id: Id, info: ProbeInfo)
    | WriteApproved(id: Id)
    | WriteRejected(id: Id, reason: string)
    | SignDownload(id: Id, key: Key)
    | CountDownload(id: Id)

  /** `signed` is the history of download URLs handed to callers or about to be. */
  datatype State = State(
    rows: map<Id, Row>,
    objects: set<Key>,
    issued: set<Key>,
    calls: map<nat, Call>,
    signed: set<(Id, Key)>)

  const INITIAL := State(map[], {}, {}, map[], {})

  datatype Step =
    | CreateInsert(c: nat, id: Id, uploader: Id, title: string, category: Option<string>)
    | Upload(key: Key)
    | FinalizeRead(c: nat, id: Id, user: Id)
    | ProbeReply(c: nat, reply: Option<ProbeInfo>)
    | ApproveRead(c: nat, id: Id)
    | RejectRead(c: nat, id: Id, reason: string)
    | DownloadRead(c: nat, id: Id)
    | Edit(id: Id, title: string, category: Option<string>, tags: seq<string>)
    // The call's next step succeeds, whichever it is.
    | Proceed(c: nat)
    // The call's next step fails: the handler returns an error and changes nothing more.
    | Abort(c: nat)

  function Begin(s: State, c: nat, call: Call): State { s.(calls := s.calls[c := call]) }

  function End(s: State, c: nat): State { s.(calls := s.calls - {c}) }

  function SetRow(s: State, id: Id, row: Row): State { s.(rows := s.rows[id := row]) }

  predicate HasStatus(s: State, id: Id, status: Status) {
    id in s.rows && s.rows[id].status == status
  }

  /** The effect of the pending step of call `c`. An UPDATE of a missing row touches no row. */
  function Advance(s: State, c: nat): State
    requires c in s.calls
  {
    match s.calls[c]
    case SetKey(id) =>
      var t := Begin(s, c, IssueUrl(id));
      if id in s.rows then SetRow(t, id, s.rows[id].(storageKey := Original(id))) else t
    case IssueUrl(id) => End(s, c).(issued := s.issued + {Original(id)})
    case Fetch(id) => if Original(id) in s.objects then Begin(s, c, Probe(id)) else End(s, c)
    case Probe(_) => s
    case PutThumbnail(id, info) =>
      Begin(s, c, PutPreview(id, info)).(objects := s.objects + {Thumbnail(id)})
    case PutPreview(id, info) =>
      Begin(s, c, UpdateRow(id, info)).(objects := s.objects + {Preview(id)})
    case UpdateRow(id, info) =>
      if id in s.rows then SetRow(End(s, c), id, FinalizedRow(s.rows[id], id, info)) else End(s, c)
    case WriteApproved(id) =>
      if id in s.rows then SetRow(End(s, c), id, s.rows[id].(status := Approved)) else End(s, c)
    case WriteRejected(id, reason) =>
      if id in s.rows
      then SetRow(End(s, c), id, s.rows[id].(status := Rejected, rejectionReason := Some(reason)))
      else End(s, c)
    case SignDownload(id, key) =>
      Begin(s, c, CountDownload(id)).(signed := s.signed + {(id, key)})
    case CountDownload(id) =>
      if id in s.rows
      then SetRow(End(s, c), id, s.rows[id].(downloadCount := s.rows[id].downloadCount + 1))
      else End(s, c)
  }

  /** One step: a handler's opening statement, a prober's reply, or the next step of a call. */
  function Apply(l: Limits, s: State, step: Step): State {
    match step
    case CreateInsert(c, id, uploader, title, category) =>
      if c in s.calls || id in s.rows then s
      else Begin(SetRow(s, id, NewRow(uploader, title, category)), c, SetKey(id))
    case Upload(key) => if key in s.issued then s.(objects := s.objects + {key}) else s
    case FinalizeRead(c, id, user) =>
      if c !in s.calls && HasStatus(s, id, Pending) && s.rows[id].uploader == user
      then Begin(s, c, Fetch(id)) else s
    case ProbeReply(c, reply) =>
      if c in s.calls && s.calls[c].Probe? then
        if reply.Some? && ValidateVideo(l, reply.value).None?
        then Begin(s, c, PutThumbnail(s.calls[c].id, reply.value)) else End(s, c)
      else s
    case ApproveRead(c, id) =>
      if c !in s.calls && HasStatus(s, id, PendingReview) then Begin(s, c, WriteApproved(id)) else s
    case RejectRead(c, id, reason) =>
      if c !in s.calls && HasStatus(s, id, PendingReview) then Begin(s, c, WriteRejected(id, reason)) else s
    case DownloadRead(c, id) =>
      if c !in s.calls && HasStatus(s, id, Approved)
      then Begin(s, c, SignDownload(id, s.rows[id].storageKey)) else s
    case Edit(id, title, category, tags) =>
      if id in s.rows then SetRow(s, id, EditedRow(s.rows[id], title, category, tags)) else s
    case Proceed(c) => if c in s.calls then Advance(s, c) else s
    case Abort(c) => if c in s.calls then End(s, c) else s
  }

  function Run(l: Limits, s: State, steps: seq<Step>): State
    decreases |steps|
  {
    if steps == [] then s else Run(l, Apply(l, s, steps[0]), steps[1..])
  }

  /** What the prober says in this step, and of which wallpaper. */
  function Report(s: State, step: Step): set<(Id, ProbeInfo)> {
    if step.ProbeReply? && step.reply.Some? && step.c in s.calls && s.calls[step.c].Probe?
    then {(s.calls[step.c].id, step.reply.value)} else {}
  }

  /** Everything the prober says in a run. */
  function Reports(l: Limits, s: State, steps: seq<Step>): set<(Id, ProbeInfo)>
    decreases |steps|
  {
    if steps == [] then {} else Report(s, steps[0]) + Reports(l, Apply(l, s, steps[0]), steps[1..])
  }

  // ----- The invariant -----

  predicate LeftPending(s: State, id: Id) { id in s.rows && s.rows[id].status != Pending }

  type Known = set<(Id, ProbeInfo)>

  predicate Probed(l: Limits, known: Known, id: Id, row: Row) {
    exists p | p in known :: p.0 == id && FromProbe(l, id, row, p.1)
  }

  /** A row past `pending` shows what the prober said of it, has both assets stored, and names the
      key that Finalize fetched. */
  predicate RowOk(l: Limits, known: Known, s: State, id: Id)
    requires id in s.rows
  {
    LeftPending(s, id) ==>
      && Probed(l, known, id, s.rows[id])
      && Thumbnail(id) in s.objects && Preview(id) in s.objects
      && s.rows[id].storageKey == Original(id) && Original(id) in s.objects
  }

  predicate KeyAssigned(s: State, id: Id) {
    id in s.rows && s.rows[id].storageKey == Original(id)
  }

  predicate IssuedOk(s: State, k: Key) { k.Original? && KeyAssigned(s, k.id) }

  predicate ObjectOk(s: State, k: Key) { k.Original? ==> k in s.issued }

  predicate InfoOk(l: Limits, known: Known, id: Id, info: ProbeInfo) {
    (id, info) in known && ValidateVideo(l, info).None?
  }

  predicate CallOk(l: Limits, known: Known, s: State, call: Call) {
    && call.id in s.rows
    && match call
       case SetKey(_) => true
       case IssueUrl(id) => KeyAssigned(s, id)
       case Fetch(_) => true
       case Probe(id) => Original(id) in s.objects
       case PutThumbnail(id, info) => Original(id) in s.objects && InfoOk(l, known, id, info)
       case PutPreview(id, info) =>
         Original(id) in s.objects && InfoOk(l, known, id, info) && Thumbnail(id) in s.objects
       case UpdateRow(id, info) =>
         && Original(id) in s.objects && InfoOk(l, known, id, info)
         && Thumbnail(id) in s.objects && Preview(id) in s.objects
       case WriteApproved(id) => LeftPending(s, id)
       case WriteRejected(id, _) => LeftPending(s, id)
       case SignDownload(id, key) => LeftPending(s, id) && key == Original(id)
       case CountDownload(id) => LeftPending(s, id)
  }

  predicate SignedOk(s: State, p: (Id, Key)) {
    LeftPending(s, p.0) && p.1 == Original(p.0) && p.1 in s.objects
  }

  predicate Inv(l: Limits, known: Known, s: State) {
    && (forall id | id in s.rows :: RowOk(l, known, s, id))
    && (forall k | k in s.issued :: IssuedOk(s, k))
    && (forall k | k in s.objects :: ObjectOk(s, k))
    && (forall c | c in s.calls :: CallOk(l, known, s, s.calls[c]))
    && (forall p | p in s.signed :: SignedOk(s, p))
  }

  /** What no step ever takes back. */
  ghost predicate Grows(s: State, t: State) {
    && (forall id | id in s.rows :: id in t.rows)
    && (forall id | KeyAssigned(s, id) :: KeyAssigned(t, id))
    && (forall id | LeftPending(s, id) :: LeftPending(t, id))
    && s.objects <= t.objects && s.issued <= t.issued && s.signed <= t.signed
  }

  lemma AdvanceKeepsRow(s: State, c: nat, id: Id)
    requires c in s.calls && id in s.rows
    ensures id in Advance(s, c).rows
    ensures KeyAssigned(s, id) ==> KeyAssigned(Advance(s, c), id)
    ensures LeftPending(s, id) ==> LeftPending(Advance(s, c), id)
  {
  }

  lemma AdvanceGrows(s: State, c: nat)
    requires c in s.calls
    ensures Grows(s, Advance(s, c))
  {
    forall id | id in s.rows
      ensures id in Advance(s, c).rows
      ensures KeyAssigned(s, id) ==> KeyAssigned(Advance(s, c), id)
      ensures LeftPending(s, id) ==> LeftPending(Advance(s, c), id)
    {
      AdvanceKeepsRow(s, c, id);
    }
  }

  lemma ApplyGrows(l: Limits, s: State, step: Step)
    ensures Grows(s, Apply(l, s, step))
  {
    if step.Proceed? && step.c in s.calls { AdvanceGrows(s, step.c); }
  }

  lemma CallStaysOk(l: Limits, known: Known, now: Known, s: State, t: State, call: Call)
    requires known <= now && Grows(s, t) && CallOk(l, known, s, call)
    ensures CallOk(l, now, t, call)
  {
  }

  /** A row made from an accepted probe is in order exactly when the probed dimensions fit an INT
      column: otherwise the resolution text names other dimensions than the columns hold. */
  lemma ProbedRowMeetsLimitsExactly(l: Limits, row: Row, id: Id, info: ProbeInfo)
    requires FromProbe(l, id, row, info)
    ensures MeetsLimits(l, id, row) <==> DimensionsFit(info)
  {
    Int32Exact(info.width);
    Int32Exact(info.height);
    if MeetsLimits(l, id, row) {
      ResolutionTextInjective(info.width, info.height, row.width, row.height);
    }
  }

  /** The UPDATE that ends Finalize produces a row that is in order: the object it fetched got
      there through an issued URL, and no URL is issued before the key is set. */
  lemma UpdateRowOk(l: Limits, known: Known, s: State, c: nat, id: Id)
    requires Inv(l, known, s) && c in s.calls && s.calls[c].UpdateRow? && s.calls[c].id == id
    ensures id in Advance(s, c).rows && RowOk(l, known, Advance(s, c), id)
  {
    var info := s.calls[c].info;
    assert CallOk(l, known, s, s.calls[c]);
    assert ObjectOk(s, Original(id));
    assert IssuedOk(s, Original(id));
    assert (id, info) in known && FromProbe(l, id, Advance(s, c).rows[id], info);
  }

  /** Neither the media columns nor the keys of the row have changed for the worse. */
  predicate SameMedia(a: Row, b: Row, id: Id) {
    && a.fileSize == b.fileSize && a.duration == b.duration && a.format == b.format
    && a.width == b.width && a.height == b.height && a.resolution == b.resolution
    && a.thumbnailKey == b.thumbnailKey && a.previewKey == b.previewKey
    && (a.storageKey == Original(id) ==> b.storageKey == Original(id))
  }

  lemma AdvanceKeepsMedia(l: Limits, known: Known, s: State, c: nat, id: Id)
    requires c in s.calls && CallOk(l, known, s, s.calls[c])
    requires !(s.calls[c].UpdateRow? && s.calls[c].id == id)
    requires LeftPending(Advance(s, c), id)
    ensures LeftPending(s, id) && SameMedia(s.rows[id], Advance(s, c).rows[id], id)
  {
  }

  /** Any other step that touches a row leaves its media alone, and does not take it out of
      `pending`. */
  lemma OtherStepsKeepMedia(l: Limits, known: Known, s: State, step: Step, id: Id)
    requires Inv(l, known, s)
    requires !(step.Proceed? && step.c in s.calls && s.calls[step.c].UpdateRow? && s.calls[step.c].id == id)
    requires LeftPending(Apply(l, s, step), id)
    ensures LeftPending(s, id) && SameMedia(s.rows[id], Apply(l, s, step).rows[id], id)
  {
    if step.Proceed? {
      if step.c in s.calls {
        assert CallOk(l, known, s, s.calls[step.c]);
        AdvanceKeepsMedia(l, known, s, step.c, id);
      }
    }
  }

  lemma RowStaysOk(l: Limits, known: Known, now: Known, s: State, step: Step, id: Id)
    requires known <= now && Inv(l, known, s) && LeftPending(Apply(l, s, step), id)
    ensures RowOk(l, now, Apply(l, s, step), id)
  {
    if step.Proceed? && step.c in s.calls && s.calls[step.c].UpdateRow? && s.calls[step.c].id == id {
      UpdateRowOk(l, known, s, step.c, id);
    } else {
      OtherStepsKeepMedia(l, known, s, step, id);
      ApplyGrows(l, s, step);
      assert RowOk(l, known, s, id);
    }
  }

  lemma IssuedStaysOk(l: Limits, known: Known, s: State, step: Step, k: Key)
    requires Inv(l, known, s) && k in Apply(l, s, step).issued
    ensures IssuedOk(Apply(l, s, step), k)
  {
    ApplyGrows(l, s, step);
    if k in s.issued {
      assert IssuedOk(s, k);
    } else {
      assert CallOk(l, known, s, s.calls[step.c]);
    }
  }

  /** A call that has just taken its next step stands where its evidence allows. */
  lemma AdvancedCallOk(l: Limits, known: Known, s: State, c: nat)
    requires c in s.calls && CallOk(l, known, s, s.calls[c])
    ensures c in Advance(s, c).calls ==> CallOk(l, known, Advance(s, c), Advance(s, c).calls[c])
  {
  }

  lemma NewCallOk(l: Limits, known: Known, s: State, step: Step, c: nat)
    requires Inv(l, known, s) && c !in s.calls && c in Apply(l, s, step).calls
    ensures CallOk(l, known, Apply(l, s, step), Apply(l, s, step).calls[c])
  {
    if step.DownloadRead? { assert RowOk(l, known, s, step.id); }
  }

  /** A call that another step has changed was waiting for the prober's reply. */
  lemma ProbedCallOk(l: Limits, known: Known, s: State, step: Step, c: nat)
    requires c in s.calls && CallOk(l, known, s, s.calls[c]) && step != Proceed(c)
    requires c in Apply(l, s, step).calls && Apply(l, s, step).calls[c] != s.calls[c]
    ensures CallOk(l, known + Report(s, step), Apply(l, s, step), Apply(l, s, step).calls[c])
  {
  }

  lemma CallAfterStepOk(l: Limits, known: Known, s: State, step: Step, c: nat)
    requires Inv(l, known, s) && c in Apply(l, s, step).calls
    ensures CallOk(l, known + Report(s, step), Apply(l, s, step), Apply(l, s, step).calls[c])
  {
    var t := Apply(l, s, step);
    if c !in s.calls {
      NewCallOk(l, known, s, step, c);
    } else {
      assert CallOk(l, known, s, s.calls[c]);
      if step == Proceed(c) {
        AdvancedCallOk(l, known, s, c);
      } else if t.calls[c] != s.calls[c] {
        ProbedCallOk(l, known, s, step, c);
      } else {
        ApplyGrows(l, s, step);
        CallStaysOk(l, known, known + Report(s, step), s, t, s.calls[c]);
      }
    }
  }

  lemma ObjectStaysOk(l: Limits, known: Known, s: State, step: Step, k: Key)
    requires Inv(l, known, s) && k in Apply(l, s, step).objects
    ensures ObjectOk(Apply(l, s, step), k)
  {
    ApplyGrows(l, s, step);
    if k in s.objects { assert ObjectOk(s, k); }
  }

  lemma SignedStaysOk(l: Limits, known: Known, s: State, step: Step, p: (Id, Key))
    requires Inv(l, known, s) && p in Apply(l, s, step).signed
    ensures SignedOk(Apply(l, s, step), p)
  {
    ApplyGrows(l, s, step);
    if p in s.signed {
      assert SignedOk(s, p);
    } else {
      assert CallOk(l, known, s, s.calls[step.c]);
      assert RowOk(l, known, s, p.0);
    }
  }

  /** Every step keeps the invariant, whatever else is in flight and whatever the prober says. */
  lemma ApplyKeepsInv(l: Limits, known: Known, s: State, step: Step)
    requires Inv(l, known, s)
    ensures Inv(l, known + Report(s, step), Apply(l, s, step))
  {
    var t, now := Apply(l, s, step), known + Report(s, step);
    forall id | id in t.rows ensures RowOk(l, now, t, id) {
      if LeftPending(t, id) { RowStaysOk(l, known, now, s, step, id); }
    }
    forall k | k in t.issued ensures IssuedOk(t, k) { IssuedStaysOk(l, known, s, step, k); }
    forall k | k in t.objects ensures ObjectOk(t, k) { ObjectStaysOk(l, known, s, step, k); }
    forall c | c in t.calls ensures CallOk(l, now, t, t.calls[c]) { CallAfterStepOk(l, known, s, step, c); }
    forall p | p in t.signed ensures SignedOk(t, p) { SignedStaysOk(l, known, s, step, p); }
  }

  lemma {:induction false} RunKeepsInv(l: Limits, known: Known, s: State, steps: seq<Step>)
    requires Inv(l, known, s)
    ensures Inv(l, known + Reports(l, s, steps), Run(l, s, steps))
    decreases |steps|
  {
    if steps == [] {
      assert known + Reports(l, s, steps) == known;
    } else {
      var t, now := Apply(l, s, steps[0]), known + Report(s, steps[0]);
      ApplyKeepsInv(l, known, s, steps[0]);
      RunKeepsInv(l, now, t, steps[1..]);
      assert now + Reports(l, t, steps[1..]) == known + Reports(l, s, steps);
    }
  }

  lemma {:induction false} RunGrows(l: Limits, s: State, steps: seq<Step>)
    ensures Grows(s, Run(l, s, steps))
    decreases |steps|
  {
    if steps != [] {
      ApplyGrows(l, s, steps[0]);
      RunGrows(l, Apply(l, s, steps[0]), steps[1..]);
    }
  }

  // ----- Main results -----

  lemma {:induction false} RunConcat(l: Limits, s: State, a: seq<Step>, b: seq<Step>)
    ensures Run(l, s, a + b) == Run(l, Run(l, s, a), b)
    decreases |a|
  {
    if a == [] {
      assert a + b == b;
    } else {
      assert (a + b)[1..] == a[1..] + b;
      RunConcat(l, Apply(l, s, a[0]), a[1..], b);
    }
  }

  lemma RunFromEmptyKeepsInv(l: Limits, steps: seq<Step>)
    ensures Inv(l, Reports(l, INITIAL, steps), Run(l, INITIAL, steps))
  {
    RunKeepsInv(l, {}, INITIAL, steps);
    assert {} + Reports(l, INITIAL, steps) == Reports(l, INITIAL, steps);
  }

  /** From an empty database, under every interleaving and for every prober: a row that has left
      `pending` shows what the prober said of that wallpaper in a reply that passed the checks, owns
      stored assets under keys derived from its id, names the very object that Finalize fetched, and
      no continuation of the run takes any of that back. */
  lemma PublishedRowsAreValid(l: Limits, before: seq<Step>, after: seq<Step>, id: Id)
    requires LeftPending(Run(l, INITIAL, before), id)
    ensures
      var s := Run(l, INITIAL, before + after);
      && LeftPending(s, id)
      && Probed(l, Reports(l, INITIAL, before + after), id, s.rows[id])
      && {Thumbnail(id), Preview(id), Original(id)} <= s.objects
      && s.rows[id].storageKey == Original(id)
  {
    RunConcat(l, INITIAL, before, after);
    RunGrows(l, Run(l, INITIAL, before), after);
    RunFromEmptyKeepsInv(l, before + after);
    assert RowOk(l, Reports(l, INITIAL, before + after), Run(l, INITIAL, before + after), id);
  }

  /** In every run, a row that has left `pending` meets every limit exactly when the dimensions
      that its resolution text names fit an INT column; those are the dimensions that the prober
      reported. The limits on size, duration and codec, and the asset keys, hold in any case. */
  lemma PublishedRowsMeetLimitsExactly(l: Limits, steps: seq<Step>, id: Id, info: ProbeInfo)
    requires LeftPending(Run(l, INITIAL, steps), id)
    requires Run(l, INITIAL, steps).rows[id].resolution == ResolutionText(info.width, info.height)
    ensures
      var row := Run(l, INITIAL, steps).rows[id];
      && row.fileSize <= l.maxFileSize && row.duration <= l.maxDuration && row.format in {"h264", "h265"}
      && row.thumbnailKey == Some(Thumbnail(id)) && row.previewKey == Some(Preview(id))
      && (MeetsLimits(l, id, row) <==> DimensionsFit(info))
  {
    var s := Run(l, INITIAL, steps);
    RunFromEmptyKeepsInv(l, steps);
    assert RowOk(l, Reports(l, INITIAL, steps), s, id);
    var p :| p in Reports(l, INITIAL, steps) && p.0 == id && FromProbe(l, id, s.rows[id], p.1);
    ResolutionTextInjective(info.width, info.height, p.1.width, p.1.height);
    ProbedRowMeetsLimitsExactly(l, s.rows[id], id, p.1);
  }

  /** Every download URL ever signed names the original object of the requested wallpaper, that
      object is stored, and it got there through an upload URL issued for that key. */
  lemma SignedDownloadsHaveProvenance(l: Limits, steps: seq<Step>, id: Id, key: Key)
    requires (id, key) in Run(l, INITIAL, steps).signed
    ensures
      var s := Run(l, INITIAL, steps);
      && key == Original(id) && key in s.objects && key in s.issued
      && s.rows.Keys >= {id} && s.rows[id].storageKey == key
  {
    var s := Run(l, INITIAL, steps);
    RunFromEmptyKeepsInv(l, steps);
    assert SignedOk(s, (id, key));
    assert ObjectOk(s, key);
    assert RowOk(l, Reports(l, INITIAL, steps), s, id);
  }

  /** Without that bound a row can leave `pending` below the minimum height. */
  lemma HugeHeightSlipsThrough(l: Limits, row: Row, id: Id, info: ProbeInfo)
    requires 0 < l.minHeight <= 0x1_0000_0000 == info.height
    requires ValidateVideo(l, info).None?
    ensures FinalizedRow(row, id, info).height == 0 < l.minHeight
    ensures !MeetsLimits(l, id, FinalizedRow(row, id, info))
  {
  }

  // ----- What interleaving does break -----

  /** The steps of a Finalize call after its opening read, all succeeding. */
  function FinalizeSteps(c: nat, info: ProbeInfo): seq<Step> {
    [Proceed(c), ProbeReply(c, Some(info)), Proceed(c), Proceed(c), Proceed(c)]
  }

  function AfterFinalize(s: State, c: nat, id: Id, info: ProbeInfo): State
    requires id in s.rows
  {
    SetRow(End(s, c), id, FinalizedRow(s.rows[id], id, info))
      .(objects := s.objects + {Thumbnail(id), Preview(id)})
  }

  lemma FinalizeStepsEffect(l: Limits, s: State, c: nat, id: Id, info: ProbeInfo)
    requires c in s.calls && s.calls[c] == Fetch(id)
    requires id in s.rows && Original(id) in s.objects && ValidateVideo(l, info).None?
    ensures Run(l, s, FinalizeSteps(c, info)) == AfterFinalize(s, c, id, info)
  {
    var p, reply := Proceed(c), ProbeReply(c, Some(info));
    var s2 := Begin(s, c, PutThumbnail(id, info));
    assert Run(l, s, [p, reply]) == s2 by { TwoSteps(l, s, p, reply); }
    var s4 := Begin(s, c, UpdateRow(id, info)).(objects := s.objects + {Thumbnail(id), Preview(id)});
    assert Run(l, s2, [p, p]) == s4 by {
      TwoSteps(l, s2, p, p);
      assert s.objects + {Thumbnail(id)} + {Preview(id)} == s4.objects;
    }
    assert Apply(l, s4, p).calls == s.calls - {c};
    assert Run(l, s4, [p]) == Apply(l, s4, p);
    RunConcat(l, s2, [p, p], [p]);
    RunConcat(l, s, [p, reply], [p, p, p]);
    assert [p, p] + [p] == [p, p, p];
    assert [p, reply] + [p, p, p] == FinalizeSteps(c, info);
  }

  lemma TwoSteps(l: Limits, s: State, a: Step, b: Step)
    ensures Run(l, s, [a, b]) == Apply(l, Apply(l, s, a), b)
  {
    assert [a, b][1..] == [b];
    assert Run(l, Apply(l, s, a), [b]) == Apply(l, Apply(l, s, a), b);
  }

  lemma FinalizeThenApprove(l: Limits, s: State, a: nat, c: nat, id: Id, info: ProbeInfo)
    requires a in s.calls && s.calls[a] == Fetch(id) && c !in s.calls
    requires id in s.rows && Original(id) in s.objects && ValidateVideo(l, info).None?
    ensures
      var t := Run(l, s, FinalizeSteps(a, info) + [ApproveRead(c, id), Proceed(c)]);
      HasStatus(t, id, Approved) && t.calls == s.calls - {a} && s.objects <= t.objects
  {
    FinalizeStepsEffect(l, s, a, id, info);
    RunConcat(l, s, FinalizeSteps(a, info), [ApproveRead(c, id), Proceed(c)]);
    TwoSteps(l, AfterFinalize(s, a, id, info), ApproveRead(c, id), Proceed(c));
  }

  /** Two Finalize calls that both read the row before either wrote it: the slower one takes an
      approved row back to review. */
  lemma SlowFinalizeUndoesApproval(l: Limits, s: State, id: Id, info: ProbeInfo, a: nat, b: nat, c: nat)
    requires HasStatus(s, id, Pending) && Original(id) in s.objects && ValidateVideo(l, info).None?
    requires a !in s.calls && b !in s.calls && c !in s.calls && a != b && b != c && a != c
    ensures
      var user := s.rows[id].uploader;
      var opening := [FinalizeRead(a, id, user), FinalizeRead(b, id, user)];
      var approving := FinalizeSteps(a, info) + [ApproveRead(c, id), Proceed(c)];
      && HasStatus(Run(l, s, opening + approving), id, Approved)
      && HasStatus(Run(l, s, opening + approving + FinalizeSteps(b, info)), id, PendingReview)
  {
    var user := s.rows[id].uploader;
    var opening := [FinalizeRead(a, id, user), FinalizeRead(b, id, user)];
    var approving := FinalizeSteps(a, info) + [ApproveRead(c, id), Proceed(c)];
    TwoSteps(l, s, opening[0], opening[1]);
    var s1 := Run(l, s, opening);
    assert s1 == Begin(Begin(s, a, Fetch(id)), b, Fetch(id));
    FinalizeThenApprove(l, s1, a, c, id, info);
    RunConcat(l, s, opening, approving);
    var s2 := Run(l, s1, approving);
    FinalizeStepsEffect(l, s2, b, id, info);
    RunConcat(l, s, opening + approving, FinalizeSteps(b, info));
  }

  /** Approve and Reject that both read before either writes: the row ends approved and yet
      carries a rejection reason. */
  lemma ApproveRejectRace(l: Limits, s: State, id: Id, reason: string, a: nat, b: nat)
    requires HasStatus(s, id, PendingReview) && a !in s.calls && b !in s.calls && a != b
    ensures
      var t := Run(l, s, [ApproveRead(a, id), RejectRead(b, id, reason)] + [Proceed(b), Proceed(a)]);
      HasStatus(t, id, Approved) && t.rows[id].rejectionReason == Some(reason)
  {
    var opening := [ApproveRead(a, id), RejectRead(b, id, reason)];
    TwoSteps(l, s, opening[0], opening[1]);
    RunConcat(l, s, opening, [Proceed(b), Proceed(a)]);
    TwoSteps(l, Run(l, s, opening), Proceed(b), Proceed(a));
  }

  /** A row is created, its key set, an upload URL issued, and the video uploaded. */
  function UploadSteps(id: Id, user: Id): seq<Step> {
    [CreateInsert(0, id, user, "", None), Proceed(0)] + [Proceed(0), Upload(Original(id))]
  }

  function Uploaded(id: Id, user: Id): State {
    INITIAL.(rows := map[id := NewRow(user, "", None).(storageKey := Original(id))],
    objects := {Original(id)}, issued := {Original(id)})
  }

  lemma UploadFromScratch(l: Limits, id: Id, user: Id)
    ensures Run(l, INITIAL, UploadSteps(id, user)) == Uploaded(id, user)
  {
    var create, next, upload := CreateInsert(0, id, user, "", None), Proceed(0), Upload(Original(id));
    var s1 := Begin(SetRow(INITIAL, id, NewRow(user, "", None)), 0, SetKey(id));
    assert Apply(l, INITIAL, create) == s1;
    var s2 := Begin(SetRow(INITIAL, id, NewRow(user, "", None).(storageKey := Original(id))), 0, IssueUrl(id));
    assert Apply(l, s1, next) == s2;
    assert s2.calls - {0} == map[];
    TwoSteps(l, INITIAL, create, next);
    TwoSteps(l, s2, next, upload);
    RunConcat(l, INITIAL, [create, next], [next, upload]);
  }

  /** Both races happen from an empty database, to every wallpaper with a valid video. */
  lemma RacesAreReachable(l: Limits, id: Id, user: Id, info: ProbeInfo, reason: string)
    requires ValidateVideo(l, info).None?
    ensures
      var steps := [FinalizeRead(0, id, user), FinalizeRead(1, id, user)]
        + (FinalizeSteps(0, info) + [ApproveRead(2, id), Proceed(2)]);
      && HasStatus(Run(l, INITIAL, UploadSteps(id, user) + steps), id, Approved)
      && HasStatus(Run(l, INITIAL, UploadSteps(id, user) + (steps + FinalizeSteps(1, info))), id, PendingReview)
    ensures
      var race := [ApproveRead(0, id), RejectRead(1, id, reason)] + [Proceed(1), Proceed(0)];
      var t := Run(l, INITIAL, UploadSteps(id, user) + ([FinalizeRead(0, id, user)] + FinalizeSteps(0, info) + race));
      HasStatus(t, id, Approved) && t.rows[id].rejectionReason == Some(reason)
  {
    var s := Uploaded(id, user);
    UploadFromScratch(l, id, user);
    SlowFinalizeUndoesApproval(l, s, id, info, 0, 1, 2);
    var steps := [FinalizeRead(0, id, user), FinalizeRead(1, id, user)]
      + (FinalizeSteps(0, info) + [ApproveRead(2, id), Proceed(2)]);
    RunConcat(l, INITIAL, UploadSteps(id, user), steps);
    RunConcat(l, INITIAL, UploadSteps(id, user), steps + FinalizeSteps(1, info));
    RaceFromScratch(l, id, user, info, reason);
  }

  lemma RaceFromScratch(l: Limits, id: Id, user: Id, info: ProbeInfo, reason: string)
    requires ValidateVideo(l, info).None?
    ensures
      var race := [ApproveRead(0, id), RejectRead(1, id, reason)] + [Proceed(1), Proceed(0)];
      var t := Run(l, INITIAL, UploadSteps(id, user) + ([FinalizeRead(0, id, user)] + FinalizeSteps(0, info) + race));
      HasStatus(t, id, Approved) && t.rows[id].rejectionReason == Some(reason)
  {
    var s, read := Uploaded(id, user), [FinalizeRead(0, id, user)];
    var race := [ApproveRead(0, id), RejectRead(1, id, reason)] + [Proceed(1), Proceed(0)];
    UploadFromScratch(l, id, user);
    assert Run(l, s, read) == Begin(s, 0, Fetch(id));
    FinalizeStepsEffect(l, Run(l, s, read), 0, id, info);
    RunConcat(l, s, read, FinalizeSteps(0, info));
    ApproveRejectRace(l, Run(l, s, read + FinalizeSteps(0, info)), id, reason, 0, 1);
    RunConcat(l, s, read + FinalizeSteps(0, info), race);
    RunConcat(l, INITIAL, UploadSteps(id, user), read + FinalizeSteps(0, info) + race);
  }

  // ----- What restores the lifecycle -----

  function CurrentStatus(s: State, id: Id): Option<Status> {
    if id in s.rows then Some(s.rows[id].status) else None
  }

  /** One edge of the lifecycle, or no move at all. */
  predicate LegalEdge(was: Option<Status>, now: Option<Status>) {
    || now == was
    || (was == None && now == Some(Pending))
    || (was == Some(Pending) && now == Some(PendingReview))
    || (was == Some(PendingReview) && now in {Some(Approved), Some(Rejected)})
  }

  predicate ReasonOk(s: State, id: Id) {
    id in s.rows ==> (s.rows[id].rejectionReason.Some? <==> s.rows[id].status == Rejected)
  }

  /** The status that a call in flight has read and will overwrite, if it writes one. */
  function Expects(call: Call): Option<Status> {
    match call
    case Fetch(_) => Some(Pending)
    case Probe(_) => Some(Pending)
    case PutThumbnail(_, _) => Some(Pending)
    case PutPreview(_, _) => Some(Pending)
    case UpdateRow(_, _) => Some(Pending)
    case WriteApproved(_) => Some(PendingReview)
    case WriteRejected(_, _) => Some(PendingReview)
    case _ => None
  }

  /** No two calls that will write a status are in flight for one row. */
  predicate Exclusive(s: State) {
    forall c, d | c in s.calls && d in s.calls && c != d ::
      Expects(s.calls[c]).Some? && Expects(s.calls[d]).Some? ==> s.calls[c].id != s.calls[d].id
  }

  predicate UpToDate(s: State, call: Call) {
    Expects(call).Some? ==> CurrentStatus(s, call.id) == Expects(call)
  }

  predicate AllUpToDate(s: State) { forall c | c in s.calls :: UpToDate(s, s.calls[c]) }

  /** The status that the call writes next, if its next step writes one. */
  function Writes(call: Call): Option<Status> {
    match call
    case UpdateRow(_, _) => Some(PendingReview)
    case WriteApproved(_) => Some(Approved)
    case WriteRejected(_, _) => Some(Rejected)
    case _ => None
  }

  /** A status write keeps to the lifecycle, reason included, exactly when the row still has the
      status that the call read, or already has the one it writes. */
  lemma StatusWriteIsLegalExactly(s: State, c: nat)
    requires c in s.calls && s.calls[c].id in s.rows && ReasonOk(s, s.calls[c].id)
    requires Writes(s.calls[c]).Some?
    ensures
      var call, t := s.calls[c], Advance(s, c);
      var was := CurrentStatus(s, call.id);
      LegalEdge(was, CurrentStatus(t, call.id)) && ReasonOk(t, call.id)
      <==> was == Expects(call) || was == Writes(call)
  {
  }

  predicate LegalThroughout(l: Limits, s: State, steps: seq<Step>, id: Id)
    decreases |steps|
  {
    steps != [] ==>
      var t := Apply(l, s, steps[0]);
      && LegalEdge(CurrentStatus(s, id), CurrentStatus(t, id))
      && ReasonOk(t, id)
      && LegalThroughout(l, t, steps[1..], id)
  }

  /** A step that writes the status of row `id` finds the status that its call read, or the one
      that it writes. */
  predicate WriteIsTimely(s: State, step: Step, id: Id) {
    step.Proceed? && step.c in s.calls && id in s.rows ==>
      var call := s.calls[step.c];
      call.id == id && Writes(call).Some? ==>
        CurrentStatus(s, id) == Expects(call) || CurrentStatus(s, id) == Writes(call)
  }

  predicate WritesAreTimely(l: Limits, s: State, steps: seq<Step>, id: Id)
    decreases |steps|
  {
    steps != [] ==> WriteIsTimely(s, steps[0], id) && WritesAreTimely(l, Apply(l, s, steps[0]), steps[1..], id)
  }

  lemma StepIsLegalExactly(l: Limits, s: State, step: Step, id: Id)
    requires ReasonOk(s, id)
    ensures
      var t := Apply(l, s, step);
      LegalEdge(CurrentStatus(s, id), CurrentStatus(t, id)) && ReasonOk(t, id) <==> WriteIsTimely(s, step, id)
  {
    if step.Proceed? && step.c in s.calls && id in s.rows && s.calls[step.c].id == id && Writes(s.calls[step.c]).Some? {
      StatusWriteIsLegalExactly(s, step.c);
    }
  }

  /** A run keeps to the lifecycle on a row, the reason rule included, if and only if every write of
      that row's status in the run finds the status that its call read, or the one it writes. */
  lemma {:induction false} RunIsLegalExactly(l: Limits, s: State, steps: seq<Step>, id: Id)
    requires ReasonOk(s, id)
    ensures LegalThroughout(l, s, steps, id) <==> WritesAreTimely(l, s, steps, id)
    decreases |steps|
  {
    if steps != [] {
      StepIsLegalExactly(l, s, steps[0], id);
      if WriteIsTimely(s, steps[0], id) { RunIsLegalExactly(l, Apply(l, s, steps[0]), steps[1..], id); }
    }
  }

  predicate ExclusiveThroughout(l: Limits, s: State, steps: seq<Step>)
    decreases |steps|
  {
    Exclusive(s) && (steps != [] ==> ExclusiveThroughout(l, Apply(l, s, steps[0]), steps[1..]))
  }

  /** A step that changes a row's status belongs to the one call that may write it. */
  lemma StatusChangeHasWriter(l: Limits, s: State, step: Step, id: Id)
    requires id in s.rows
    ensures CurrentStatus(s, id) == CurrentStatus(Apply(l, s, step), id)
         || (step.Proceed? && step.c in s.calls && s.calls[step.c].id == id
             && Expects(s.calls[step.c]).Some? && step.c !in Apply(l, s, step).calls)
  {
  }

  lemma CallsStayUpToDate(l: Limits, s: State, step: Step, c: nat)
    requires AllUpToDate(s) && Exclusive(s) && c in Apply(l, s, step).calls
    ensures UpToDate(Apply(l, s, step), Apply(l, s, step).calls[c])
  {
    if c in s.calls {
      assert UpToDate(s, s.calls[c]);
      if s.calls[c].id in s.rows { StatusChangeHasWriter(l, s, step, s.calls[c].id); }
    }
  }

  lemma {:induction false} ExclusiveWritesAreTimely(l: Limits, s: State, steps: seq<Step>, id: Id)
    requires AllUpToDate(s) && ExclusiveThroughout(l, s, steps)
    ensures WritesAreTimely(l, s, steps, id)
    decreases |steps|
  {
    if steps != [] {
      var t := Apply(l, s, steps[0]);
      assert WriteIsTimely(s, steps[0], id) by {
        if steps[0].Proceed? && steps[0].c in s.calls { assert UpToDate(s, s.calls[steps[0].c]); }
      }
      forall c | c in t.calls ensures UpToDate(t, t.calls[c]) { CallsStayUpToDate(l, s, steps[0], c); }
      ExclusiveWritesAreTimely(l, t, steps[1..], id);
    }
  }

  /** The races need two status writers on one row: in every run where no row ever has two of them
      in flight, whatever else overlaps, each step moves each row along the lifecycle and a reason is
      set exactly on rejected rows. */
  lemma OneWriterPerRowSuffices(l: Limits, s: State, steps: seq<Step>, id: Id)
    requires AllUpToDate(s) && ReasonOk(s, id) && ExclusiveThroughout(l, s, steps)
    ensures LegalThroughout(l, s, steps, id)
  {
    ExclusiveWritesAreTimely(l, s, steps, id);
    RunIsLegalExactly(l, s, steps, id);
  }
}
