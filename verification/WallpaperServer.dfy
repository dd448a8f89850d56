/** The wallpaper service and handlers as one object: each method makes its database, store and
    temp-file calls in the order of the source, with the outcome of every foreign call passed in. */
module WallpaperServer {
  import opened Common
  import opened Wallpapers
  import opened WallpaperProtocol

  type Bytes = seq<bv8>

  const MAX_INT64 := 0x7fff_ffff_ffff_ffff

  // ----- Outcomes of foreign calls -----

  /** An ffmpeg run: it made its file, or failed, perhaps after writing part of it. */
  datatype Generated = Made(content: Bytes) | Failed(partial: Option<Bytes>)

  /** A file in the temp directory: the clip under the name that CreateTemp chose, and the two
      files whose names extend it with "_thumb.jpg" and "_preview.mp4". */
  datatype TempFile = Clip(name: string) | ClipThumb(name: string) | ClipPreview(name: string)

  /** The first flag is the database's answer to the read of the row. */
  datatype FinalizeEnv = FinalizeEnv(
    readOk: bool,
    getOk: bool,
    tempName: Option<string>,
    copyOk: bool,
    probe: Option<ProbeInfo>,
    thumbnail: Generated,
    preview: Generated,
    openThumbnailOk: bool,
    putThumbnailOk: bool,
    openPreviewOk: bool,
    putPreviewOk: bool,
    updateOk: bool)
  {
    predicate CopyMade() { getOk && tempName.Some? && copyOk }

    predicate ThumbnailStored() { thumbnail.Made? && preview.Made? && openThumbnailOk && putThumbnailOk }

    predicate PreviewStored() { ThumbnailStored() && openPreviewOk && putPreviewOk }
  }

  datatype ServiceError =
    | NotFound | Forbidden | WrongStatus | BadTitle | BadCategory | ProbeFailed | Internal
    | Invalid(reason: VideoError)

  datatype Reply<+T> = Ok(value: T) | Err(error: ServiceError)

  // ----- The bounded copy -----

  /** What io.Copy from a LimitReader of `maxFileSize + 1` bytes leaves in the temp file; the sum
      is an int64, and a limit that is not positive reads nothing. */
  function LocalCopy(l: Limits, data: Bytes): Bytes {
    data[..Max(0, Min(|data|, Int64(l.maxFileSize + 1)))]
  }

  /** The copy is the beginning of the object, one byte longer than the limit if there is as much. */
  lemma LocalCopyIsPrefix(l: Limits, data: Bytes)
    ensures LocalCopy(l, data) <= data
    ensures 0 <= l.maxFileSize < MAX_INT64 ==> |LocalCopy(l, data)| == Min(|data|, l.maxFileSize + 1)
  {
  }

  /** Probing the truncated copy gives the verdict that probing the whole object would give. */
  lemma BoundedCopyDecidesAsWhole(l: Limits, data: Bytes, info: ProbeInfo)
    requires -MAX_INT64 - 1 <= l.maxFileSize <= MAX_INT64 && |data| <= MAX_INT64
    requires info.size == |LocalCopy(l, data)|
    ensures ValidateVideo(l, info) == ValidateVideo(l, info.(size := |data|))
  {
  }

  /** An accepted copy is the whole object exactly when the limit leaves room for the one byte
      more; at the top of int64 the sum wraps and an empty file is accepted. */
  lemma AcceptanceMeansWholeCopy(l: Limits)
    requires -MAX_INT64 - 1 <= l.maxFileSize <= MAX_INT64
    ensures l.maxFileSize < MAX_INT64 <==>
      forall data: Bytes | |data| <= MAX_INT64 && |LocalCopy(l, data)| <= l.maxFileSize :: LocalCopy(l, data) == data
  {
    if l.maxFileSize == MAX_INT64 {
      var data: Bytes := [0];
      assert LocalCopy(l, data) == [];
    }
  }

  // ----- Specification of each operation -----

  datatype Op =
    | Create(id: Id, uploader: Id, title: string, category: string, insertOk: bool, setKeyOk: bool, urlOk: bool)
    | Put(key: Key)
    | Finalize(id: Id, user: Id, env: FinalizeEnv)
    | Approve(id: Id, readOk: bool, writeOk: bool)
    | Reject(id: Id, reason: string, readOk: bool, writeOk: bool)
    | Download(id: Id, readOk: bool, signOk: bool, countOk: bool)
    | EditMetadata(id: Id, title: string, category: string, tags: seq<string>, writeOk: bool)

  /** An empty category is stored as none. */
  function Stored(category: string): Option<string> { if category == "" then None else Some(category) }

  const CATEGORIES := {"nature", "abstract", "urban", "cinematic", "space", "underwater", "minimal", "other"}

  /** The length of a character in UTF-8, which is what Go's len counts. */
  function Utf8Length(c: char): nat {
    if c < '\U{80}' then 1 else if c < '\U{800}' then 2 else if c < '\U{10000}' then 3 else 4
  }

  /** UTF-8 takes the fewest bytes whose payload holds the code point: 7 bits of one byte, and 5 more
      than that for every byte added, less one. */
  function PayloadBits(bytes: nat): nat { if bytes <= 1 then 7 * bytes else 5 * bytes + 1 }

  function TwoTo(n: nat): nat { if n == 0 then 1 else 2 * TwoTo(n - 1) }

  lemma Utf8LengthIsLeast(c: char)
    ensures 1 <= Utf8Length(c) <= 4 && c as int < TwoTo(PayloadBits(Utf8Length(c)))
    ensures Utf8Length(c) > 1 ==> TwoTo(PayloadBits(Utf8Length(c) - 1)) <= c as int
  {
    assert TwoTo(7) == 0x80 && TwoTo(11) == 0x800;
    assert TwoTo(16) == 0x1_0000 by { assert TwoTo(12) == 0x1000; }
    assert TwoTo(21) == 0x20_0000 by { assert TwoTo(17) == 0x2_0000; }
  }

  function ByteLength(s: string): nat { if s == "" then 0 else Utf8Length(s[0]) + ByteLength(s[1..]) }

  function CreateError(title: string, category: string, maxTitleLength: int): Option<ServiceError> {
    if title == "" || ByteLength(title) > maxTitleLength then Some(BadTitle)
    else if category != "" && category !in CATEGORIES then Some(BadCategory)
    else None
  }

  lemma {:induction false} ByteLengthBounds(s: string)
    ensures |s| <= ByteLength(s) <= 4 * |s|
    ensures ByteLength(s) == |s| <==> forall i | 0 <= i < |s| :: s[i] < '\U{80}'
  {
    if s != "" {
      ByteLengthBounds(s[1..]);
      assert s == [s[0]] + s[1..];
    }
  }

  /** The check announces a limit in characters. It decides a title by that limit, whatever the limit
      is, exactly when every character of the title is a single byte. */
  lemma TitleLimitCountsCharactersExactly(title: string)
    requires title != ""
    ensures (forall max: int :: CreateError(title, "", max).Some? <==> |title| > max)
       <==> forall i | 0 <= i < |title| :: title[i] < '\U{80}'
  {
    ByteLengthBounds(title);
    assert CreateError(title, "", |title|).Some? <==> ByteLength(title) > |title|;
  }

  /** For every limit some title of just that many characters is refused: one of accented letters. */
  lemma AccentedTitleRefused(max: nat) returns (title: string)
    requires max > 0
    ensures |title| == max && CreateError(title, "", max) == Some(BadTitle)
  {
    title := seq(max, _ => '\U{E9}');
    ByteLengthBounds(title);
    assert title[0] == '\U{E9}';
  }

  predicate MayFinalize(s: State, id: Id, user: Id) {
    HasStatus(s, id, Pending) && s.rows[id].uploader == user
  }

  /** The video was fetched, probed and found valid. */
  predicate VideoAccepted(l: Limits, objects: set<Key>, id: Id, env: FinalizeEnv) {
    && Original(id) in objects && env.CopyMade()
    && env.probe.Some? && ValidateVideo(l, env.probe.value).None?
  }

  predicate ReachesUploads(l: Limits, s: State, id: Id, user: Id, env: FinalizeEnv) {
    env.readOk && MayFinalize(s, id, user) && VideoAccepted(l, s.objects, id, env)
  }

  predicate FinalizeSucceeds(l: Limits, s: State, id: Id, user: Id, env: FinalizeEnv) {
    ReachesUploads(l, s, id, user, env) && env.PreviewStored() && env.updateOk
  }

  function StoredAssets(l: Limits, s: State, id: Id, user: Id, env: FinalizeEnv): set<Key> {
    if !ReachesUploads(l, s, id, user, env) || !env.ThumbnailStored() then {}
    else if !env.PreviewStored() then {Thumbnail(id)}
    else {Thumbnail(id), Preview(id)}
  }

  function FinalizeState(l: Limits, s: State, id: Id, user: Id, env: FinalizeEnv): State {
    var t := s.(objects := s.objects + StoredAssets(l, s, id, user, env));
    if FinalizeSucceeds(l, s, id, user, env)
    then SetRow(t, id, FinalizedRow(s.rows[id], id, env.probe.value)) else t
  }

  /** Why the video was not processed, given that it was not. */
  function ProcessError(l: Limits, objects: set<Key>, id: Id, env: FinalizeEnv): ServiceError {
    if Original(id) !in objects || !env.getOk then NotFound
    else if !env.CopyMade() then Internal
    else if env.probe.None? then ProbeFailed
    else if ValidateVideo(l, env.probe.value).Some? then Invalid(ValidateVideo(l, env.probe.value).value)
    else Internal
  }

  /** The state after one operation that nothing else overlaps. */
  function Serial(l: Limits, s: State, op: Op): State {
    match op
    case Create(id, uploader, title, category, insertOk, setKeyOk, urlOk) =>
      if id in s.rows || !insertOk then s
      else
        var row := NewRow(uploader, title, Stored(category));
        if !setKeyOk then SetRow(s, id, row)
        else
          var t := SetRow(s, id, row.(storageKey := Original(id)));
          if urlOk then t.(issued := s.issued + {Original(id)}) else t
    case Put(key) => if key in s.issued then s.(objects := s.objects + {key}) else s
    case Finalize(id, user, env) => FinalizeState(l, s, id, user, env)
    case Approve(id, readOk, writeOk) =>
      if HasStatus(s, id, PendingReview) && readOk && writeOk
      then SetRow(s, id, s.rows[id].(status := Approved)) else s
    case Reject(id, reason, readOk, writeOk) =>
      if HasStatus(s, id, PendingReview) && readOk && writeOk
      then SetRow(s, id, s.rows[id].(status := Rejected, rejectionReason := Some(reason))) else s
    case Download(id, readOk, signOk, countOk) =>
      if !HasStatus(s, id, Approved) || !readOk || !signOk then s
      else
        var t := s.(signed := s.signed + {(id, s.rows[id].storageKey)});
        if countOk then SetRow(t, id, s.rows[id].(downloadCount := s.rows[id].downloadCount + 1)) else t
    case EditMetadata(id, title, category, tags, writeOk) =>
      if id in s.rows && writeOk then SetRow(s, id, EditedRow(s.rows[id], title, Stored(category), tags)) else s
  }

  function AssetObjects(id: Id, env: FinalizeEnv): map<Key, Bytes> {
    if !env.ThumbnailStored() then map[]
    else if !env.PreviewStored() then map[Thumbnail(id) := env.thumbnail.content]
    else map[Thumbnail(id) := env.thumbnail.content, Preview(id) := env.preview.content]
  }

  /** The file a failing ffmpeg run leaves behind: its clean-up is registered only on success. */
  function Litter(name: string, env: FinalizeEnv): map<TempFile, Bytes> {
    match (env.thumbnail, env.preview)
    case (Failed(Some(part)), _) => map[ClipThumb(name) := part]
    case (Made(_), Failed(Some(part))) => map[ClipPreview(name) := part]
    case _ => map[]
  }

  /** The files that are removed once their ffmpeg runs have succeeded, whoever made them. */
  function Removed(name: string, env: FinalizeEnv): set<TempFile> {
    if env.thumbnail.Failed? then {}
    else if env.preview.Failed? then {ClipThumb(name)}
    else {ClipThumb(name), ClipPreview(name)}
  }

  function TempAfter(temp: map<TempFile, Bytes>, name: string, env: FinalizeEnv): map<TempFile, Bytes> {
    (temp - Removed(name, env)) + Litter(name, env)
  }

  /** No file that gets removed was there before, and a partial file was there with that content. */
  predicate Restores(temp: map<TempFile, Bytes>, name: string, env: FinalizeEnv) {
    && Removed(name, env) !! temp.Keys
    && forall f | f in Litter(name, env) :: f in temp && temp[f] == Litter(name, env)[f]
  }

  lemma RestoresExactly(temp: map<TempFile, Bytes>, name: string, env: FinalizeEnv)
    ensures TempAfter(temp, name, env) == temp <==> Restores(temp, name, env)
  {
    var after := TempAfter(temp, name, env);
    forall f | f in Removed(name, env) ensures f !in after { }
    forall f | f in Litter(name, env) ensures f in after && after[f] == Litter(name, env)[f] { }
  }

  lemma AssetKeys(id: Id, env: FinalizeEnv)
    ensures AssetObjects(id, env).Keys
         == if !env.ThumbnailStored() then {} else if !env.PreviewStored() then {Thumbnail(id)}
            else {Thumbnail(id), Preview(id)}
  {
  }

  /** A call that stores nothing leaves the state as it was. */
  lemma FinalizeStops(l: Limits, s: State, id: Id, user: Id, env: FinalizeEnv)
    requires !ReachesUploads(l, s, id, user, env)
    ensures FinalizeState(l, s, id, user, env) == s && !FinalizeSucceeds(l, s, id, user, env)
  {
    assert s.objects + {} == s.objects;
  }

  /** The state of a server that has stored its assets, before the row is written. */
  lemma FinalizeStores(l: Limits, s: State, id: Id, user: Id, env: FinalizeEnv, objects: map<Key, Bytes>)
    requires ReachesUploads(l, s, id, user, env) && objects.Keys == s.objects
    ensures (objects + AssetObjects(id, env)).Keys == FinalizeState(l, s, id, user, env).objects
  {
    AssetKeys(id, env);
  }

  /** Both files made, and removed again. */
  lemma MadeAndRemoved(temp: map<TempFile, Bytes>, name: string, env: FinalizeEnv)
    requires env.thumbnail.Made? && env.preview.Made?
    ensures
      var made := temp[ClipThumb(name) := env.thumbnail.content][ClipPreview(name) := env.preview.content];
      made - {ClipPreview(name)} - {ClipThumb(name)} == TempAfter(temp, name, env)
  {
  }

  /** The thumbnail made and removed again, and what a failing preview leaves. */
  lemma OnlyThumbnailMade(temp: map<TempFile, Bytes>, name: string, env: FinalizeEnv)
    requires env.thumbnail.Made? && env.preview.Failed?
    ensures
      var made := temp[ClipThumb(name) := env.thumbnail.content];
      var left := if env.preview.partial.Some? then made[ClipPreview(name) := env.preview.partial.value] else made;
      left - {ClipThumb(name)} == TempAfter(temp, name, env)
  {
  }

  lemma NothingMade(temp: map<TempFile, Bytes>, name: string, env: FinalizeEnv)
    requires env.thumbnail.Failed?
    ensures
      TempAfter(temp, name, env)
      == if env.thumbnail.partial.Some? then temp[ClipThumb(name) := env.thumbnail.partial.value] else temp
  {
  }

  /** The clip itself goes in the end. */
  lemma ClipGoes(temp: map<TempFile, Bytes>, name: string, data: Bytes, env: FinalizeEnv)
    requires Clip(name) !in temp
    ensures temp[Clip(name) := data] - {Clip(name)} == temp
    ensures TempAfter(temp[Clip(name) := data], name, env) - {Clip(name)} == TempAfter(temp, name, env)
  {
  }

  // ----- The object -----

  class Server {
    const limits: Limits
    const maxTitleLength: int
    var rows: map<Id, Row>
    var objects: map<Key, Bytes>
    var issued: set<Key>
    var temp: map<TempFile, Bytes>
    ghost var signed: set<(Id, Key)>

    constructor (limits: Limits, maxTitleLength: int, temp: map<TempFile, Bytes>)
      ensures Abs() == INITIAL && this.temp == temp
      ensures this.limits == limits && this.maxTitleLength == maxTitleLength
    {
      this.limits, this.maxTitleLength := limits, maxTitleLength;
      rows, objects, issued, signed := map[], map[], {}, {};
      this.temp := temp;
    }

    /** The protocol state of a server with no call in flight. */
    ghost function Abs(): State
      reads this
    {
      State(rows, objects.Keys, issued, map[], signed)
    }

    method Create(
      id: Id, uploader: Id, title: string, category: string, insertOk: bool, setKeyOk: bool, urlOk: bool)
      returns (r: Reply<Key>)
      modifies this`rows, this`issued
      ensures
        var error := CreateError(title, category, maxTitleLength);
        error.Some? ==> r == Err(error.value) && Abs() == old(Abs())
      ensures title == "" || ByteLength(title) > maxTitleLength ==> r == Err(BadTitle)
      ensures title != "" && ByteLength(title) <= maxTitleLength ==>
        (r == Err(BadCategory) <==> category != "" && category !in CATEGORIES)
      ensures CreateError(title, category, maxTitleLength).None? ==>
        && Abs() == Serial(limits, old(Abs()), Op.Create(id, uploader, title, category, insertOk, setKeyOk, urlOk))
        && r == if id !in old(rows) && insertOk && setKeyOk && urlOk then Ok(Original(id)) else Err(Internal)
      ensures r.Ok? ==>
        && id in rows && rows == old(rows)[id := rows[id]] && issued == old(issued) + {Original(id)}
        && var row := rows[id];
           && row.uploader == uploader && row.title == title && row.tags == []
           && row.category == (if category == "" then None else Some(category))
           && row.status == Pending && row.storageKey == Original(id)
           && row.thumbnailKey == None && row.previewKey == None
           && row.rejectionReason == None && row.downloadCount == 0
    {
      if title == "" { return Err(BadTitle); }
      if ByteLength(title) > maxTitleLength { return Err(BadTitle); }
      if category != "" && category !in CATEGORIES { return Err(BadCategory); }
      if id in rows || !insertOk { return Err(Internal); }
      rows := rows[id := NewRow(uploader, title, Stored(category))];
      if !setKeyOk { return Err(Internal); }
      rows := rows[id := rows[id].(storageKey := Original(id))];
      if !urlOk { return Err(Internal); }
      issued := issued + {Original(id)};
      return Ok(Original(id));
    }

    /** CreateTemp chooses a name that no file has; the names derived from it may be in use. */
    predicate FreshTemp(env: FinalizeEnv)
      reads this
    {
      env.tempName.Some? ==> Clip(env.tempName.value) !in temp
    }

    method Finalize(id: Id, user: Id, env: FinalizeEnv) returns (r: Reply<Row>)
      requires FreshTemp(env)
      modifies this`rows, this`objects, this`temp
      ensures Abs() == FinalizeState(limits, old(Abs()), id, user, env)
      ensures r.Ok? <==> FinalizeSucceeds(limits, old(Abs()), id, user, env)
      ensures r.Ok? ==> r.value == rows[id]
      ensures temp == if ReachesUploads(limits, old(Abs()), id, user, env)
                      then TempAfter(old(temp), env.tempName.value, env) else old(temp)
      ensures objects == if ReachesUploads(limits, old(Abs()), id, user, env)
                         then old(objects) + AssetObjects(id, env) else old(objects)
      ensures temp == old(temp) <==>
        !ReachesUploads(limits, old(Abs()), id, user, env) || Restores(old(temp), env.tempName.value, env)
      ensures id !in old(rows) || !env.readOk ==> r == Err(NotFound)
      ensures id in old(rows) && env.readOk && old(rows)[id].uploader != user ==> r == Err(Forbidden)
      ensures id in old(rows) && env.readOk && old(rows)[id].uploader == user && old(rows)[id].status != Pending ==>
        r == Err(WrongStatus)
      ensures env.readOk && MayFinalize(old(Abs()), id, user) && r.Err? ==>
        r.error == ProcessError(limits, old(objects.Keys), id, env)
      ensures r.Err? ==> rows == old(rows)
      ensures r.Ok? ==>
        var was, name := old(rows)[id], env.tempName.value;
        && rows == old(rows)[id := r.value]
        && r.value.title == was.title && r.value.category == was.category && r.value.tags == was.tags
        && r.value.uploader == was.uploader && r.value.storageKey == was.storageKey
        && r.value.rejectionReason == was.rejectionReason && r.value.downloadCount == was.downloadCount
        && objects == old(objects)[Thumbnail(id) := env.thumbnail.content][Preview(id) := env.preview.content]
        && temp == old(temp) - {ClipThumb(name), ClipPreview(name)}
    {
      ghost var s := Abs();
      if ReachesUploads(limits, s, id, user, env) {
        FinalizeStores(limits, s, id, user, env, objects);
      } else {
        FinalizeStops(limits, s, id, user, env);
      }
      if id !in rows || !env.readOk { return Err(NotFound); }
      var row := rows[id];
      if row.uploader != user { return Err(Forbidden); }
      if row.status != Pending { return Err(WrongStatus); }

      if env.tempName.Some? { RestoresExactly(temp, env.tempName.value, env); }
      var processed := Process(id, env);
      if processed.Err? { return Err(processed.error); }

      if !env.updateOk { return Err(Internal); }
      rows := rows[id := FinalizedRow(rows[id], id, processed.value)];
      return Ok(rows[id]);
    }

    /** Everything Finalize does between its read of the row and its update of it. */
    method Process(id: Id, env: FinalizeEnv) returns (r: Reply<ProbeInfo>)
      requires FreshTemp(env)
      modifies this`objects, this`temp
      ensures r.Ok? <==> VideoAccepted(limits, old(objects.Keys), id, env) && env.PreviewStored()
      ensures r.Ok? ==>
        var name := env.tempName.value;
        && r.value == env.probe.value
        && objects == old(objects)[Thumbnail(id) := env.thumbnail.content][Preview(id) := env.preview.content]
        && temp == old(temp) - {ClipThumb(name), ClipPreview(name)}
      ensures r.Err? ==> r.error == ProcessError(limits, old(objects.Keys), id, env)
      ensures Original(id) in old(objects) && env.CopyMade() && env.probe.Some? ==>
        var verdict := ValidateVideo(limits, env.probe.value);
        verdict.Some? ==> r == Err(Invalid(verdict.value))
      ensures temp == if VideoAccepted(limits, old(objects.Keys), id, env)
                      then TempAfter(old(temp), env.tempName.value, env) else old(temp)
      ensures objects == if VideoAccepted(limits, old(objects.Keys), id, env)
                         then old(objects) + AssetObjects(id, env) else old(objects)
    {
      var fetched := DownloadAndProbe(id, env);
      if fetched.Err? { return Err(fetched.error); }
      var (name, info) := fetched.value;

      ClipGoes(old(temp), name, temp[Clip(name)], env);
      var invalid := ValidateVideo(limits, info);
      if invalid.Some? {
        temp := temp - {Clip(name)};
        return Err(Invalid(invalid.value));
      }

      var assets := GenerateAndUploadAssets(id, name, env);
      temp := temp - {Clip(name)};
      return if assets.Ok? then Ok(info) else Err(assets.error);
    }

    /** On success the only change is one new temp file, holding the bounded copy. */
    method DownloadAndProbe(id: Id, env: FinalizeEnv) returns (r: Reply<(string, ProbeInfo)>)
      requires FreshTemp(env)
      modifies this`temp
      ensures r.Ok? <==> Original(id) in objects && env.CopyMade() && env.probe.Some?
      ensures r.Ok? ==>
        && r.value == (env.tempName.value, env.probe.value)
        && temp == old(temp)[Clip(r.value.0) := LocalCopy(limits, objects[Original(id)])]
      ensures r.Err? ==> temp == old(temp)
      ensures r.Err? ==> r.error == ProcessError(limits, objects.Keys, id, env)
      ensures Original(id) !in objects || !env.getOk ==> r == Err(NotFound)
      ensures Original(id) in objects && env.getOk && (env.tempName.None? || !env.copyOk) ==> r == Err(Internal)
      ensures Original(id) in objects && env.getOk && env.tempName.Some? && env.copyOk && env.probe.None? ==>
        r == Err(ProbeFailed)
    {
      if Original(id) !in objects || !env.getOk { return Err(NotFound); }
      if env.tempName.None? { return Err(Internal); }
      var name := env.tempName.value;
      var path := Clip(name);
      temp := temp[path := []];
      if !env.copyOk {
        temp := temp - {path};
        return Err(Internal);
      }
      temp := temp[path := LocalCopy(limits, objects[Original(id)])];
      if env.probe.None? {
        temp := temp - {path};
        return Err(ProbeFailed);
      }
      return Ok((name, env.probe.value));
    }

    method GenerateAndUploadAssets(id: Id, name: string, env: FinalizeEnv) returns (r: Reply<(Key, Key)>)
      modifies this`objects, this`temp
      ensures r == if env.PreviewStored() then Ok((Thumbnail(id), Preview(id))) else Err(Internal)
      ensures objects == old(objects) + AssetObjects(id, env)
      ensures temp == TempAfter(old(temp), name, env)
      ensures r.Ok? ==>
        && objects == old(objects)[Thumbnail(id) := env.thumbnail.content][Preview(id) := env.preview.content]
        && temp == old(temp) - {ClipThumb(name), ClipPreview(name)}
    {
      var thumbPath, previewPath := ClipThumb(name), ClipPreview(name);
      if env.thumbnail.Failed? {
        NothingMade(temp, name, env);
        if env.thumbnail.partial.Some? { temp := temp[thumbPath := env.thumbnail.partial.value]; }
        return Err(Internal);
      }
      temp := temp[thumbPath := env.thumbnail.content];
      if env.preview.Failed? {
        OnlyThumbnailMade(old(temp), name, env);
        if env.preview.partial.Some? { temp := temp[previewPath := env.preview.partial.value]; }
        temp := temp - {thumbPath};
        return Err(Internal);
      }
      temp := temp[previewPath := env.preview.content];
      MadeAndRemoved(old(temp), name, env);
      var stored := UploadAssets(id, thumbPath, previewPath, env);
      temp := temp - {previewPath};
      temp := temp - {thumbPath};
      return if stored then Ok((Thumbnail(id), Preview(id))) else Err(Internal);
    }

    method UploadAssets(id: Id, thumbPath: TempFile, previewPath: TempFile, env: FinalizeEnv) returns (ok: bool)
      requires thumbPath in temp && previewPath in temp
      requires env.thumbnail.Made? && env.preview.Made?
      requires temp[thumbPath] == env.thumbnail.content && temp[previewPath] == env.preview.content
      modifies this`objects
      ensures ok <==> env.PreviewStored()
      ensures ok <==> env.openThumbnailOk && env.putThumbnailOk && env.openPreviewOk && env.putPreviewOk
      ensures objects == old(objects) + AssetObjects(id, env)
      ensures ok ==> objects == old(objects)[Thumbnail(id) := temp[thumbPath]][Preview(id) := temp[previewPath]]
      ensures !ok && env.openThumbnailOk && env.putThumbnailOk ==>
        objects == old(objects)[Thumbnail(id) := temp[thumbPath]]
      ensures !env.openThumbnailOk || !env.putThumbnailOk ==> objects == old(objects)
    {
      if !env.openThumbnailOk || !env.putThumbnailOk { return false; }
      objects := objects[Thumbnail(id) := temp[thumbPath]];
      if !env.openPreviewOk || !env.putPreviewOk { return false; }
      objects := objects[Preview(id) := temp[previewPath]];
      return true;
    }

    method GetApproved(id: Id, readOk: bool) returns (r: Reply<Row>)
      ensures r == if readOk && id in rows && rows[id].status == Approved then Ok(rows[id]) else Err(NotFound)
    {
      if id !in rows || !readOk { return Err(NotFound); }
      if rows[id].status != Approved { return Err(NotFound); }
      return Ok(rows[id]);
    }

    method Approve(id: Id, readOk: bool, writeOk: bool) returns (r: Reply<()>)
      modifies this`rows
      ensures Abs() == Serial(limits, old(Abs()), Op.Approve(id, readOk, writeOk))
      ensures r == if id !in old(rows) || !readOk then Err(NotFound)
                   else if old(rows)[id].status != PendingReview then Err(WrongStatus)
                   else if !writeOk then Err(Internal) else Ok(())
      ensures rows == if r.Ok? then old(rows)[id := old(rows)[id].(status := Approved)] else old(rows)
    {
      if id !in rows || !readOk { return Err(NotFound); }
      if rows[id].status != PendingReview { return Err(WrongStatus); }
      if !writeOk { return Err(Internal); }
      rows := rows[id := rows[id].(status := Approved)];
      return Ok(());
    }

    method Reject(id: Id, reason: string, readOk: bool, writeOk: bool) returns (r: Reply<()>)
      modifies this`rows
      ensures Abs() == Serial(limits, old(Abs()), Op.Reject(id, reason, readOk, writeOk))
      ensures r == if id !in old(rows) || !readOk then Err(NotFound)
                   else if old(rows)[id].status != PendingReview then Err(WrongStatus)
                   else if !writeOk then Err(Internal) else Ok(())
      ensures rows == if !r.Ok? then old(rows)
                      else old(rows)[id := old(rows)[id].(status := Rejected, rejectionReason := Some(reason))]
    {
      if id !in rows || !readOk { return Err(NotFound); }
      if rows[id].status != PendingReview { return Err(WrongStatus); }
      if !writeOk { return Err(Internal); }
      rows := rows[id := rows[id].(status := Rejected, rejectionReason := Some(reason))];
      return Ok(());
    }

    /** A failing counter update is logged and the URL is returned all the same. */
    method Download(id: Id, readOk: bool, signOk: bool, countOk: bool) returns (r: Reply<Key>)
      modifies this`rows, this`signed
      ensures Abs() == Serial(limits, old(Abs()), Op.Download(id, readOk, signOk, countOk))
      ensures r == if !HasStatus(old(Abs()), id, Approved) || !readOk then Err(NotFound)
                   else if signOk then Ok(old(rows)[id].storageKey) else Err(Internal)
      ensures rows == if !r.Ok? || !countOk then old(rows)
                      else old(rows)[id := old(rows)[id].(downloadCount := old(rows)[id].downloadCount + 1)]
    {
      var found := GetApproved(id, readOk);
      if found.Err? { return Err(found.error); }
      if !signOk { return Err(Internal); }
      signed := signed + {(id, found.value.storageKey)};
      if countOk {
        rows := rows[id := rows[id].(downloadCount := rows[id].downloadCount + 1)];
      }
      return Ok(found.value.storageKey);
    }

    method EditMetadata(id: Id, title: string, category: string, tags: seq<string>, writeOk: bool)
      returns (r: Reply<()>)
      modifies this`rows
      ensures Abs() == Serial(limits, old(Abs()), Op.EditMetadata(id, title, category, tags, writeOk))
      ensures r == if writeOk then Ok(()) else Err(Internal)
      ensures !writeOk || id !in old(rows) ==> rows == old(rows)
      ensures writeOk && id in old(rows) ==>
        && id in rows && rows == old(rows)[id := rows[id]]
        && rows[id] == old(rows)[id].(title := title, category := rows[id].category, tags := tags)
        && rows[id].category == if category == "" then None else Some(category)
    {
      if !writeOk { return Err(Internal); }
      if id in rows { rows := rows[id := EditedRow(rows[id], title, Stored(category), tags)]; }
      return Ok(());
    }
  }
}
