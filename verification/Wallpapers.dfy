/** The wallpaper row, its storage keys and the upload limits: the values that the
    lifecycle protocol and the server object both work on. */
module Wallpapers {
  import opened Common

  /** Canonical UUID text. */
  type Id = string

  /** The keys the server ever writes to a row or to the object store. */
  datatype Key = Placeholder | Original(id: Id) | Thumbnail(id: Id) | Preview(id: Id)

  function KeyText(k: Key): string {
    match k
    case Placeholder => "pending"
    case Original(id) => "wallpapers/" + id + "/original.mp4"
    case Thumbnail(id) => "wallpapers/" + id + "/thumbnail.jpg"
    case Preview(id) => "wallpapers/" + id + "/preview.mp4"
  }

  datatype Status = Pending | PendingReview | Approved | Rejected

  datatype ProbeInfo = ProbeInfo(width: int, height: int, duration: real, size: int, format: string)

  datatype Limits = Limits(maxFileSize: int, maxDuration: real, minHeight: int)

  datatype Row = Row(
    uploader: Id,
    title: string,
    category: Option<string>,
    tags: seq<string>,
    status: Status,
    width: int,
    height: int,
    duration: real,
    fileSize: int,
    format: string,
    resolution: string,
    storageKey: Key,
    thumbnailKey: Option<Key>,
    previewKey: Option<Key>,
    rejectionReason: Option<string>,
    downloadCount: nat)

  datatype VideoError = TooLarge | TooLong | TooLow | BadCodec

  /** The upload checks, in the order in which they report. */
  function ValidateVideo(l: Limits, info: ProbeInfo): (r: Option<VideoError>)
    ensures r.None? <==>
      && info.size <= l.maxFileSize && info.duration <= l.maxDuration
      && l.minHeight <= info.height && info.format in {"h264", "h265"}
    ensures info.size > l.maxFileSize <==> r == Some(TooLarge)
    ensures r == Some(TooLong) ==> info.size <= l.maxFileSize && info.duration > l.maxDuration
    ensures r == Some(TooLow) ==> info.duration <= l.maxDuration && info.height < l.minHeight
    ensures r == Some(BadCodec) ==> info.height >= l.minHeight && info.format !in {"h264", "h265"}
  {
    if info.size > l.maxFileSize then Some(TooLarge)
    else if info.duration > l.maxDuration then Some(TooLong)
    else if info.height < l.minHeight then Some(TooLow)
    else if info.format != "h264" && info.format != "h265" then Some(BadCodec)
    else None
  }

  function ResolutionText(width: int, height: int): string {
    Decimal(width) + "x" + Decimal(height)
  }

  /** The first x in the text is the separator. */
  lemma SeparatorComesFirst(w: int, h: int)
    ensures
      var s, n := ResolutionText(w, h), |Decimal(w)|;
      n < |s| && s[n] == 'x' && s[..n] == Decimal(w) && s[n + 1..] == Decimal(h)
      && forall i | 0 <= i < n :: s[i] != 'x'
  {
    DecimalChars(w);
    forall i | 0 <= i < |Decimal(w)| ensures ResolutionText(w, h)[i] != 'x' {
      assert Decimal(w)[i] in Decimal(w);
    }
  }

  /** The text determines both dimensions. */
  lemma ResolutionTextInjective(w: int, h: int, w': int, h': int)
    requires ResolutionText(w, h) == ResolutionText(w', h')
    ensures w == w' && h == h'
  {
    SeparatorComesFirst(w, h);
    SeparatorComesFirst(w', h');
    assert |Decimal(w)| == |Decimal(w')|;
    DecimalInjective(w, w');
    DecimalInjective(h, h');
  }

  function NewRow(uploader: Id, title: string, category: Option<string>): Row {
    Row(uploader, title, category, [], Pending, 0, 0, 0.0, 0, "", "", Placeholder, None, None, None, 0)
  }

  /** The single UPDATE that Finalize issues. It sets the status whatever it was before. */
  function FinalizedRow(row: Row, id: Id, info: ProbeInfo): Row {
    row.(width := Int32(info.width), height := Int32(info.height),
    duration := info.duration, fileSize := info.size, format := info.format,
    resolution := ResolutionText(info.width, info.height),
    thumbnailKey := Some(Thumbnail(id)), previewKey := Some(Preview(id)),
    status := PendingReview)
  }

  /** What an administrator may edit. */
  function EditedRow(row: Row, title: string, category: Option<string>, tags: seq<string>): Row {
    row.(title := title, category := category, tags := tags)
  }

  predicate DimensionsFit(info: ProbeInfo) { FitsInt32(info.width) && FitsInt32(info.height) }

  /** The row's media columns are what Finalize makes of a probed video that passed the checks. */
  predicate FromProbe(l: Limits, id: Id, row: Row, info: ProbeInfo) {
    && ValidateVideo(l, info).None?
    && row.fileSize == info.size && row.duration == info.duration && row.format == info.format
    && row.width == Int32(info.width) && row.height == Int32(info.height)
    && row.resolution == ResolutionText(info.width, info.height)
    && row.thumbnailKey == Some(Thumbnail(id)) && row.previewKey == Some(Preview(id))
  }

  /** The promise that the limits make about a row's video and its assets. */
  predicate MeetsLimits(l: Limits, id: Id, row: Row) {
    && row.fileSize <= l.maxFileSize
    && row.duration <= l.maxDuration
    && row.height >= l.minHeight
    && row.format in {"h264", "h265"}
    && row.resolution == ResolutionText(row.width, row.height)
    && row.thumbnailKey == Some(Thumbnail(id))
    && row.previewKey == Some(Preview(id))
  }

  /** Distinct keys have distinct texts, so the model may use the key values themselves. */
  lemma KeyTextInjective(a: Key, b: Key)
    requires KeyText(a) == KeyText(b)
    ensures a == b
  {
    SeventhFromEnd(a);
    SeventhFromEnd(b);
    if !a.Placeholder? {
      assert KeyText(a)[11..11 + |a.id|] == a.id;
      assert KeyText(b)[11..11 + |b.id|] == b.id;
    }
  }

  /** The seventh character from the end tells the four kinds of key apart. */
  lemma SeventhFromEnd(k: Key)
    ensures
      var s := KeyText(k);
      |s| >= 7 && s[|s| - 7] ==
                  match k
                  case Placeholder => 'p'
                  case Original(_) => 'n'
                  case Thumbnail(_) => 'a'
                  case Preview(_) => 'i'
  {
  }
}
