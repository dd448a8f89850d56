/** The event log: one active file and a chain of numbered ones, rotated by renaming. */
module EventLog {
  import opened Common

  /** A serialised entry, written with a newline after it. */
  datatype Line = Line(entry: seq<bv8>) {
    function Size(): nat { |entry| + 1 }
  }

  datatype FileName = Active | Numbered(n: int)

  type Files = map<FileName, seq<Line>>

  function Bytes(lines: seq<Line>): nat
    decreases |lines|
  {
    if lines == [] then 0 else Bytes(lines[..|lines| - 1]) + lines[|lines| - 1].Size()
  }

  const NEWLINE: bv8 := 10

  /** The bytes of a file: each entry and a newline after it. */
  function Content(lines: seq<Line>): seq<bv8>
    decreases |lines|
  {
    if lines == [] then [] else Content(lines[..|lines| - 1]) + lines[|lines| - 1].entry + [NEWLINE]
  }

  /** The size that is compared with the threshold is the length of the file. */
  lemma {:induction false} BytesIsLength(lines: seq<Line>)
    ensures Bytes(lines) == |Content(lines)|
    decreases |lines|
  {
    if lines != [] { BytesIsLength(lines[..|lines| - 1]); }
  }

  // ----- The chain of files, newest first -----

  type Slot = Option<seq<Line>>

  function Name(i: nat): FileName { if i == 0 then Active else Numbered(i) }

  function SlotOf(files: Files, f: FileName): Slot { if f in files then Some(files[f]) else None }

  /** The number of numbered files that rotation can fill; events.1 is used whatever the count. */
  function Depth(maxFileCount: int): nat { Max(1, maxFileCount) }

  function Chain(files: Files, maxFileCount: int): (slots: seq<Slot>)
    ensures |slots| == Depth(maxFileCount) + 1
    ensures forall i | 0 <= i < |slots| :: slots[i] == SlotOf(files, Name(i))
  {
    seq(Depth(maxFileCount) + 1, i requires 0 <= i => SlotOf(files, Name(i)))
  }

  predicate InChain(f: FileName, maxFileCount: int) {
    f.Active? || 1 <= f.n <= Depth(maxFileCount)
  }

  /** Files outside the chain stay as they are, but for one named after a count below one. */
  ghost predicate ForeignKept(was: Files, now: Files, maxFileCount: int) {
    forall f | !InChain(f, maxFileCount) && f != Numbered(maxFileCount) :: SlotOf(now, f) == SlotOf(was, f)
  }

  predicate Valid(slots: seq<Slot>, maxFileCount: int) { |slots| == Depth(maxFileCount) + 1 }

  /** Rotation: everything moves one file on and the last file is dropped. With a count below one
      nothing is ever moved out of events.1, and rotation works only while that is missing. */
  function Rotated(slots: seq<Slot>, maxFileCount: int): (r: seq<Slot>)
    requires Valid(slots, maxFileCount)
    ensures Valid(r, maxFileCount)
  {
    if maxFileCount >= 1 then [None] + slots[..|slots| - 1]
    else if slots[1].None? then [None, slots[0]]
    else slots
  }

  predicate NeedsRotation(slots: seq<Slot>, maxSize: int)
    requires slots != []
  {
    slots[0].Some? && Bytes(slots[0].value) >= maxSize
  }

  function Lines(slot: Slot): seq<Line> { if slot.Some? then slot.value else [] }

  function Written(slots: seq<Slot>, maxSize: int, maxFileCount: int, line: Line): (r: seq<Slot>)
    requires Valid(slots, maxFileCount)
    ensures Valid(r, maxFileCount)
  {
    var s := if NeedsRotation(slots, maxSize) then Rotated(slots, maxFileCount) else slots;
    s[0 := Some(Lines(s[0]) + [line])]
  }

  lemma AppendChains(files: Files, maxFileCount: int, line: Line)
    ensures
      var slots, content := Chain(files, maxFileCount), Lines(SlotOf(files, Active)) + [line];
      Chain(files[Active := content], maxFileCount) == slots[0 := Some(content)]
  {
  }

  /** What a rename does to the directory. */
  function Renamed(files: Files, src: FileName, dst: FileName): Files {
    if src in files && dst !in files then (files - {src})[dst := files[src]] else files
  }

  /** A rename to a vacant next place moves that slot on, whether or not it holds a file. */
  lemma RenameShifts(files: Files, maxFileCount: int, i: nat)
    requires i < Depth(maxFileCount) && Name(i + 1) !in files
    ensures
      var slots := Chain(files, maxFileCount);
      Chain(Renamed(files, Name(i), Name(i + 1)), maxFileCount) == slots[i + 1 := slots[i]][i := None]
    ensures ForeignKept(files, Renamed(files, Name(i), Name(i + 1)), maxFileCount)
  {
  }

  lemma ForeignKeptAgain(a: Files, b: Files, c: Files, maxFileCount: int)
    requires ForeignKept(a, b, maxFileCount) && ForeignKept(b, c, maxFileCount)
    ensures ForeignKept(a, c, maxFileCount)
  {
  }

  /** The chain when all places above `i` have moved on and place `i + 1` is vacant. */
  function Gap(was: seq<Slot>, i: nat): (r: seq<Slot>)
    requires i + 1 < |was|
    ensures |r| == |was|
  {
    was[..i + 1] + [None] + was[i + 1..|was| - 1]
  }

  lemma GapMoves(was: seq<Slot>, i: nat)
    requires 0 < i && i + 1 < |was|
    ensures var slots := Gap(was, i); slots[i + 1].None? && slots[i + 1 := slots[i]][i := None] == Gap(was, i - 1)
  {
  }

  lemma GapCloses(was: seq<Slot>)
    requires |was| > 1
    ensures var slots := Gap(was, 0); slots[1].None? && slots[1 := slots[0]][0 := None] == [None] + was[..|was| - 1]
  {
  }

  /** One turn of the loop, on the directory as it was before rotation and as it is now. */
  lemma LoopStep(before: Files, files: Files, was: seq<Slot>, maxFileCount: int, i: nat)
    requires 0 < i < maxFileCount && |was| == Depth(maxFileCount) + 1
    requires Chain(files, maxFileCount) == Gap(was, i) && ForeignKept(before, files, maxFileCount)
    ensures Numbered(i + 1) !in files
    ensures
      var now := Renamed(files, Numbered(i), Numbered(i + 1));
      Chain(now, maxFileCount) == Gap(was, i - 1) && ForeignKept(before, now, maxFileCount)
  {
    GapMoves(was, i);
    assert SlotOf(files, Name(i + 1)).None?;
    RenameShifts(files, maxFileCount, i);
    ForeignKeptAgain(before, files, Renamed(files, Name(i), Name(i + 1)), maxFileCount);
  }

  /** The last rename, of the active file, whether it succeeds or not. */
  lemma LastStep(before: Files, files: Files, was: seq<Slot>, maxFileCount: int)
    requires Valid(was, maxFileCount) && ForeignKept(before, files, maxFileCount)
    requires Chain(files, maxFileCount) == if maxFileCount >= 1 then Gap(was, 0) else was
    ensures maxFileCount >= 1 ==> Numbered(1) !in files
    ensures
      var now := Renamed(files, Active, Numbered(1));
      Chain(now, maxFileCount) == Rotated(was, maxFileCount) && ForeignKept(before, now, maxFileCount)
  {
    var slots := Chain(files, maxFileCount);
    if maxFileCount >= 1 { GapCloses(was); }
    assert slots[1] == SlotOf(files, Name(1));
    if slots[1].None? {
      RenameShifts(files, maxFileCount, 0);
      ForeignKeptAgain(before, files, Renamed(files, Name(0), Name(1)), maxFileCount);
    }
  }

  lemma RemovalOpensGap(files: Files, maxFileCount: int)
    ensures
      var slots := Chain(files, maxFileCount);
      Chain(files - {Numbered(maxFileCount)}, maxFileCount)
      == if maxFileCount >= 1 then Gap(slots, maxFileCount - 1) else slots
  {
  }

  // ----- The object -----

  class Log {
    const maxFileSizeBytes: int
    const maxFileCount: int
    var files: Files

    constructor (maxFileSizeBytes: int, maxFileCount: int, files: Files)
      ensures this.maxFileSizeBytes == maxFileSizeBytes && this.maxFileCount == maxFileCount
      ensures this.files == files
    {
      this.maxFileSizeBytes, this.maxFileCount, this.files := maxFileSizeBytes, maxFileCount, files;
    }

    ghost function Slots(): seq<Slot>
      reads this
    {
      Chain(files, maxFileCount)
    }

    /** moveItem: fails if the source is missing or the target exists. */
    method MoveItem(src: FileName, dst: FileName) returns (ok: bool)
      requires src != dst
      modifies this`files
      ensures ok <==> src in old(files) && dst !in old(files)
      ensures files == Renamed(old(files), src, dst)
    {
      if src !in files || dst in files { return false; }
      var moved := files[src];
      files := files - {src};
      files := files[dst := moved];
      return true;
    }

    /** Every rename that is tried finds its target vacant, which the result reports; files that
        are not part of the chain stay as they are. */
    method Rotate() returns (moved: bool)
      requires Active in files
      modifies this`files
      ensures Slots() == Rotated(old(Slots()), maxFileCount)
      ensures maxFileCount >= 1 ==> moved
      ensures maxFileCount < 1 ==> Numbered(maxFileCount) !in files
      ensures ForeignKept(old(files), files, maxFileCount)
    {
      moved := true;
      ghost var was := Slots();
      RemovalOpensGap(files, maxFileCount);
      files := files - {Numbered(maxFileCount)};
      var i := maxFileCount - 1;
      while i >= 1
        invariant maxFileCount >= 1 ==> 0 <= i < maxFileCount && moved && Slots() == Gap(was, i)
        invariant maxFileCount < 1 ==> i < 1 && Slots() == was && Numbered(maxFileCount) !in files
        invariant Active in files
        invariant ForeignKept(old(files), files, maxFileCount)
        decreases i
      {
        LoopStep(old(files), files, was, maxFileCount, i);
        if Numbered(i) in files {
          var ok := MoveItem(Numbered(i), Numbered(i + 1));
          moved := moved && ok;
        }
        i := i - 1;
      }
      LastStep(old(files), files, was, maxFileCount);
      var ok := MoveItem(Active, Numbered(1));
      moved := moved && ok;
    }

    method RotateIfNeeded()
      modifies this`files
      ensures Slots() == if NeedsRotation(old(Slots()), maxFileSizeBytes)
                         then Rotated(old(Slots()), maxFileCount) else old(Slots())
      ensures ForeignKept(old(files), files, maxFileCount)
    {
      if Active !in files { return; }
      if Bytes(files[Active]) < maxFileSizeBytes { return; }
      var _ := Rotate();
    }

    method Append(line: Line)
      modifies this`files
      ensures Slots() == old(Slots())[0 := Some(Lines(old(Slots())[0]) + [line])]
      ensures ForeignKept(old(files), files, maxFileCount)
    {
      AppendChains(files, maxFileCount, line);
      if Active in files {
        files := files[Active := files[Active] + [line]];
      } else {
        assert [] + [line] == [line];
        files := files[Active := [line]];
      }
    }

    /** An entry that cannot be serialised is skipped. */
    method Write(entry: Option<seq<bv8>>)
      modifies this`files
      ensures Slots() == if entry.None? then old(Slots())
                         else Written(old(Slots()), maxFileSizeBytes, maxFileCount, Line(entry.value))
      ensures ForeignKept(old(files), files, maxFileCount)
    {
      if entry.None? { return; }
      RotateIfNeeded();
      Append(Line(entry.value));
    }
  }

  // ----- Whole runs -----

  function WriteAll(slots: seq<Slot>, maxSize: int, maxFileCount: int, lines: seq<Line>): (r: seq<Slot>)
    requires Valid(slots, maxFileCount)
    ensures Valid(r, maxFileCount)
    decreases |lines|
  {
    if lines == [] then slots
    else
      var prior := WriteAll(slots, maxSize, maxFileCount, lines[..|lines| - 1]);
      Written(prior, maxSize, maxFileCount, lines[|lines| - 1])
  }

  /** The files' contents from the oldest to the active one. */
  function Joined(slots: seq<Slot>): seq<Line>
    decreases |slots|
  {
    if slots == [] then [] else Joined(slots[1..]) + Lines(slots[0])
  }

  predicate IsSuffix(a: seq<Line>, b: seq<Line>) { |a| <= |b| && b[|b| - |a|..] == a }

  lemma Associative(a: seq<Line>, b: seq<Line>, c: seq<Line>)
    ensures (a + b) + c == a + (b + c)
  {
  }

  lemma {:induction false} JoinedPeelsOldest(slots: seq<Slot>)
    requires slots != []
    ensures Joined(slots) == Lines(slots[|slots| - 1]) + Joined(slots[..|slots| - 1])
    decreases |slots|
  {
    var tail := slots[1..];
    if tail != [] {
      JoinedPeelsOldest(tail);
      assert slots[..|slots| - 1][1..] == tail[..|tail| - 1];
      Associative(Lines(slots[|slots| - 1]), Joined(tail[..|tail| - 1]), Lines(slots[0]));
    }
  }

  lemma JoinedOfTwo(slots: seq<Slot>)
    requires |slots| == 2
    ensures Joined(slots) == Lines(slots[1]) + Lines(slots[0])
  {
    assert Joined(slots[1..]) == Joined(slots[1..][1..]) + Lines(slots[1]);
  }

  /** Each rotation drops exactly what the last file held. */
  lemma RotationDropsOldest(slots: seq<Slot>, maxFileCount: int)
    requires Valid(slots, maxFileCount) && slots[0].Some?
    ensures Joined(slots) ==
      (if maxFileCount >= 1 then Lines(slots[|slots| - 1]) else []) + Joined(Rotated(slots, maxFileCount))
  {
    if maxFileCount >= 1 {
      JoinedPeelsOldest(slots);
      var kept := slots[..|slots| - 1];
      assert ([None] + kept)[1..] == kept;
      assert Joined([None] + kept) == Joined(kept) + [];
    } else if slots[1].None? {
      JoinedOfTwo(slots);
      JoinedOfTwo([None, slots[0]]);
    }
  }

  /** What the next write will drop. */
  function Dropped(slots: seq<Slot>, maxSize: int, maxFileCount: int): seq<Line>
    requires Valid(slots, maxFileCount)
  {
    if NeedsRotation(slots, maxSize) && maxFileCount >= 1 then Lines(slots[|slots| - 1]) else []
  }

  lemma WrittenJoins(slots: seq<Slot>, maxSize: int, maxFileCount: int, line: Line)
    requires Valid(slots, maxFileCount)
    ensures Dropped(slots, maxSize, maxFileCount) + Joined(Written(slots, maxSize, maxFileCount, line))
         == Joined(slots) + [line]
  {
    var s := if NeedsRotation(slots, maxSize) then Rotated(slots, maxFileCount) else slots;
    var dropped := Dropped(slots, maxSize, maxFileCount);
    assert Joined(slots) == dropped + Joined(s) by {
      if NeedsRotation(slots, maxSize) { RotationDropsOldest(slots, maxFileCount); }
    }
    var t := s[0 := Some(Lines(s[0]) + [line])];
    assert t[1..] == s[1..];
    Associative(Joined(s[1..]), Lines(s[0]), [line]);
    Associative(dropped, Joined(s), [line]);
  }

  lemma SuffixStep(x: seq<Line>, y: seq<Line>, dropped: seq<Line>, z: seq<Line>, line: Line)
    requires IsSuffix(y, x) && dropped + z == y + [line]
    ensures IsSuffix(z, x + [line])
  {
    var k := |x| - |y|;
    assert x == x[..k] + y;
    assert x + [line] == x[..k] + (y + [line]);
    assert x + [line] == (x[..k] + dropped) + z;
  }

  lemma WriteAllSnoc(slots: seq<Slot>, maxSize: int, maxFileCount: int, lines: seq<Line>)
    requires Valid(slots, maxFileCount) && lines != []
    ensures
      var prior := WriteAll(slots, maxSize, maxFileCount, lines[..|lines| - 1]);
      WriteAll(slots, maxSize, maxFileCount, lines) == Written(prior, maxSize, maxFileCount, lines[|lines| - 1])
  {
  }

  lemma LastComesLast(x: seq<Line>, lines: seq<Line>)
    requires lines != []
    ensures x + lines[..|lines| - 1] + [lines[|lines| - 1]] == x + lines
  {
  }

  lemma InitAndLast(lines: seq<Line>)
    requires lines != []
    ensures lines[..|lines| - 1] + [lines[|lines| - 1]] == lines
  {
  }

  lemma SuffixOfItself(x: seq<Line>)
    ensures IsSuffix(x, x + [])
  {
  }

  lemma WriteKeepsSuffix(slots: seq<Slot>, maxSize: int, maxFileCount: int, x: seq<Line>, line: Line)
    requires Valid(slots, maxFileCount) && IsSuffix(Joined(slots), x)
    ensures IsSuffix(Joined(Written(slots, maxSize, maxFileCount, line)), x + [line])
  {
    WrittenJoins(slots, maxSize, maxFileCount, line);
    SuffixStep(x, Joined(slots), Dropped(slots, maxSize, maxFileCount),
      Joined(Written(slots, maxSize, maxFileCount, line)), line);
  }

  /** From any directory and for any count, what the files hold is a contiguous suffix of what was
      there followed by everything written. */
  lemma {:induction false} HistoryIsASuffix(slots: seq<Slot>, maxSize: int, maxFileCount: int, lines: seq<Line>)
    requires Valid(slots, maxFileCount)
    ensures IsSuffix(Joined(WriteAll(slots, maxSize, maxFileCount, lines)), Joined(slots) + lines)
    decreases |lines|
  {
    if lines == [] {
      SuffixOfItself(Joined(slots));
    } else {
      var init, line := lines[..|lines| - 1], lines[|lines| - 1];
      HistoryIsASuffix(slots, maxSize, maxFileCount, init);
      WriteKeepsSuffix(WriteAll(slots, maxSize, maxFileCount, init), maxSize, maxFileCount, Joined(slots) + init, line);
      WriteAllSnoc(slots, maxSize, maxFileCount, lines);
      LastComesLast(Joined(slots), lines);
    }
  }

  // ----- Size bounds -----

  function Empty(maxFileCount: int): (slots: seq<Slot>)
    ensures Valid(slots, maxFileCount)
  {
    seq(Depth(maxFileCount) + 1, _ => None)
  }

  /** A file that exists is never empty, so thresholds below one act like one. */
  function Threshold(maxSize: int): nat { Max(1, maxSize) }

  /** The largest a file can grow: a line is appended only below the threshold. */
  function FileLimit(maxSize: int, maxLine: nat): nat { Threshold(maxSize) - 1 + maxLine }

  predicate SlotOk(slot: Slot, maxSize: int, maxLine: nat) {
    slot.Some? ==> 1 <= Bytes(slot.value) <= FileLimit(maxSize, maxLine)
  }

  /** Numbered files fill up from events.1, and each is as large as the threshold. */
  predicate Packed(slots: seq<Slot>, maxSize: int, maxLine: nat) {
    && (forall i | 0 <= i < |slots| :: SlotOk(slots[i], maxSize, maxLine))
    && (forall i | 1 <= i < |slots| && slots[i].Some? :: Bytes(slots[i].value) >= Threshold(maxSize))
    && (forall i, j | 1 <= i < j < |slots| && slots[j].Some? :: slots[i].Some?)
  }

  lemma BytesSnoc(lines: seq<Line>, line: Line)
    ensures Bytes(lines + [line]) == Bytes(lines) + line.Size()
  {
    assert (lines + [line])[..|lines|] == lines;
  }

  lemma {:induction false} BytesConcat(a: seq<Line>, b: seq<Line>)
    ensures Bytes(a + b) == Bytes(a) + Bytes(b)
    decreases |b|
  {
    if b == [] {
      assert a + b == a;
    } else {
      var init, last := b[..|b| - 1], b[|b| - 1];
      assert a + b == a + init + [last];
      BytesSnoc(a + init, last);
      BytesConcat(a, init);
    }
  }

  lemma RotatedStaysPacked(slots: seq<Slot>, maxSize: int, maxFileCount: int, maxLine: nat)
    requires Valid(slots, maxFileCount) && maxFileCount >= 1
    requires Packed(slots, maxSize, maxLine) && NeedsRotation(slots, maxSize)
    ensures Packed(Rotated(slots, maxFileCount), maxSize, maxLine)
  {
    var s := Rotated(slots, maxFileCount);
    assert SlotOk(slots[0], maxSize, maxLine);
    assert forall i | 1 <= i < |s| :: s[i] == slots[i - 1];
  }

  lemma AppendedStaysPacked(s: seq<Slot>, maxSize: int, maxLine: nat, line: Line)
    requires s != [] && Packed(s, maxSize, maxLine) && line.Size() <= maxLine
    requires Bytes(Lines(s[0])) < Threshold(maxSize)
    ensures Packed(s[0 := Some(Lines(s[0]) + [line])], maxSize, maxLine)
  {
    BytesSnoc(Lines(s[0]), line);
    var t := s[0 := Some(Lines(s[0]) + [line])];
    assert SlotOk(t[0], maxSize, maxLine);
    assert forall i | 1 <= i < |t| :: t[i] == s[i];
  }

  lemma WrittenStaysPacked(slots: seq<Slot>, maxSize: int, maxFileCount: int, maxLine: nat, line: Line)
    requires Valid(slots, maxFileCount) && maxFileCount >= 1
    requires Packed(slots, maxSize, maxLine) && line.Size() <= maxLine
    ensures Packed(Written(slots, maxSize, maxFileCount, line), maxSize, maxLine)
  {
    if NeedsRotation(slots, maxSize) {
      RotatedStaysPacked(slots, maxSize, maxFileCount, maxLine);
      AppendedStaysPacked(Rotated(slots, maxFileCount), maxSize, maxLine, line);
    } else {
      assert SlotOk(slots[0], maxSize, maxLine);
      AppendedStaysPacked(slots, maxSize, maxLine, line);
    }
  }

  lemma FullStaysFull(slots: seq<Slot>, maxSize: int, maxFileCount: int, maxLine: nat, line: Line)
    requires Valid(slots, maxFileCount) && Packed(slots, maxSize, maxLine) && slots[|slots| - 1].Some?
    ensures var t := Written(slots, maxSize, maxFileCount, line); t[|t| - 1].Some?
  {
    if NeedsRotation(slots, maxSize) && maxFileCount >= 1 {
      assert Rotated(slots, maxFileCount)[|slots| - 1] == slots[|slots| - 2];
    }
  }

  /** While the last place is vacant, or if the count is below one, nothing is dropped. */
  lemma VacancyKeepsAll(slots: seq<Slot>, maxSize: int, maxFileCount: int, line: Line)
    requires Valid(slots, maxFileCount) && (slots[|slots| - 1].None? || maxFileCount < 1)
    ensures Joined(Written(slots, maxSize, maxFileCount, line)) == Joined(slots) + [line]
  {
    WrittenJoins(slots, maxSize, maxFileCount, line);
    assert Dropped(slots, maxSize, maxFileCount) == [];
  }

  predicate LinesFit(lines: seq<Line>, maxLine: nat) { forall i | 0 <= i < |lines| :: lines[i].Size() <= maxLine }

  lemma {:induction false} RunStaysPacked(maxSize: int, maxFileCount: int, maxLine: nat, lines: seq<Line>)
    requires maxFileCount >= 1 && LinesFit(lines, maxLine)
    ensures Packed(WriteAll(Empty(maxFileCount), maxSize, maxFileCount, lines), maxSize, maxLine)
    decreases |lines|
  {
    if lines != [] {
      var init := lines[..|lines| - 1];
      RunStaysPacked(maxSize, maxFileCount, maxLine, init);
      WrittenStaysPacked(WriteAll(Empty(maxFileCount), maxSize, maxFileCount, init),
        maxSize, maxFileCount, maxLine, lines[|lines| - 1]);
      WriteAllSnoc(Empty(maxFileCount), maxSize, maxFileCount, lines);
    }
  }

  /** Either the last place is in use, or all of `sofar` is still there. */
  predicate FullOrComplete(slots: seq<Slot>, sofar: seq<Line>)
    requires slots != []
  {
    slots[|slots| - 1].Some? || Joined(slots) == sofar
  }

  lemma WriteStaysFullOrComplete(
    slots: seq<Slot>, maxSize: int, maxFileCount: int, maxLine: nat, sofar: seq<Line>, line: Line)
    requires Valid(slots, maxFileCount) && Packed(slots, maxSize, maxLine) && FullOrComplete(slots, sofar)
    ensures FullOrComplete(Written(slots, maxSize, maxFileCount, line), sofar + [line])
  {
    if slots[|slots| - 1].Some? {
      FullStaysFull(slots, maxSize, maxFileCount, maxLine, line);
    } else {
      VacancyKeepsAll(slots, maxSize, maxFileCount, line);
    }
  }

  /** A line is missing only once the whole chain is in use. */
  lemma {:induction false} MissingMeansFull(maxSize: int, maxFileCount: int, maxLine: nat, lines: seq<Line>)
    requires maxFileCount >= 1 && LinesFit(lines, maxLine)
    ensures FullOrComplete(WriteAll(Empty(maxFileCount), maxSize, maxFileCount, lines), lines)
    decreases |lines|
  {
    if lines == [] {
      JoinedOfEmpty(Empty(maxFileCount));
    } else {
      var init, line := lines[..|lines| - 1], lines[|lines| - 1];
      RunStaysPacked(maxSize, maxFileCount, maxLine, init);
      MissingMeansFull(maxSize, maxFileCount, maxLine, init);
      var prior := WriteAll(Empty(maxFileCount), maxSize, maxFileCount, init);
      WriteStaysFullOrComplete(prior, maxSize, maxFileCount, maxLine, init, line);
      WriteAllSnoc(Empty(maxFileCount), maxSize, maxFileCount, lines);
      InitAndLast(lines);
    }
  }

  lemma {:induction false} JoinedOfEmpty(slots: seq<Slot>)
    requires forall i | 0 <= i < |slots| :: slots[i].None?
    ensures Joined(slots) == []
    decreases |slots|
  {
    if slots != [] { JoinedOfEmpty(slots[1..]); }
  }

  /** n * x as a sum. */
  function Times(n: nat, x: nat): nat { if n == 0 then 0 else Times(n - 1, x) + x }

  lemma {:induction false} TimesIsProduct(n: nat, x: nat)
    ensures Times(n, x) == n * x
  {
    if n > 0 {
      TimesIsProduct(n - 1, x);
      assert n * x == (n - 1) * x + x;
    }
  }

  lemma {:induction false} SlotsAtMost(slots: seq<Slot>, high: nat)
    requires forall i | 0 <= i < |slots| :: Bytes(Lines(slots[i])) <= high
    ensures Bytes(Joined(slots)) <= Times(|slots|, high)
    decreases |slots|
  {
    if slots != [] {
      SlotsAtMost(slots[1..], high);
      BytesConcat(Joined(slots[1..]), Lines(slots[0]));
    }
  }

  lemma {:induction false} SlotsAtLeast(slots: seq<Slot>, low: nat)
    requires forall i | 0 <= i < |slots| :: low <= Bytes(Lines(slots[i]))
    ensures Bytes(Joined(slots)) >= Times(|slots|, low)
    decreases |slots|
  {
    if slots != [] {
      SlotsAtLeast(slots[1..], low);
      BytesConcat(Joined(slots[1..]), Lines(slots[0]));
    }
  }

  lemma PackedSize(slots: seq<Slot>, maxSize: int, maxLine: nat)
    requires Packed(slots, maxSize, maxLine)
    ensures Bytes(Joined(slots)) <= Times(|slots|, FileLimit(maxSize, maxLine))
  {
    forall i | 0 <= i < |slots| ensures Bytes(Lines(slots[i])) <= FileLimit(maxSize, maxLine) {
      assert SlotOk(slots[i], maxSize, maxLine);
    }
    SlotsAtMost(slots, FileLimit(maxSize, maxLine));
  }

  lemma AllButNewestAtLeast(slots: seq<Slot>, low: nat)
    requires slots != [] && forall i | 1 <= i < |slots| :: low <= Bytes(Lines(slots[i]))
    ensures Bytes(Joined(slots)) >= Times(|slots| - 1, low)
  {
    SlotsAtLeast(slots[1..], low);
    BytesConcat(Joined(slots[1..]), Lines(slots[0]));
  }

  lemma FullMeansLarge(slots: seq<Slot>, maxSize: int, maxLine: nat, i: nat)
    requires Packed(slots, maxSize, maxLine) && slots != [] && slots[|slots| - 1].Some?
    requires 1 <= i < |slots|
    ensures Threshold(maxSize) <= Bytes(Lines(slots[i]))
  {
    assert slots[i].Some?;
  }

  lemma FullSize(slots: seq<Slot>, maxSize: int, maxLine: nat)
    requires slots != [] && Packed(slots, maxSize, maxLine) && slots[|slots| - 1].Some?
    ensures Bytes(Joined(slots)) >= Times(|slots| - 1, Threshold(maxSize))
  {
    var low := Threshold(maxSize);
    forall i | 1 <= i < |slots| ensures low <= Bytes(Lines(slots[i])) {
      FullMeansLarge(slots, maxSize, maxLine, i);
    }
    AllButNewestAtLeast(slots, low);
  }

  /** Starting from no files: all files together never exceed (count + 1) * (threshold - 1 + line)
      bytes, and once any line has been dropped at least count * threshold bytes are kept. */
  lemma SizeIsBounded(maxSize: int, maxFileCount: int, maxLine: nat, lines: seq<Line>)
    requires maxFileCount >= 1 && LinesFit(lines, maxLine)
    ensures
      var kept := Joined(WriteAll(Empty(maxFileCount), maxSize, maxFileCount, lines));
      && Bytes(kept) <= (maxFileCount + 1) * FileLimit(maxSize, maxLine)
      && (kept != lines ==> Bytes(kept) >= maxFileCount * Threshold(maxSize))
  {
    var s := WriteAll(Empty(maxFileCount), maxSize, maxFileCount, lines);
    RunStaysPacked(maxSize, maxFileCount, maxLine, lines);
    MissingMeansFull(maxSize, maxFileCount, maxLine, lines);
    PackedSize(s, maxSize, maxLine);
    if Joined(s) != lines { FullSize(s, maxSize, maxLine); }
    TimesIsProduct(maxFileCount + 1, FileLimit(maxSize, maxLine));
    TimesIsProduct(maxFileCount, Threshold(maxSize));
  }

  /** With a count below one nothing is ever dropped, so no bound on the size holds. */
  lemma {:induction false} CountBelowOneKeepsEverything(maxSize: int, maxFileCount: int, lines: seq<Line>)
    requires maxFileCount < 1
    ensures Joined(WriteAll(Empty(maxFileCount), maxSize, maxFileCount, lines)) == lines
    decreases |lines|
  {
    if lines == [] {
      JoinedOfEmpty(Empty(maxFileCount));
    } else {
      var init, line := lines[..|lines| - 1], lines[|lines| - 1];
      CountBelowOneKeepsEverything(maxSize, maxFileCount, init);
      VacancyKeepsAll(WriteAll(Empty(maxFileCount), maxSize, maxFileCount, init), maxSize, maxFileCount, line);
      WriteAllSnoc(Empty(maxFileCount), maxSize, maxFileCount, lines);
      InitAndLast(lines);
    }
  }

  /** `n` lines of one byte each. */
  function Newlines(n: nat): (lines: seq<Line>)
    ensures |lines| == n && forall i | 0 <= i < n :: lines[i] == Line([])
  {
    seq(n, _ => Line([]))
  }

  lemma {:induction false} NewlinesSize(n: nat)
    ensures Bytes(Newlines(n)) == n
    decreases n
  {
    if n > 0 {
      NewlinesSize(n - 1);
      assert Newlines(n) == Newlines(n - 1) + [Line([])];
      BytesSnoc(Newlines(n - 1), Line([]));
    }
  }

  /** Whatever is written, the files stay within the bound. */
  ghost predicate BoundedBy(maxSize: int, maxFileCount: int, maxLine: nat, bound: nat) {
    forall lines | LinesFit(lines, maxLine) ::
      Bytes(Joined(WriteAll(Empty(maxFileCount), maxSize, maxFileCount, lines))) <= bound
  }

  /** Some bound holds for all runs exactly when the count is at least one. */
  lemma SizeIsBoundedExactly(maxSize: int, maxFileCount: int, maxLine: nat)
    requires maxLine >= 1
    ensures (exists bound: nat :: BoundedBy(maxSize, maxFileCount, maxLine, bound)) <==> maxFileCount >= 1
  {
    if maxFileCount >= 1 {
      var bound := (maxFileCount + 1) * FileLimit(maxSize, maxLine);
      forall lines | LinesFit(lines, maxLine)
        ensures Bytes(Joined(WriteAll(Empty(maxFileCount), maxSize, maxFileCount, lines))) <= bound
      {
        SizeIsBounded(maxSize, maxFileCount, maxLine, lines);
      }
      assert BoundedBy(maxSize, maxFileCount, maxLine, bound);
    } else {
      forall bound: nat ensures !BoundedBy(maxSize, maxFileCount, maxLine, bound) {
        CountBelowOneKeepsEverything(maxSize, maxFileCount, Newlines(bound + 1));
        NewlinesSize(bound + 1);
        assert LinesFit(Newlines(bound + 1), maxLine);
      }
    }
  }
}
