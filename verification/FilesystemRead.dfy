/**
 * Chunked reading of a text file: a chunk that ends inside a character is cut back to the
 * last whole character. Decoding with a fatal decoder is well-formedness of the bytes.
 */
module FilesystemRead {
  import opened Wrappers
  import opened Utf8

  const BINARY_CHECK_LENGTH := 8192

  datatype ReadResult =
    | Text(content: seq<Byte>, nextOffset: nat, truncated: bool)
    | BinaryFile
    | LimitTooSmall
    | InvalidUtf8

  /** The length that a leading byte announces; 1 for one that announces none. */
  function AnnouncedLength(b: Byte): (n: nat) {
    if b & 0xe0 == 0xc0 then 2 else if b & 0xf0 == 0xe0 then 3 else if b & 0xf8 == 0xf0 then 4 else 1
  }

  /** What the backwards scan finds from the `i`-th last byte on. */
  function TrimFrom(buffer: seq<Byte>, i: nat): (k: nat)
    requires 1 <= i
    ensures k <= |buffer|
    decreases 5 - i
  {
    if i > 4 || i > |buffer| then |buffer|
    else
      var b := buffer[|buffer| - i];
      if b & 0x80 == 0 then |buffer|
      else if b & 0xc0 == 0xc0 then (if i < AnnouncedLength(b) then |buffer| - i else |buffer|)
      else TrimFrom(buffer, i + 1)
  }

  method TrimIncompleteUtf8Sequence(buffer: seq<Byte>) returns (length: nat)
    ensures length == TrimFrom(buffer, 1)
  {
    if |buffer| == 0 {
      return 0;
    }
    var i := 1;
    while i <= Min(4, |buffer|)
      invariant 1 <= i <= Min(4, |buffer|) + 1
      invariant TrimFrom(buffer, 1) == TrimFrom(buffer, i)
    {
      var b := buffer[|buffer| - i];
      if b & 0x80 == 0 {
        return |buffer|;
      }
      if b & 0xc0 == 0xc0 {
        var expectedLength := 1;
        if b & 0xe0 == 0xc0 {
          expectedLength := 2;
        } else if b & 0xf0 == 0xe0 {
          expectedLength := 3;
        } else if b & 0xf8 == 0xf0 {
          expectedLength := 4;
        }
        if i < expectedLength {
          return |buffer| - i;
        }
        return |buffer|;
      }
      i := i + 1;
    }
    length := |buffer|;
  }

  predicate HasNul(buffer: seq<Byte>) {
    exists i :: 0 <= i < |buffer| && i < BINARY_CHECK_LENGTH && buffer[i] == 0
  }

  method IsBinaryBuffer(buffer: seq<Byte>) returns (binary: bool)
    ensures binary == HasNul(buffer)
  {
    var checkLength := Min(|buffer|, BINARY_CHECK_LENGTH);
    for i := 0 to checkLength
      invariant forall j | 0 <= j < i :: buffer[j] != 0
    {
      if buffer[i] == 0 {
        return true;
      }
    }
    binary := false;
  }

  function Window(file: seq<Byte>, offset: nat, limit: nat): seq<Byte> {
    if offset >= |file| then [] else file[offset..offset + Min(limit, |file| - offset)]
  }

  /** How much of the window is kept; the end of the file is never cut. */
  function KeptLength(file: seq<Byte>, offset: nat, limit: nat): (k: nat)
    ensures k <= |Window(file, offset, limit)|
  {
    var buffer := Window(file, offset, limit);
    if offset + |buffer| < |file| then TrimFrom(buffer, 1) else |buffer|
  }

  function Decode(kept: seq<Byte>, offset: nat, size: nat): ReadResult {
    if WellFormed(kept) then Text(kept, offset + |kept|, offset + |kept| < size) else InvalidUtf8
  }

  /** A read, for the file contents found on disk. */
  function Chunk(file: seq<Byte>, offset: nat, limit: nat): ReadResult {
    var buffer := Window(file, offset, limit);
    var kept := KeptLength(file, offset, limit);
    if HasNul(buffer) then BinaryFile
    else if |buffer| > 0 && kept == 0 then LimitTooSmall
    else Decode(buffer[..kept], offset, |file|)
  }

  method Read(file: seq<Byte>, offset: nat, limit: nat) returns (r: ReadResult)
    ensures r == Chunk(file, offset, limit)
  {
    var readLength := Max(0, Min(limit, |file| - offset));
    var rawBuffer := [];
    if readLength > 0 {
      rawBuffer := file[offset..offset + readLength];
    }
    assert rawBuffer == Window(file, offset, limit);
    var binary := IsBinaryBuffer(rawBuffer);
    if binary {
      return BinaryFile;
    }
    var validLength := readLength;
    if offset + readLength < |file| {
      validLength := TrimIncompleteUtf8Sequence(rawBuffer);
    }
    if readLength > 0 && validLength == 0 {
      return LimitTooSmall;
    }
    if !WellFormed(rawBuffer[..validLength]) {
      return InvalidUtf8;
    }
    r := Text(rawBuffer[..validLength], offset + validLength, offset + validLength < |file|);
  }

  // --- The scan finds the last boundary ----------------------------------------------------------------

  lemma TailByte(b: Byte)
    ensures IsTail(b) <==> b & 0x80 != 0 && b & 0xc0 != 0xc0
    ensures b <= 0x7F <==> b & 0x80 == 0
  {
  }

  lemma LeadByte(b: Byte)
    ensures 0xC2 <= b <= 0xDF ==> b & 0x80 != 0 && b & 0xc0 == 0xc0 && AnnouncedLength(b) == 2
    ensures 0xE0 <= b <= 0xEF ==> b & 0x80 != 0 && b & 0xc0 == 0xc0 && AnnouncedLength(b) == 3
    ensures 0xF0 <= b <= 0xF4 ==> b & 0x80 != 0 && b & 0xc0 == 0xc0 && AnnouncedLength(b) == 4
  {
  }

  /** The bytes of a character: one ASCII byte, or a leading byte that tells how many tails follow. */
  lemma CharShape(s: seq<Byte>, i: nat)
    requires i < |s| && CharLength(s, i) > 0
    ensures CharLength(s, i) == 1 <==> s[i] & 0x80 == 0
    ensures CharLength(s, i) > 1 ==> s[i] & 0xc0 == 0xc0 && AnnouncedLength(s[i]) == CharLength(s, i)
    ensures forall k | i < k < i + CharLength(s, i) :: IsTail(s[k])
  {
    LeadByte(s[i]);
    TailByte(s[i]);
  }

  /** Tail bytes are skipped. */
  lemma {:induction false} ScanSkipsTails(buffer: seq<Byte>, i: nat, lead: nat)
    requires 1 <= i <= lead <= 4 && lead <= |buffer|
    requires forall j | |buffer| - lead < j <= |buffer| - i :: IsTail(buffer[j])
    ensures TrimFrom(buffer, i) == TrimFrom(buffer, lead)
    decreases lead - i
  {
    if i < lead {
      TailByte(buffer[|buffer| - i]);
      ScanSkipsTails(buffer, i + 1, lead);
    }
  }

  /** A window that ends in the character at `start`: if not all of it is there, it is cut off. */
  lemma ScanCutsPart(s: seq<Byte>, from: nat, end: nat, start: nat)
    requires from <= start < end <= |s| && 0 < CharLength(s, start) && end <= start + CharLength(s, start)
    ensures TrimFrom(s[from..end], 1) == (if end < start + CharLength(s, start) then start else end) - from
  {
    var buffer, lead := s[from..end], end - start;
    CharShape(s, start);
    assert buffer[|buffer| - lead] == s[start];
    forall j | |buffer| - lead < j <= |buffer| - 1 ensures IsTail(buffer[j]) {
      assert buffer[j] == s[from + j];
    }
    ScanSkipsTails(buffer, 1, lead);
  }

  /** Where the character begins that the bytes up to `end` end in. */
  function PartStart(s: seq<Byte>, i: nat, end: nat): (k: nat)
    requires i < end <= |s| && Reaches(s, i, |s|)
    ensures i <= k < end && 0 < CharLength(s, k) && end <= k + CharLength(s, k)
    ensures LastReached(s, i, end) == if end < k + CharLength(s, k) then k else end
    decreases |s| - i
  {
    if end <= i + CharLength(s, i) then i else PartStart(s, i + CharLength(s, i), end)
  }

  /** Whole characters are left alone, and a part of the next one is cut off. */
  lemma TrimIsLastBoundary(s: seq<Byte>, from: nat, end: nat)
    requires from <= end <= |s| && Reaches(s, from, |s|)
    ensures from + TrimFrom(s[from..end], 1) == LastReached(s, from, end)
  {
    if from < end {
      ScanCutsPart(s, from, end, PartStart(s, from, end));
    }
  }

  // --- What a read returns -----------------------------------------------------------------------------

  lemma {:induction false} InsideCharacterIsTail(s: seq<Byte>, i: nat, k: nat)
    requires i <= k < |s| && Reaches(s, i, |s|) && !Reaches(s, i, k)
    ensures IsTail(s[k])
    decreases |s| - i
  {
    var c := CharLength(s, i);
    if k < i + c {
      CharShape(s, i);
    } else {
      InsideCharacterIsTail(s, i + c, k);
    }
  }

  lemma KeptIsSlice(file: seq<Byte>, offset: nat, limit: nat)
    requires offset <= |file|
    ensures
      var next := offset + KeptLength(file, offset, limit);
      next <= |file| && next <= offset + limit
      && Window(file, offset, limit)[..KeptLength(file, offset, limit)] == file[offset..next]
  {
  }

  /** Any read, of any file: the bytes kept are returned exactly when whole characters make them up. */
  lemma ChunkIs(file: seq<Byte>, offset: nat, limit: nat)
    requires offset <= |file|
    ensures
      var next := offset + KeptLength(file, offset, limit);
      && next <= |file|
      && Chunk(file, offset, limit)
         == if HasNul(Window(file, offset, limit)) then BinaryFile
            else if next == offset && |Window(file, offset, limit)| > 0 then LimitTooSmall
            else if Reaches(file, offset, next) then Text(file[offset..next], next, next < |file|)
            else InvalidUtf8
  {
    KeptIsSlice(file, offset, limit);
    SliceWellFormed(file, offset, offset + KeptLength(file, offset, limit));
  }

  /** Of a valid file, a read that starts inside a character never succeeds. */
  lemma MisalignedReadFails(file: seq<Byte>, offset: nat, limit: nat)
    requires WellFormed(file) && 1 <= limit && offset < |file| && !Boundary(file, offset)
    ensures !Chunk(file, offset, limit).Text?
  {
    InsideCharacterIsTail(file, 0, offset);
    ChunkIs(file, offset, limit);
  }

  /** The bytes a read at a boundary keeps are those up to the last boundary within the limit. */
  lemma AlignedReadKeeps(file: seq<Byte>, offset: nat, limit: nat)
    requires WellFormed(file) && offset < |file| && Boundary(file, offset)
    ensures offset + KeptLength(file, offset, limit) == LastReached(file, offset, offset + limit)
  {
    ReachesSplits(file, 0, offset, |file|);
    var end := offset + |Window(file, offset, limit)|;
    if end < |file| {
      TrimIsLastBoundary(file, offset, end);
    } else {
      LastReachedIsLargest(file, offset, offset + limit, |file|);
    }
  }

  /**
   * Of a valid file, a read inside the file succeeds exactly when no NUL is among the first
   * 8192 bytes it reads, it starts at a character boundary and the character there fits the
   * limit.
   */
  lemma ReadSucceedsExactly(file: seq<Byte>, offset: nat, limit: nat)
    requires WellFormed(file) && 1 <= limit && offset < |file|
    ensures
      Chunk(file, offset, limit).Text? <==>
        && !HasNul(Window(file, offset, limit))
        && Boundary(file, offset) && CharLength(file, offset) <= limit
  {
    if !Boundary(file, offset) {
      MisalignedReadFails(file, offset, limit);
    } else {
      AlignedReadKeeps(file, offset, limit);
      ChunkIs(file, offset, limit);
      LastReachedIsReached(file, offset, offset + limit);
      ReachesSplits(file, 0, offset, |file|);
    }
  }

  /** Of any file, what a read returns are the bytes up to `nextOffset`, and they are valid text. */
  lemma TextOfChunk(file: seq<Byte>, offset: nat, limit: nat)
    requires offset <= |file| && Chunk(file, offset, limit).Text?
    ensures
      var r := Chunk(file, offset, limit);
      && offset <= r.nextOffset <= |file| && r.nextOffset <= offset + limit
      && r.content == file[offset..r.nextOffset] && Reaches(file, offset, r.nextOffset)
      && r.truncated == (r.nextOffset < |file|)
      && (r.truncated && limit > 0 ==> offset < r.nextOffset)
  {
    ChunkIs(file, offset, limit);
    KeptIsSlice(file, offset, limit);
  }

  predicate IsLastBoundary(file: seq<Byte>, next: nat, end: nat) {
    next <= end && Boundary(file, next) && (forall k: nat | k <= end && Boundary(file, k) :: k <= next)
  }

  /** A read that succeeds makes progress, up to the last boundary within the limit. */
  lemma ReadEndsAtLastBoundary(file: seq<Byte>, offset: nat, limit: nat)
    requires WellFormed(file) && 1 <= limit && offset < |file| && Chunk(file, offset, limit).Text?
    ensures offset < Chunk(file, offset, limit).nextOffset
    ensures IsLastBoundary(file, Chunk(file, offset, limit).nextOffset, offset + limit)
  {
    ReadSucceedsExactly(file, offset, limit);
    TextOfChunk(file, offset, limit);
    AlignedReadKeeps(file, offset, limit);
    ChunkIs(file, offset, limit);
    var next := LastReached(file, offset, offset + limit);
    assert Chunk(file, offset, limit).nextOffset == next;
    ReachesCompose(file, 0, offset, next);
    forall k: nat | k <= offset + limit && Boundary(file, k) ensures k <= next {
      if offset < k {
        ReachesSplits(file, 0, offset, k);
        LastReachedIsLargest(file, offset, offset + limit, k);
      }
    }
  }

  /** A file counts as binary exactly if a NUL is among the bytes read, and within the first 8192 of them. */
  lemma BinaryExactly(file: seq<Byte>, offset: nat, limit: nat)
    ensures Chunk(file, offset, limit).BinaryFile? <==>
      exists i :: offset <= i < |file| && i < offset + limit && i < offset + 8192 && file[i] == 0
  {
    var buffer := Window(file, offset, limit);
    if HasNul(buffer) {
      var j :| 0 <= j < |buffer| && j < BINARY_CHECK_LENGTH && buffer[j] == 0;
      assert file[offset + j] == 0;
    }
    if i :| offset <= i < |file| && i < offset + limit && i < offset + 8192 && file[i] == 0 {
      assert buffer[i - offset] == 0;
    }
  }

  /** Why a read of a valid file fails, without a NUL: inside a character, or at one that is too long for the limit. */
  lemma FailureTellsWhy(file: seq<Byte>, offset: nat, limit: nat)
    requires WellFormed(file) && 1 <= limit && offset < |file| && !Chunk(file, offset, limit).BinaryFile?
    ensures Chunk(file, offset, limit).InvalidUtf8? <==> !Boundary(file, offset)
    ensures Chunk(file, offset, limit).LimitTooSmall? <==> Boundary(file, offset) && CharLength(file, offset) > limit
  {
    ChunkIs(file, offset, limit);
    ReadSucceedsExactly(file, offset, limit);
    if Boundary(file, offset) {
      AlignedReadKeeps(file, offset, limit);
      LastReachedIsReached(file, offset, offset + limit);
    } else {
      InsideCharacterIsTail(file, 0, offset);
      TailKeepsSome(file, offset, limit);
    }
  }

  lemma {:induction false} ScanFromTail(buffer: seq<Byte>, i: nat)
    requires 1 <= i && buffer != [] && IsTail(buffer[0])
    ensures TrimFrom(buffer, i) > 0
    decreases 5 - i
  {
    TailByte(buffer[0]);
    if i <= 4 && i <= |buffer| {
      ScanFromTail(buffer, i + 1);
    }
  }

  lemma TailKeepsSome(file: seq<Byte>, offset: nat, limit: nat)
    requires 1 <= limit && offset < |file| && IsTail(file[offset])
    ensures KeptLength(file, offset, limit) > 0
  {
    var buffer := Window(file, offset, limit);
    assert buffer[0] == file[offset];
    ScanFromTail(buffer, 1);
  }

  lemma ReadPastTheEndIsEmpty(file: seq<Byte>, offset: nat, limit: nat)
    ensures offset >= |file| ==> Chunk(file, offset, limit) == Text([], offset, false)
    ensures offset < |file| && limit >= 1 ==> Chunk(file, offset, limit) != Text([], offset, false)
  {
  }

  // --- Following nextOffset ----------------------------------------------------------------------------

  /** A reader that follows `nextOffset` reaches the end of the file without an error. */
  predicate ReadsThrough(file: seq<Byte>, offset: nat, limit: nat)
    requires 1 <= limit && offset <= |file|
    decreases |file| - offset
  {
    var r := Chunk(file, offset, limit);
    && r.Text?
    && (TextOfChunk(file, offset, limit); r.truncated ==> ReadsThrough(file, r.nextOffset, limit))
  }

  /** The chunks that such a reader receives. */
  function Slices(file: seq<Byte>, offset: nat, limit: nat): seq<seq<Byte>>
    requires 1 <= limit && offset <= |file| && ReadsThrough(file, offset, limit)
    decreases |file| - offset
  {
    TextOfChunk(file, offset, limit);
    var r := Chunk(file, offset, limit);
    [r.content] + if r.truncated then Slices(file, r.nextOffset, limit) else []
  }

  function Joined(slices: seq<seq<Byte>>): seq<Byte> {
    if slices == [] then [] else slices[0] + Joined(slices[1..])
  }

  predicate AllText(slices: seq<seq<Byte>>, limit: nat) {
    slices == [] || (WellFormed(slices[0]) && |slices[0]| <= limit && AllText(slices[1..], limit))
  }

  /** Characters within a short stretch are short; whether the others fit is decided behind it. */
  lemma {:induction false} ShortTextFits(s: seq<Byte>, i: nat, k: nat, limit: nat)
    requires i <= |s| && Reaches(s, i, k) && k <= |s| && k - i <= limit
    ensures CharsFit(s, i, limit) == CharsFit(s, k, limit)
    decreases |s| - i
  {
    if i != k {
      ReachedIsWithin(s, i + CharLength(s, i), k);
      ShortTextFits(s, i + CharLength(s, i), k, limit);
    }
  }

  /** Whoever reads through has read valid text, no character of it beyond the limit. */
  lemma {:induction false} ReadThroughIsValidText(file: seq<Byte>, offset: nat, limit: nat)
    requires 1 <= limit && offset <= |file| && ReadsThrough(file, offset, limit)
    ensures Reaches(file, offset, |file|) && CharsFit(file, offset, limit)
    decreases |file| - offset
  {
    TextOfChunk(file, offset, limit);
    var next := Chunk(file, offset, limit).nextOffset;
    ShortTextFits(file, offset, next, limit);
    if next < |file| {
      ReadThroughIsValidText(file, next, limit);
      ReachesCompose(file, offset, next, |file|);
    }
  }

  /** The slices tile the rest of the file, and each is valid text on its own. */
  lemma {:induction false} SlicesTile(file: seq<Byte>, offset: nat, limit: nat)
    requires 1 <= limit && offset <= |file| && ReadsThrough(file, offset, limit)
    ensures Joined(Slices(file, offset, limit)) == file[offset..]
    ensures AllText(Slices(file, offset, limit), limit)
    decreases |file| - offset
  {
    TextOfChunk(file, offset, limit);
    var r := Chunk(file, offset, limit);
    SliceWellFormed(file, offset, r.nextOffset);
    if r.truncated {
      SlicesTile(file, r.nextOffset, limit);
      ConsSlices(r.content, Slices(file, r.nextOffset, limit), limit);
      assert file[offset..] == r.content + file[r.nextOffset..];
    } else {
      ConsSlices(r.content, [], limit);
    }
  }

  lemma ConsSlices(first: seq<Byte>, rest: seq<seq<Byte>>, limit: nat)
    ensures Joined([first] + rest) == first + Joined(rest)
    ensures AllText([first] + rest, limit) == (WellFormed(first) && |first| <= limit && AllText(rest, limit))
  {
    assert ([first] + rest)[1..] == rest;
  }

  predicate NoNul(file: seq<Byte>) {
    forall i | 0 <= i < |file| :: file[i] != 0
  }

  lemma {:induction false} ValidTextReadsThrough(file: seq<Byte>, offset: nat, limit: nat)
    requires 1 <= limit && offset <= |file| && NoNul(file)
    requires WellFormed(file) && Boundary(file, offset) && CharsFit(file, offset, limit)
    ensures ReadsThrough(file, offset, limit)
    decreases |file| - offset
  {
    if offset < |file| {
      ReachesSplits(file, 0, offset, |file|);
      ReadSucceedsExactly(file, offset, limit);
      TextOfChunk(file, offset, limit);
      ReadEndsAtLastBoundary(file, offset, limit);
      var next := Chunk(file, offset, limit).nextOffset;
      ShortTextFits(file, offset, next, limit);
      ValidTextReadsThrough(file, next, limit);
    } else {
      ReadPastTheEndIsEmpty(file, offset, limit);
    }
  }

  /**
   * For a file without NUL bytes, following `nextOffset` from 0 reaches the end exactly when
   * the file is valid UTF-8 and no character is longer than the limit.
   */
  lemma ReadsThroughExactlyValidText(file: seq<Byte>, limit: nat)
    requires 1 <= limit && NoNul(file)
    ensures ReadsThrough(file, 0, limit) <==> WellFormed(file) && CharsFit(file, 0, limit)
  {
    if ReadsThrough(file, 0, limit) {
      ReadThroughIsValidText(file, 0, limit);
    }
    if WellFormed(file) && CharsFit(file, 0, limit) {
      ValidTextReadsThrough(file, 0, limit);
    }
  }

  lemma {:induction false} FourBytesAlwaysFit(s: seq<Byte>, i: nat, limit: nat)
    requires 4 <= limit && i <= |s|
    ensures CharsFit(s, i, limit)
    decreases |s| - i
  {
    if CharLength(s, i) > 0 {
      FourBytesAlwaysFit(s, i + CharLength(s, i), limit);
    }
  }

  /** With a limit of four bytes or more, every valid text file is read through, tile by tile. */
  lemma ValidTextIsTiled(file: seq<Byte>, limit: nat)
    requires 4 <= limit && NoNul(file) && WellFormed(file)
    ensures ReadsThrough(file, 0, limit)
    ensures Joined(Slices(file, 0, limit)) == file
    ensures AllText(Slices(file, 0, limit), limit)
  {
    FourBytesAlwaysFit(file, 0, limit);
    ReadsThroughExactlyValidText(file, limit);
    SlicesTile(file, 0, limit);
    assert file[0..] == file;
  }
}
