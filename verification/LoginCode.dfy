/**
 The hidden login-code reader: bytes arrive in chunks of any size, each accepted byte shows one
 mask character, and the paste markers some terminals add are neither shown nor submitted.
 */
module LoginCode {
  import opened Options
  import opened Utf8

  const PASTE_START: seq<byte> := [0x1b, 0x5b, 0x32, 0x30, 0x30, 0x7e]
  const PASTE_END: seq<byte> := [0x1b, 0x5b, 0x32, 0x30, 0x31, 0x7e]
  const MAX_BYTES: nat := 256

  // ----- the two ways of taking the markers off

  /** What `finish` submits of the decoded text: the leading marker first, then the trailing one off what remains. */
  function StripText(text: seq<CodePoint>): seq<CodePoint> {
    var rest := if Starts(text, PASTE_START) then text[|PASTE_START|..] else text;
    if Ends(rest, PASTE_END) then rest[..|rest| - |PASTE_END|] else rest
  }

  function Submission(bytes: seq<byte>): seq<CodePoint> {
    StripText(Decode(bytes))
  }

  /** The bytes between the markers. */
  function Strip(bytes: seq<byte>): seq<byte> {
    var rest := if Starts(bytes, PASTE_START) then bytes[|PASTE_START|..] else bytes;
    if Ends(rest, PASTE_END) then rest[..|rest| - |PASTE_END|] else rest
  }

  /** Taking the markers off the text is taking them off the bytes, whatever ill-formed bytes are around them. */
  lemma SubmissionIsStripped(bytes: seq<byte>)
    ensures Submission(bytes) == Decode(Strip(bytes))
  {
    StartsAlike(bytes, PASTE_START);
    var rest := if Starts(bytes, PASTE_START) then bytes[|PASTE_START|..] else bytes;
    if Starts(bytes, PASTE_START) {
      assert bytes == PASTE_START + rest;
      AsciiBefore(PASTE_START, rest);
      assert Decode(bytes)[|PASTE_START|..] == Decode(rest);
    }
    EndsAlike(rest, PASTE_END);
    if Ends(rest, PASTE_END) {
      var front := rest[..|rest| - |PASTE_END|];
      assert rest == front + PASTE_END;
      AsciiAfter(front, PASTE_END);
      assert Decode(rest)[..|Decode(front)|] == Decode(front);
    }
  }

  /** What is counted for the screen: both markers looked for on the whole buffer. */
  function UnclampedLength(bytes: seq<byte>): int {
    |bytes|
    - (if Starts(bytes, PASTE_START) then |PASTE_START| else 0)
    - (if Ends(bytes, PASTE_END) then |PASTE_END| else 0)
  }

  function MaskedLength(bytes: seq<byte>): nat {
    if UnclampedLength(bytes) < 0 then 0 else UnclampedLength(bytes)
  }

  /** A buffer too short to hold both markers side by side cannot match both: they cannot overlap. */
  lemma MarkersCannotOverlap(s: seq<byte>)
    requires Starts(s, PASTE_START) && Ends(s, PASTE_END)
    ensures |s| >= 12
  {
    var k := |s| - 6;
    assert s[..6][0] == s[0] && s[..6][1] == s[1] && s[..6][2] == s[2];
    assert s[..6][3] == s[3] && s[..6][4] == s[4] && s[..6][5] == s[5];
    assert s[k..][0] == s[k] && s[k..][4] == s[k + 4];
  }

  /** The mask counts the bytes between the markers on every buffer, so the clamp at zero is never used. */
  lemma MaskCountsBytesBetweenMarkers(bytes: seq<byte>)
    ensures MaskedLength(bytes) == |Strip(bytes)|
    ensures UnclampedLength(bytes) >= 0
  {
    if Starts(bytes, PASTE_START) {
      var rest := bytes[6..];
      if |rest| >= 6 {
        assert rest[|rest| - 6..] == bytes[|bytes| - 6..];
      } else if Ends(bytes, PASTE_END) {
        MarkersCannotOverlap(bytes);
      }
    }
  }

  /**
   The bytes of the submitted text are the bytes between the markers if and only if those are well-formed UTF-8. The
   stars are never more than the submitted bytes, and as many if and only if every ill-formed part is three bytes long.
   */
  lemma MaskCountsWhatIsSubmitted(bytes: seq<byte>)
    ensures Encode(Submission(bytes)) == Strip(bytes) <==> WellFormed(Strip(bytes))
    ensures MaskedLength(bytes) <= |Encode(Submission(bytes))|
    ensures MaskedLength(bytes) == |Encode(Submission(bytes))| <==> GapsOfThree(Strip(bytes))
    ensures REPLACEMENT !in Submission(bytes) ==> Encode(Submission(bytes)) == Strip(bytes)
  {
    hide Decode, Encode, Strip, Submission, WellFormed, GapsOfThree, MaskedLength;
    SubmissionIsStripped(bytes);
    MaskCountsBytesBetweenMarkers(bytes);
    ReadsBackIffWellFormed(Strip(bytes));
    LengthReadsBackIff(Strip(bytes));
    if REPLACEMENT !in Submission(bytes) {
      CleanTextWasWellFormed(Strip(bytes));
    }
  }

  /** One ill-formed byte shows one star and is submitted as three bytes. */
  lemma IllFormedByteShowsOneStar()
    ensures MaskedLength([0xFF]) == 1 && Submission([0xFF]) == [REPLACEMENT]
    ensures Encode(Submission([0xFF])) == [0xEF, 0xBF, 0xBD]
  {
    var bytes: seq<byte> := [0xFF];
    assert bytes[1..] == [] && Decode(bytes) == [REPLACEMENT];
    var text := [REPLACEMENT];
    assert text[1..] == [] && EncodeOne(REPLACEMENT) == [0xEF, 0xBF, 0xBD];
  }

  // ----- reading, one byte after the other

  datatype Outcome = Submitted(value: seq<CodePoint>) | Interrupted | Ended | TooLong

  datatype Reader = Reading(bytes: seq<byte>) | Done(outcome: Outcome)

  function Feed(r: Reader, b: byte): Reader {
    match r
    case Done(_) => r
    case Reading(bytes) =>
      if b == 0x03 then Done(Interrupted)
      else if b == 0x04 then Done(Ended)
      else if b == 0x0d || b == 0x0a then Done(Submitted(Submission(bytes)))
      else if b == 0x08 || b == 0x7f then Reading(if bytes == [] then [] else bytes[..|bytes| - 1])
      else if |bytes| >= MAX_BYTES then Done(TooLong)
      else Reading(bytes + [b])
  }

  function FeedAll(r: Reader, bs: seq<byte>): Reader
    decreases |bs|
  {
    if bs == [] then r else FeedAll(Feed(r, bs[0]), bs[1..])
  }

  lemma {:induction false} FeedAppend(r: Reader, a: seq<byte>, b: seq<byte>)
    ensures FeedAll(r, a + b) == FeedAll(FeedAll(r, a), b)
    decreases |a|
  {
    if a == [] {
      assert a + b == b;
    } else {
      FeedAppend(Feed(r, a[0]), a[1..], b);
      assert (a + b)[1..] == a[1..] + b;
    }
  }

  lemma {:induction false} DoneStaysDone(o: Outcome, bs: seq<byte>)
    ensures FeedAll(Done(o), bs) == Done(o)
  {
    if bs != [] {
      DoneStaysDone(o, bs[1..]);
    }
  }

  // ----- the line on the terminal

  const MASK := '*'
  const BACKSPACE := '\U{0008}'
  const ERASE: string := [BACKSPACE, ' ', BACKSPACE]

  /** The cells written since the prompt, and the cursor among them. */
  datatype Line = Line(cells: string, cursor: nat)

  const BLANK := Line("", 0)

  function Emit(l: Line, c: char): Line {
    if c == BACKSPACE then l.(cursor := if l.cursor == 0 then 0 else l.cursor - 1)
    else if l.cursor < |l.cells| then Line(l.cells[l.cursor := c], l.cursor + 1)
    else Line(l.cells + [c], |l.cells| + 1)
  }

  function Show(l: Line, output: string): Line
    decreases |output|
  {
    if output == "" then l else Show(Emit(l, output[0]), output[1..])
  }

  lemma {:induction false} ShowAppend(l: Line, a: string, b: string)
    ensures Show(l, a + b) == Show(Show(l, a), b)
    decreases |a|
  {
    if a == "" {
      assert a + b == b;
    } else {
      ShowAppend(Emit(l, a[0]), a[1..], b);
      assert (a + b)[1..] == a[1..] + b;
    }
  }

  /** Exactly `n` stars are visible, and the cursor stands after them. */
  predicate ShowsStars(l: Line, n: nat) {
    && l.cursor == n <= |l.cells|
    && (forall i | 0 <= i < n :: l.cells[i] == MASK)
    && (forall i | n <= i < |l.cells| :: l.cells[i] == ' ')
  }

  function Repeat(s: string, k: nat): string {
    if k == 0 then "" else s + Repeat(s, k - 1)
  }

  lemma {:induction false} StarsAppear(l: Line, n: nat, k: nat)
    requires ShowsStars(l, n)
    ensures ShowsStars(Show(l, Repeat([MASK], k)), n + k)
    decreases k
  {
    if k > 0 {
      assert Repeat([MASK], k)[1..] == Repeat([MASK], k - 1);
      StarsAppear(Emit(l, MASK), n + 1, k - 1);
    }
  }

  lemma {:induction false} StarsDisappear(l: Line, n: nat, k: nat)
    requires ShowsStars(l, n) && k <= n
    ensures ShowsStars(Show(l, Repeat(ERASE, k)), n - k)
    decreases k
  {
    if k > 0 {
      var back := Emit(l, BACKSPACE);
      var blanked := Emit(back, ' ');
      var after := Emit(blanked, BACKSPACE);
      assert Show(blanked, [BACKSPACE]) == after;
      assert [' ', BACKSPACE][1..] == [BACKSPACE] && ERASE[1..] == [' ', BACKSPACE];
      assert Show(back, [' ', BACKSPACE]) == after;
      assert Show(l, ERASE) == after;
      ShowAppend(l, ERASE, Repeat(ERASE, k - 1));
      StarsDisappear(after, n - 1, k - 1);
    }
  }

  /** What `renderMask` writes to go from `shown` stars to `target`. */
  function Redraw(shown: nat, target: nat): string {
    if target > shown then Repeat([MASK], target - shown) else Repeat(ERASE, shown - target)
  }

  lemma RedrawShows(l: Line, shown: nat, target: nat)
    requires ShowsStars(l, shown)
    ensures ShowsStars(Show(l, Redraw(shown, target)), target)
  {
    if target > shown {
      StarsAppear(l, shown, target - shown);
    } else {
      StarsDisappear(l, shown, shown - target);
    }
  }

  // ----- the reader object

  class HiddenReader {
    var bytes: seq<byte>
    var masked: nat
    var settled: Option<Outcome>
    var output: string

    constructor ()
      ensures State() == Reading([]) && masked == 0 && output == "" && Valid()
    {
      bytes, masked, settled, output := [], 0, None, "";
    }

    ghost function State(): Reader
      reads this
    {
      if settled.Some? then Done(settled.value) else Reading(bytes)
    }

    /** The screen shows the stars the reader counted. */
    ghost predicate Valid()
      reads this
    {
      ShowsStars(Show(BLANK, output), masked)
    }

    method RenderMask()
      requires Valid()
      modifies this`masked, this`output
      ensures Valid() && masked == MaskedLength(bytes)
    {
      var target := MaskedLength(bytes);
      RedrawShows(Show(BLANK, output), masked, target);
      ShowAppend(BLANK, output, Redraw(masked, target));
      output := output + Redraw(masked, target);
      masked := target;
    }

    method Finish()
      requires settled.None?
      modifies this`settled, this`bytes
      ensures settled == Some(Submitted(Submission(old(bytes))))
    {
      var raw := Decode(bytes);
      var withoutPasteStart := if Starts(raw, PASTE_START) then raw[|PASTE_START|..] else raw;
      var value := if Ends(withoutPasteStart, PASTE_END) then withoutPasteStart[..|withoutPasteStart| - |PASTE_END|]
                   else withoutPasteStart;
      settled := Some(Submitted(value));
      bytes := seq(|bytes|, _ => 0);
    }

    method Settle(o: Outcome)
      requires settled.None?
      modifies this`settled, this`bytes
      ensures settled == Some(o)
    {
      settled := Some(o);
      bytes := seq(|bytes|, _ => 0);
    }

    /**
     One chunk. Afterwards, if the reader still reads, the stars on screen are as many as the bytes between the markers;
     and if it submitted, no more than the bytes of the text, and as many if no byte was replaced.
     */
    method OnData(chunk: seq<byte>)
      requires Valid()
      modifies this
      ensures Valid()
      ensures State() == FeedAll(old(State()), chunk)
      ensures settled.None? ==> masked == |Strip(bytes)|
      ensures old(settled.None?) && settled.Some? && settled.value.Submitted? ==>
                && masked <= |Encode(settled.value.value)|
                && (REPLACEMENT !in settled.value.value ==> masked == |Encode(settled.value.value)|)
      ensures old(settled.Some?) ==> masked == old(masked)
    {
      if settled.Some? {
        DoneStaysDone(settled.value, chunk);
        return;
      }
      ghost var start := State();
      var i := 0;
      while i < |chunk|
        invariant 0 <= i <= |chunk| && settled.None? && Valid() && masked == old(masked) && output == old(output)
        invariant FeedAll(State(), chunk[i..]) == FeedAll(start, chunk)
      {
        var b := chunk[i];
        assert chunk[i..][0] == b && chunk[i..][1..] == chunk[i + 1..];
        if b == 0x03 {
          Settle(Interrupted);
          DoneStaysDone(Interrupted, chunk[i + 1..]);
          return;
        }
        if b == 0x04 {
          Settle(Ended);
          DoneStaysDone(Ended, chunk[i + 1..]);
          return;
        }
        if b == 0x0d || b == 0x0a {
          MaskCountsBytesBetweenMarkers(bytes);
          MaskCountsWhatIsSubmitted(bytes);
          RenderMask();
          Finish();
          DoneStaysDone(settled.value, chunk[i + 1..]);
          return;
        }
        if b == 0x08 || b == 0x7f {
          bytes := if bytes == [] then [] else bytes[..|bytes| - 1];
          i := i + 1;
          continue;
        }
        if |bytes| >= MAX_BYTES {
          Settle(TooLong);
          DoneStaysDone(TooLong, chunk[i + 1..]);
          return;
        }
        bytes := bytes + [b];
        i := i + 1;
      }
      MaskCountsBytesBetweenMarkers(bytes);
      RenderMask();
    }
  }

  // ----- chunking does not matter

  function Flatten(chunks: seq<seq<byte>>): seq<byte> {
    if chunks == [] then [] else chunks[0] + Flatten(chunks[1..])
  }

  function FeedChunks(r: Reader, chunks: seq<seq<byte>>): Reader
    decreases |chunks|
  {
    if chunks == [] then r else FeedChunks(FeedAll(r, chunks[0]), chunks[1..])
  }

  lemma {:induction false} FeedChunksIsFeedAll(r: Reader, chunks: seq<seq<byte>>)
    ensures FeedChunks(r, chunks) == FeedAll(r, Flatten(chunks))
    decreases |chunks|
  {
    if chunks != [] {
      FeedChunksIsFeedAll(FeedAll(r, chunks[0]), chunks[1..]);
      FeedAppend(r, chunks[0], Flatten(chunks[1..]));
    }
  }

  /** However one byte stream is cut into chunks, the outcome and the buffer are the same. */
  lemma ChunkingDoesNotMatter(a: seq<seq<byte>>, b: seq<seq<byte>>)
    requires Flatten(a) == Flatten(b)
    ensures FeedChunks(Reading([]), a) == FeedChunks(Reading([]), b)
  {
    FeedChunksIsFeedAll(Reading([]), a);
    FeedChunksIsFeedAll(Reading([]), b);
  }

  /** A byte that is neither a control the reader acts on nor an erasure. */
  predicate Plain(b: byte) {
    b !in {0x03, 0x04, 0x08, 0x0a, 0x0d, 0x7f}
  }

  lemma {:induction false} PlainBytesAreBuffered(bytes: seq<byte>, bs: seq<byte>)
    requires |bytes| + |bs| <= MAX_BYTES && forall i | 0 <= i < |bs| :: Plain(bs[i])
    ensures FeedAll(Reading(bytes), bs) == Reading(bytes + bs)
    decreases |bs|
  {
    if bs == [] {
      assert bytes + bs == bytes;
    } else {
      PlainBytesAreBuffered(bytes + [bs[0]], bs[1..]);
      assert bytes + [bs[0]] + bs[1..] == bytes + bs;
    }
  }

  /**
   A code pasted between the markers and entered is submitted as the text its bytes spell, in any chunks; an ASCII code
   character for character.
   */
  lemma PastedCodeIsSubmitted(code: seq<byte>, enter: byte)
    requires |code| + 12 <= MAX_BYTES && (forall i | 0 <= i < |code| :: Plain(code[i]))
    requires enter == 0x0d || enter == 0x0a
    ensures FeedAll(Reading([]), PASTE_START + code + PASTE_END + [enter]) == Done(Submitted(Decode(code)))
    ensures Ascii(code) ==> Decode(code) == code
  {
    var pasted := PASTE_START + code + PASTE_END;
    PlainBytesAreBuffered([], pasted);
    assert [] + pasted == pasted;
    FeedAppend(Reading([]), pasted, [enter]);
    StripTakesMarkersOff(code);
    SubmissionIsStripped(pasted);
    if Ascii(code) {
      AsciiBefore(code, []);
      assert code + [] == code;
    }
  }

  lemma StripTakesMarkersOff(code: seq<byte>)
    ensures Strip(PASTE_START + code + PASTE_END) == code
  {
    var pasted := PASTE_START + code + PASTE_END;
    assert pasted[..6] == PASTE_START && pasted[6..] == code + PASTE_END;
    assert (code + PASTE_END)[|code|..] == PASTE_END && (code + PASTE_END)[..|code|] == code;
  }

  /** No more bytes than the limit are ever buffered, and no more characters submitted. */
  lemma {:induction false} NeverBeyondLimit(r: Reader, bs: seq<byte>)
    requires r.Reading? ==> |r.bytes| <= MAX_BYTES
    requires r.Done? && r.outcome.Submitted? ==> |r.outcome.value| <= MAX_BYTES
    ensures var f := FeedAll(r, bs);
            && (f.Reading? ==> |f.bytes| <= MAX_BYTES)
            && (f.Done? && f.outcome.Submitted? ==> |f.outcome.value| <= MAX_BYTES)
    decreases |bs|
  {
    if bs != [] {
      if r.Reading? {
        LengthReadsBackIff(r.bytes);
      }
      NeverBeyondLimit(Feed(r, bs[0]), bs[1..]);
    }
  }

  // ----- what a whole stream comes to, without running it

  predicate IsErasure(b: byte) {
    b == 0x08 || b == 0x7f
  }

  /** What is left of a line once its erasures are made, found from its end with `owed` erasures still to make. */
  function Typed(bs: seq<byte>, owed: nat): seq<byte>
    decreases |bs|
  {
    if bs == [] then []
    else
      var front, last := bs[..|bs| - 1], bs[|bs| - 1];
      if IsErasure(last) then Typed(front, owed + 1)
      else if owed > 0 then Typed(front, owed - 1)
      else Typed(front, 0) + [last]
  }

  function DropLast(bs: seq<byte>, k: nat): seq<byte> {
    if k <= |bs| then bs[..|bs| - k] else []
  }

  lemma {:induction false} ErasuresTakeTheLast(bs: seq<byte>, owed: nat)
    ensures Typed(bs, owed) == DropLast(Typed(bs, 0), owed)
    decreases |bs|
  {
    if bs != [] {
      var front, last := bs[..|bs| - 1], bs[|bs| - 1];
      ErasuresTakeTheLast(front, owed + 1);
      ErasuresTakeTheLast(front, 1);
      if !IsErasure(last) && owed > 0 {
        ErasuresTakeTheLast(front, owed - 1);
      }
    }
  }

  /** Byte `k` ends the reading: an interrupt, an end of input, an enter, or a byte for which there is no room. */
  predicate Stops(bs: seq<byte>, k: nat)
    requires k < |bs|
  {
    bs[k] in {0x03, 0x04, 0x0a, 0x0d} || (!IsErasure(bs[k]) && |Typed(bs[..k], 0)| >= 256)
  }

  function Verdict(bs: seq<byte>, k: nat): Outcome
    requires k < |bs|
  {
    if bs[k] == 0x03 then Interrupted
    else if bs[k] == 0x04 then Ended
    else if bs[k] == 0x0a || bs[k] == 0x0d then Submitted(Decode(Strip(Typed(bs[..k], 0))))
    else TooLong
  }

  predicate FirstStop(bs: seq<byte>, k: nat)
    requires k < |bs|
  {
    Stops(bs, k) && forall j | 0 <= j < k :: !Stops(bs, j)
  }

  /**
   For every stream: while nothing stops the reading, the buffer is what was typed less what was erased; and the first
   byte that stops it decides the outcome, a submission being the text between the markers of what was typed by then.
   */
  lemma {:induction false} ReaderIsExact(bs: seq<byte>)
    ensures (forall k | 0 <= k < |bs| :: !Stops(bs, k)) ==> FeedAll(Reading([]), bs) == Reading(Typed(bs, 0))
    ensures forall k | 0 <= k < |bs| && FirstStop(bs, k) :: FeedAll(Reading([]), bs) == Done(Verdict(bs, k))
    decreases |bs|
  {
    hide Decode, Strip, Submission, Typed, Stops, Feed, Verdict;
    if bs == [] {
      NothingTyped();
    } else {
      var n := |bs| - 1;
      var front, last := bs[..n], bs[n];
      ReaderIsExact(front);
      assert bs == front + [last];
      FeedAppend(Reading([]), front, [last]);
      var r := FeedAll(Reading([]), front);
      assert FeedAll(r, [last]) == Feed(r, last);
      forall j | 0 <= j < n
        ensures Stops(front, j) == Stops(bs, j) && Verdict(front, j) == Verdict(bs, j)
      {
        SameAtPrefix(front, bs, j);
      }
      if k :| 0 <= k < n && Stops(bs, k) {
        var first := EarliestStop(bs, k);
        assert FirstStop(front, first);
        FeedDone(Verdict(front, first), last);
      } else {
        FeedLast(front, last);
      }
    }
  }

  lemma NothingTyped()
    ensures Typed([], 0) == []
  {
  }

  lemma FeedDone(o: Outcome, b: byte)
    ensures Feed(Done(o), b) == Done(o)
  {
  }

  /** What stops a stream, and with which outcome, depends on nothing after it. */
  lemma SameAtPrefix(front: seq<byte>, bs: seq<byte>, j: nat)
    requires front <= bs && j < |front|
    ensures Stops(front, j) == Stops(bs, j) && Verdict(front, j) == Verdict(bs, j)
  {
    assert front[..j] == bs[..j];
  }

  lemma TypedLast(front: seq<byte>, last: byte)
    ensures Typed(front + [last], 0) ==
            if IsErasure(last) then DropLast(Typed(front, 0), 1) else Typed(front, 0) + [last]
  {
    var bs := front + [last];
    assert bs[..|bs| - 1] == front;
    ErasuresTakeTheLast(front, 1);
  }

  /** One byte after a line that nothing stopped. */
  lemma FeedLast(front: seq<byte>, last: byte)
    ensures var bs, n := front + [last], |front|;
            Feed(Reading(Typed(front, 0)), last) ==
              if Stops(bs, n) then Done(Verdict(bs, n)) else Reading(Typed(bs, 0))
  {
    hide Decode, Strip, Submission, Typed;
    var bs := front + [last];
    assert bs[..|front|] == front && bs[|front|] == last;
    SubmissionIsStripped(Typed(front, 0));
    TypedLast(front, last);
  }

  lemma {:induction false} EarliestStop(bs: seq<byte>, k: nat) returns (first: nat)
    requires k < |bs| && Stops(bs, k)
    ensures first <= k && FirstStop(bs, first)
    decreases k
  {
    hide Stops;
    if j :| 0 <= j < k && Stops(bs, j) {
      first := EarliestStop(bs, j);
    } else {
      first := k;
    }
  }

  /** A whole session: feeding the chunks of a stream one by one ends where the stream ends. */
  method ReadChunks(chunks: seq<seq<byte>>) returns (reader: HiddenReader)
    ensures fresh(reader) && reader.Valid()
    ensures reader.State() == FeedAll(Reading([]), Flatten(chunks))
  {
    reader := new HiddenReader();
    var i := 0;
    while i < |chunks|
      invariant 0 <= i <= |chunks| && fresh(reader) && reader.Valid()
      invariant FeedChunks(reader.State(), chunks[i..]) == FeedChunks(Reading([]), chunks)
    {
      assert chunks[i..][0] == chunks[i] && chunks[i..][1..] == chunks[i + 1..];
      reader.OnData(chunks[i]);
      i := i + 1;
    }
    FeedChunksIsFeedAll(Reading([]), chunks);
  }
}
