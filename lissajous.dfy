/** The control skeleton of `Lissajous` in
    oscilloscope-go-server/utils/lissajous.go: the frame count, the
    cancellation checks, the status messages, the frame file names and the
    staging directory. Drawing, PNG encoding and the ffmpeg process are not
    modelled; what they do to the control flow comes in as an `Env`. */
module Lissajous {
  import opened Wrappers
  import opened Decimal
  import opened Jobs

  /** `ANIMATION_DURATION`, in seconds. */
  const AnimationDurationSeconds: int := 5
  /** A progress message is sent after every 100th frame. */
  const ProgressInterval: int := 100
  const EncodingMessage: string := "encoding animated WebP using ffmpeg"
  const DoneMessage: string := "done"

  /** The selects at which `ctx.Done()` can be taken: the check at the top of
      iteration `i`, and the sends of the progress message for frame `k`, of
      the encoding message and of the final message. */
  datatype CheckPoint = FrameTop(i: nat) | ProgressPush(k: nat) | EncodingPush | ResultPush

  /** How writing frame `i` can fail: reading the random bytes, creating the
      file, or encoding the PNG. */
  datatype FrameFault = RandomReadFailed | CreateFailed | EncodeFailed

  /** What the world does during one call: whether the staging directory can
      be made, the selects that take the cancellation branch (when both
      branches of a select are ready Go picks one at random, so any set is
      possible), the frames whose writing fails, and how ffmpeg ends. */
  datatype Env = Env(
    mkdirOk: bool,
    cancelled: set<CheckPoint>,
    faults: map<nat, FrameFault>,
    ffmpegOk: bool,
    ffmpegOut: seq<byte>,
    ffmpegErr: string)

  datatype LissajousError =
    | TempDirFailed
    | Cancelled
    | RandomBytesFailed
    | FrameCreateFailed
    | FrameEncodeFailed
    | FfmpegFailed(detail: string)

  /** One staged PNG: its file name and its size. */
  datatype Frame = Frame(name: string, width: int, height: int)

  /** The outcome of a call: how many frames were staged, the messages sent
      on the status channel, the error returned, whether ffmpeg was started,
      and what it wrote to `out`. */
  datatype Run = Run(staged: nat, sent: seq<string>, err: Option<LissajousError>, encoderRan: bool, out: seq<byte>)

  // ---------------------------------------------------------------------
  // Integer parts

  /** `frames := fps * int(ANIMATION_DURATION.Seconds())`; for the frame
      rates the server allows this is 5 to 1000 frames. */
  function FrameCount(fps: int): (frames: int)
    ensures 1 <= fps <= 200 ==> 5 <= frames <= 1000
    ensures frames % AnimationDurationSeconds == 0
  {
    fps * AnimationDurationSeconds
  }

  /** The canvas is `2*size + 1` pixels square: odd, with pixel `size` in
      the middle. */
  function CanvasSide(size: int): (side: int)
    ensures side % 2 == 1 && side / 2 == size
  {
    2 * size + 1
  }

  /** `fmt.Sprintf("frame_%03d.png", i)` */
  function FrameName(i: nat): string {
    "frame_" + ZeroPad3(i) + ".png"
  }

  /** Every frame name is `frame_`, at least three digits, `.png`, and the
      digits read back as the frame number. */
  lemma FrameNameReadsBack(i: nat)
    ensures var r := FrameName(i);
      && |r| >= 13 && r[..6] == "frame_" && r[|r| - 4..] == ".png"
      && AllDigits(r[6..|r| - 4]) && DigitsValue(r[6..|r| - 4]) == i
  {
    var r := FrameName(i);
    assert r[6..|r| - 4] == ZeroPad3(i);
    ZeroPad3Value(i);
  }

  /** Go's `<` on strings: byte-wise lexicographic order. */
  predicate LexLess(a: string, b: string) {
    if a == [] then b != []
    else if b == [] then false
    else if a[0] != b[0] then a[0] < b[0]
    else LexLess(a[1..], b[1..])
  }

  lemma {:induction false} LexLessCommonPrefix(p: string, x: string, y: string)
    ensures LexLess(p + x, p + y) == LexLess(x, y)
  {
    if p == [] {
      assert p + x == x && p + y == y;
    } else {
      assert (p + x)[0] == p[0] == (p + y)[0];
      assert (p + x)[1..] == p[1..] + x;
      assert (p + y)[1..] == p[1..] + y;
      LexLessCommonPrefix(p[1..], x, y);
    }
  }

  /** Below 1000 a frame name is `frame_`, exactly three digits, `.png`. */
  lemma FrameNameDigits(i: nat)
    requires i < 1000
    ensures FrameName(i) == "frame_" + ThreeDigits(i) + ".png"
    ensures |FrameName(i)| == 13
  {
    ZeroPad3Digits(i);
  }

  /** Frame names are pairwise distinct: `%03d` pads but never cuts, so
      the digits read back as the frame number. */
  lemma FrameNamesDistinct(i: nat, j: nat)
    requires i != j
    ensures FrameName(i) != FrameName(j)
  {
    FrameNameReadsBack(i);
    FrameNameReadsBack(j);
  }


  /** A strict difference between equal-length prefixes decides the order
      whatever follows them. */
  lemma {:induction false} LexLessSameLength(a: string, b: string, x: string, y: string)
    requires |a| == |b| && LexLess(a, b)
    ensures LexLess(a + x, b + y)
  {
    assert (a + x)[0] == a[0] && (b + y)[0] == b[0];
    if a[0] == b[0] {
      assert (a + x)[1..] == a[1..] + x;
      assert (b + y)[1..] == b[1..] + y;
      LexLessSameLength(a[1..], b[1..], x, y);
    }
  }

  lemma ThreeDigitsOrdered(i: nat, j: nat)
    requires i < j < 1000
    ensures LexLess(ThreeDigits(i), ThreeDigits(j))
  {
    var di, dj := ThreeDigits(i), ThreeDigits(j);
    assert i == (i / 100) * 100 + (i / 10 % 10) * 10 + i % 10;
    assert j == (j / 100) * 100 + (j / 10 % 10) * 10 + j % 10;
    if i / 100 == j / 100 {
      assert di[1..] == [DigitChar(i / 10 % 10), DigitChar(i % 10)];
      assert dj[1..] == [DigitChar(j / 10 % 10), DigitChar(j % 10)];
      if i / 10 % 10 == j / 10 % 10 {
        assert di[1..][1..] == [DigitChar(i % 10)];
        assert dj[1..][1..] == [DigitChar(j % 10)];
      }
    }
  }

  /** Below 1000, file-name order is index order: sorting the frame names
      as strings sorts them by frame number. */
  lemma FrameNamesOrdered(i: nat, j: nat)
    requires i < j < 1000
    ensures LexLess(FrameName(i), FrameName(j))
  {
    FrameNameDigits(i);
    FrameNameDigits(j);
    var di, dj := ThreeDigits(i), ThreeDigits(j);
    assert FrameName(i) == "frame_" + (di + ".png");
    assert FrameName(j) == "frame_" + (dj + ".png");
    ThreeDigitsOrdered(i, j);
    LexLessSameLength(di, dj, ".png", ".png");
    LexLessCommonPrefix("frame_", di + ".png", dj + ".png");
  }

  function FaultError(f: FrameFault): LissajousError {
    match f
    case RandomReadFailed => RandomBytesFailed
    case CreateFailed => FrameCreateFailed
    case EncodeFailed => FrameEncodeFailed
  }

  /** `fmt.Sprintf("generated frame %d/%d", k, frames)` */
  function ProgressMessage(k: nat, frames: nat): (r: string)
    ensures r != EncodingMessage && r != DoneMessage
  {
    var r := "generated frame " + DecimalString(k) + "/" + DecimalString(frames);
    assert r[0] == 'g';
    r
  }

  /** `fmt.Sprintf("ffmpeg failed: %v", err)`: never mistaken for `done`
      or for the encoding message. */
  function FfmpegFailedMessage(detail: string): (r: string)
    ensures r != EncodingMessage && r != DoneMessage
  {
    var r := "ffmpeg failed: " + detail;
    assert r[0] == 'f';
    r
  }

  /** The progress messages sent once frames `0 .. n-1` are done: one for
      every `k <= n` that is a multiple of 100, in increasing order of `k`. */
  function ProgressTrace(n: nat, frames: nat): (t: seq<string>)
    ensures |t| == n / ProgressInterval
  {
    seq(n / ProgressInterval, j requires 0 <= j => ProgressMessage(ProgressInterval * (j + 1), frames))
  }

  /** Finishing frame `i` adds a message exactly when `i + 1` is a multiple
      of 100. */
  lemma ProgressTraceStep(i: nat, frames: nat)
    ensures ProgressTrace(i + 1, frames) ==
      ProgressTrace(i, frames) + (if (i + 1) % ProgressInterval == 0 then [ProgressMessage(i + 1, frames)] else [])
  {
    if (i + 1) % ProgressInterval == 0 {
      assert (i + 1) / ProgressInterval == i / ProgressInterval + 1;
      assert ProgressInterval * ((i + 1) / ProgressInterval) == i + 1;
    } else {
      assert (i + 1) / ProgressInterval == i / ProgressInterval;
    }
  }

  /** The most messages one call can send: the progress messages, then the
      encoding message and the final one. */
  function MaxMessages(frames: int): nat {
    (if frames > 0 then frames / ProgressInterval else 0) + 2
  }

  /** For the frame rates the server allows (1 to 200), at most 12 messages:
      fewer than the 20 slots of the status channel. */
  lemma MessagesFitChannel(fps: int)
    requires 1 <= fps <= 200
    ensures MaxMessages(FrameCount(fps)) <= 12
  {
  }

  // ---------------------------------------------------------------------
  // The reference behaviour of one call

  /** The messages sent after `i` frames, when there is a channel. */
  function SentAfter(withCh: bool, i: nat, frames: nat): seq<string> {
    if withCh then ProgressTrace(i, frames) else []
  }

  /** The final message ffmpeg's outcome calls for. */
  function FinalMessage(env: Env): string {
    if env.ffmpegOk then DoneMessage else FfmpegFailedMessage(env.ffmpegErr)
  }

  /** Everything a call with a channel can send, in order. */
  function FullTrace(env: Env, frames: nat): seq<string> {
    ProgressTrace(frames, frames) + [EncodingMessage, FinalMessage(env)]
  }

  /** The loop from the top of iteration `i`. */
  function LoopFrom(env: Env, frames: nat, withCh: bool, i: nat): Run
    requires i <= frames
    decreases frames - i
  {
    if i == frames then Encode(env, frames, withCh)
    else if FrameTop(i) in env.cancelled then Run(i, SentAfter(withCh, i, frames), Some(Cancelled), false, [])
    else if i in env.faults then Run(i, SentAfter(withCh, i, frames), Some(FaultError(env.faults[i])), false, [])
    else if withCh && (i + 1) % ProgressInterval == 0 && ProgressPush(i + 1) in env.cancelled then
      Run(i + 1, SentAfter(withCh, i, frames), Some(Cancelled), false, [])
    else LoopFrom(env, frames, withCh, i + 1)
  }

  /** After the last frame: the encoding message, ffmpeg, and `done` or
      `ffmpeg failed: ...`. Only the messages of this stage are in `sent`. */
  function EncodeTail(env: Env, withCh: bool): Run {
    if withCh && EncodingPush in env.cancelled then Run(0, [], Some(Cancelled), false, [])
    else if withCh && ResultPush in env.cancelled then Run(0, [EncodingMessage], Some(Cancelled), true, env.ffmpegOut)
    else
      Run(0, if withCh then [EncodingMessage, FinalMessage(env)] else [],
          if env.ffmpegOk then None else Some(FfmpegFailed(env.ffmpegErr)), true, env.ffmpegOut)
  }

  /** The encoding stage after all `frames` frames were staged. */
  function Encode(env: Env, frames: nat, withCh: bool): Run {
    var tail := EncodeTail(env, withCh);
    tail.(staged := frames, sent := SentAfter(withCh, frames, frames) + tail.sent)
  }

  /** The number of loop iterations: `frames`, or none when it is negative. */
  function LoopCount(fps: int): nat {
    if FrameCount(fps) > 0 then FrameCount(fps) else 0
  }

  /** The whole call, with or without a status channel. */
  function Expected(env: Env, fps: int, withCh: bool): Run {
    if !env.mkdirOk then Run(0, [], Some(TempDirFailed), false, [])
    else LoopFrom(env, LoopCount(fps), withCh, 0)
  }

  function StagedFrames(n: nat, size: int): (fs: seq<Frame>)
    ensures |fs| == n
  {
    seq(n, i requires 0 <= i => Frame(FrameName(i), CanvasSide(size), CanvasSide(size)))
  }

  // ---------------------------------------------------------------------
  // Properties of a call

  /** Progress messages sent earlier are a prefix of those sent later. */
  lemma ProgressTracePrefix(i: nat, n: nat, frames: nat)
    requires i <= n
    ensures ProgressTrace(i, frames) <= ProgressTrace(n, frames)
  {
    assert i / ProgressInterval <= n / ProgressInterval;
  }

  /** The k-th progress message reports frame `100 * (k + 1)`: the reported
      frame numbers increase strictly, are multiples of 100 and never exceed
      the frames done. */
  lemma ProgressReportsIncrease(n: nat, frames: nat, j: nat, j': nat)
    requires j < j' < |ProgressTrace(n, frames)|
    ensures ProgressTrace(n, frames)[j] == ProgressMessage(ProgressInterval * (j + 1), frames)
    ensures ProgressTrace(n, frames)[j'] == ProgressMessage(ProgressInterval * (j' + 1), frames)
    ensures ProgressInterval * (j + 1) < ProgressInterval * (j' + 1) <= n
  {
  }

  /** A run that ended inside the frame loop: an error other than ffmpeg's,
      the encoder never started, and only progress messages sent. */
  ghost predicate StoppedInLoop(r: Run, frames: nat, withCh: bool) {
    && r.err.Some? && !r.err.value.FfmpegFailed?
    && !r.encoderRan && r.out == [] && r.staged <= frames
    && r.sent <= SentAfter(withCh, frames, frames)
  }

  /** The loop either stops with a loop error or hands over to the encoding
      stage with every frame staged. */
  lemma {:induction false} LoopOutcome(env: Env, frames: nat, withCh: bool, i: nat)
    requires i <= frames
    ensures LoopFrom(env, frames, withCh, i) == Encode(env, frames, withCh)
         || StoppedInLoop(LoopFrom(env, frames, withCh, i), frames, withCh)
    decreases frames - i
  {
    if i < frames {
      ProgressTracePrefix(i, frames, frames);
      ProgressTracePrefix(i + 1, frames, frames);
      if !(FrameTop(i) in env.cancelled || i in env.faults
           || (withCh && (i + 1) % ProgressInterval == 0 && ProgressPush(i + 1) in env.cancelled)) {
        LoopOutcome(env, frames, withCh, i + 1);
      }
    }
  }

  /** No progress message is the encoding message: they differ in their
      first char. */
  lemma EncodingNotInProgress(n: nat, frames: nat)
    ensures EncodingMessage !in ProgressTrace(n, frames)
  {
    forall j | 0 <= j < |ProgressTrace(n, frames)|
      ensures ProgressTrace(n, frames)[j] != EncodingMessage
    {
      assert ProgressTrace(n, frames)[j] == ProgressMessage(ProgressInterval * (j + 1), frames);
    }
  }

  /** Cancellation seen at the top of iteration `i` ends the loop there: no
      frame `>= i` is staged, an error is returned, only progress messages
      for the frames before `i` are sent, and the output stage is never
      reached: neither the encoding message nor ffmpeg. */
  lemma {:induction false} CancelledBeforeFrame(env: Env, frames: nat, withCh: bool, j: nat, i: nat)
    requires j <= i < frames && FrameTop(i) in env.cancelled
    ensures var r := LoopFrom(env, frames, withCh, j);
      && r.staged <= i && r.err.Some? && !r.encoderRan && r.out == []
      && r.sent <= SentAfter(withCh, i, frames) && EncodingMessage !in r.sent
    decreases i - j
  {
    if j < i && !(FrameTop(j) in env.cancelled || j in env.faults
           || (withCh && (j + 1) % ProgressInterval == 0 && ProgressPush(j + 1) in env.cancelled)) {
      CancelledBeforeFrame(env, frames, withCh, j + 1, i);
    } else {
      ProgressTracePrefix(j, i, frames);
    }
    EncodingNotInProgress(i, frames);
  }

  lemma CancellationStopsFrames(env: Env, fps: int, withCh: bool, i: nat)
    requires env.mkdirOk && i < LoopCount(fps) && FrameTop(i) in env.cancelled
    ensures var r := Expected(env, fps, withCh);
      && r.staged <= i && r.err.Some? && !r.encoderRan && r.out == []
      && r.sent <= SentAfter(withCh, i, LoopCount(fps)) && EncodingMessage !in r.sent
  {
    CancelledBeforeFrame(env, LoopCount(fps), withCh, 0, i);
  }

  /** A context that is never cancelled (`context.Background()`) never
      ends the call with a cancellation error. */
  lemma {:induction false} LoopNeverCancelled(env: Env, frames: nat, withCh: bool, i: nat)
    requires i <= frames && env.cancelled == {}
    ensures LoopFrom(env, frames, withCh, i).err != Some(Cancelled)
    decreases frames - i
  {
    if i < frames {
      LoopNeverCancelled(env, frames, withCh, i + 1);
    }
  }

  lemma NeverCancelledWithoutSignal(env: Env, fps: int, withCh: bool)
    requires env.cancelled == {}
    ensures Expected(env, fps, withCh).err != Some(Cancelled)
  {
    if env.mkdirOk {
      LoopNeverCancelled(env, LoopCount(fps), withCh, 0);
    }
  }

  /** Every message sent is the next one of the full trace: the progress
      messages, the encoding message, and `done` or `ffmpeg failed: ...`. */
  lemma SentIsPrefixOfTrace(env: Env, fps: int)
    ensures Expected(env, fps, true).sent <= FullTrace(env, LoopCount(fps))
  {
    var frames := LoopCount(fps);
    if env.mkdirOk {
      LoopOutcome(env, frames, true, 0);
      ProgressTracePrefix(frames, frames, frames);
    }
  }

  /** At most `frames/100 + 2` messages are sent, and none at all without a
      channel. */
  lemma MessageBound(env: Env, fps: int, withCh: bool)
    ensures |Expected(env, fps, withCh).sent| <= MaxMessages(FrameCount(fps))
    ensures !withCh ==> Expected(env, fps, withCh).sent == []
  {
    if env.mkdirOk {
      LoopOutcome(env, LoopCount(fps), withCh, 0);
    }
    if withCh {
      SentIsPrefixOfTrace(env, fps);
    }
  }

  /** Success: every frame staged, ffmpeg ran and succeeded, and the channel
      got the whole trace ending in `done`. */
  lemma SuccessTrace(env: Env, fps: int, withCh: bool)
    requires Expected(env, fps, withCh).err.None?
    ensures var r := Expected(env, fps, withCh);
      && env.mkdirOk && env.ffmpegOk && r.encoderRan && r.out == env.ffmpegOut
      && r.staged == LoopCount(fps)
      && (withCh ==> r.sent == FullTrace(env, LoopCount(fps)) && r.sent[|r.sent| - 1] == DoneMessage)
  {
    LoopOutcome(env, LoopCount(fps), withCh, 0);
  }

  /** Encoder failure: every frame staged, and the trace ends in
      `ffmpeg failed: ...` instead of `done`. */
  lemma FfmpegFailureTrace(env: Env, fps: int, withCh: bool)
    requires Expected(env, fps, withCh).err.Some? && Expected(env, fps, withCh).err.value.FfmpegFailed?
    ensures var r := Expected(env, fps, withCh);
      && !env.ffmpegOk && r.err.value.detail == env.ffmpegErr && r.encoderRan
      && r.staged == LoopCount(fps)
      && (withCh ==> r.sent == FullTrace(env, LoopCount(fps))
                     && r.sent[|r.sent| - 1] == FfmpegFailedMessage(env.ffmpegErr))
  {
    LoopOutcome(env, LoopCount(fps), withCh, 0);
  }

  /** The message `done` is sent exactly when the call succeeds. */
  lemma DoneSentIffSuccess(env: Env, fps: int)
    ensures DoneMessage in Expected(env, fps, true).sent <==> Expected(env, fps, true).err.None?
  {
    var r := Expected(env, fps, true);
    var frames := LoopCount(fps);
    if r.err.None? {
      SuccessTrace(env, fps, true);
    } else if DoneMessage in r.sent {
      SentIsPrefixOfTrace(env, fps);
      var p :| 0 <= p < |r.sent| && r.sent[p] == DoneMessage;
      var full := FullTrace(env, frames);
      assert full[p] == DoneMessage;
      assert p == frames / ProgressInterval + 1;
      assert env.ffmpegOk;
      LoopOutcome(env, frames, true, 0);
      assert false;
    }
  }

  // ---------------------------------------------------------------------
  // The function itself

  /** Fewer frames never mean more progress messages. */
  lemma ProgressCountMonotone(i: nat, frames: nat)
    requires i <= frames
    ensures i / ProgressInterval <= frames / ProgressInterval
  {
  }

  /** Staging one more frame appends its name and canvas size. */
  lemma StagedFramesStep(i: nat, size: int)
    ensures StagedFrames(i + 1, size) == StagedFrames(i, size) + [Frame(FrameName(i), CanvasSide(size), CanvasSide(size))]
  {
  }

  /** `Lissajous(ctx, out, cycles, res, size, fps, bgColor, fgColor, statusCh)`
      where `statusCh` may be nil. The staging directory is released on
      every return once it exists (`defer os.RemoveAll(tmpDir)`). */
  method Lissajous(env: Env, size: int, fps: int, statusCh: StatusChannel?)
    returns (err: Option<LissajousError>, out: seq<byte>, staged: seq<Frame>,
             ghost stagingCreated: bool, ghost stagingReleased: bool)
    requires statusCh != null ==>
      statusCh.Valid() && |statusCh.buffer| + MaxMessages(FrameCount(fps)) <= statusCh.capacity
    modifies statusCh
    ensures var run := Expected(env, fps, statusCh != null);
      err == run.err && out == run.out && staged == StagedFrames(run.staged, size)
    ensures statusCh != null ==>
      statusCh.Valid() && statusCh.buffer == old(statusCh.buffer) + Expected(env, fps, true).sent
    ensures stagingCreated == env.mkdirOk && stagingReleased == stagingCreated
  {
    stagingReleased := false;
    if !env.mkdirOk {
      stagingCreated := false;
      return Some(TempDirFailed), [], [], stagingCreated, stagingReleased;
    }
    stagingCreated := true;
    err, out, staged := RenderAndEncode(env, size, LoopCount(fps), statusCh);
    stagingReleased := true;
  }

  /** The body of `Lissajous` after the staging directory exists: the frame
      loop, then the encoder. */
  method RenderAndEncode(env: Env, size: int, frames: nat, statusCh: StatusChannel?)
    returns (err: Option<LissajousError>, out: seq<byte>, staged: seq<Frame>)
    requires statusCh != null ==>
      statusCh.Valid() && |statusCh.buffer| + MaxMessages(frames) <= statusCh.capacity
    modifies statusCh
    ensures var run := LoopFrom(env, frames, statusCh != null, 0);
      err == run.err && out == run.out && staged == StagedFrames(run.staged, size)
    ensures statusCh != null ==>
      statusCh.Valid() && statusCh.buffer == old(statusCh.buffer) + LoopFrom(env, frames, true, 0).sent
  {
    var loopErr;
    loopErr, staged := RenderFrames(env, size, frames, statusCh);
    if loopErr.Some? {
      return loopErr, [], staged;
    }
    err, out := EncodeFrames(env, statusCh);
  }

  /** The `for i := 0; i < frames; i++` loop: at the top of each iteration
      the cancellation check, then the frame, then a progress message after
      every 100th frame. An error ends the loop early. */
  method RenderFrames(env: Env, size: int, frames: nat, statusCh: StatusChannel?)
    returns (err: Option<LissajousError>, staged: seq<Frame>)
    requires statusCh != null ==>
      statusCh.Valid() && |statusCh.buffer| + MaxMessages(frames) <= statusCh.capacity
    modifies statusCh
    ensures var run := LoopFrom(env, frames, statusCh != null, 0);
      err.Some? ==>
        && err == run.err && run.out == [] && staged == StagedFrames(run.staged, size)
        && (statusCh != null ==> statusCh.buffer == old(statusCh.buffer) + run.sent)
    ensures err.None? ==>
      && LoopFrom(env, frames, statusCh != null, 0) == Encode(env, frames, statusCh != null)
      && staged == StagedFrames(frames, size)
      && (statusCh != null ==> statusCh.buffer == old(statusCh.buffer) + ProgressTrace(frames, frames))
    ensures statusCh != null ==> statusCh.Valid() && |statusCh.buffer| + 2 <= statusCh.capacity
  {
    var withCh := statusCh != null;
    ghost var run := LoopFrom(env, frames, withCh, 0);
    var side := CanvasSide(size);
    staged := [];
    var i := 0;
    while i < frames
      invariant 0 <= i <= frames
      invariant run == LoopFrom(env, frames, withCh, i)
      invariant staged == StagedFrames(i, size)
      invariant withCh ==> statusCh.Valid() && statusCh.buffer == old(statusCh.buffer) + ProgressTrace(i, frames)
    {
      if FrameTop(i) in env.cancelled {
        return Some(Cancelled), staged;
      }
      if i in env.faults {
        return Some(FaultError(env.faults[i])), staged;
      }
      StagedFramesStep(i, size);
      staged := staged + [Frame(FrameName(i), side, side)];
      ProgressTraceStep(i, frames);
      if withCh && (i + 1) % ProgressInterval == 0 {
        if ProgressPush(i + 1) in env.cancelled {
          return Some(Cancelled), staged;
        }
        ProgressCountMonotone(i, frames);
        statusCh.Send(ProgressMessage(i + 1, frames));
      }
      i := i + 1;
    }
    err := None;
  }

  /** The encoding message, ffmpeg writing to `out`, and the final message. */
  method EncodeFrames(env: Env, statusCh: StatusChannel?)
    returns (err: Option<LissajousError>, out: seq<byte>)
    requires statusCh != null ==> statusCh.Valid() && |statusCh.buffer| + 2 <= statusCh.capacity
    modifies statusCh
    ensures var tail := EncodeTail(env, statusCh != null); err == tail.err && out == tail.out
    ensures statusCh != null ==>
      statusCh.Valid() && statusCh.buffer == old(statusCh.buffer) + EncodeTail(env, true).sent
  {
    var withCh := statusCh != null;
    if withCh {
      if EncodingPush in env.cancelled {
        return Some(Cancelled), [];
      }
      statusCh.Send(EncodingMessage);
    }
    out := env.ffmpegOut;
    if withCh {
      if ResultPush in env.cancelled {
        return Some(Cancelled), out;
      }
      statusCh.Send(FinalMessage(env));
    }
    err := if env.ffmpegOk then None else Some(FfmpegFailed(env.ffmpegErr));
  }
}
