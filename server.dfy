/** The job handling of main.go: submission (`POST /lissajous`), the
    background runner it starts, status polling (`/lissajous/status/<id>`)
    and the one-shot result fetch (`/lissajous/result?id=<id>`). Routing,
    form parsing, headers and JSON are not modelled; each handler and the
    runner are one atomic step on the registry and the job. */
module Server {
  import opened Wrappers
  import opened Decimal
  import opened Jobs
  import Convert
  import Lissajous

  /** `StatusChannelBufferSize` */
  const StatusChannelBufferSize: nat := 20
  const DefaultFrameRate: int := 60
  const MaxFrameRate: int := 200
  /** The canvas half-size the runner passes (`size := 100`). */
  const DefaultSize: int := 100
  const PendingStatus: string := "pending"
  const CompleteStatus: string := "complete"
  /** The only status the result handler accepts. */
  const FetchableStatus: string := "done"
  const FormContentType: string := "application/x-www-form-urlencoded"
  const FfmpegUnavailableMessage: string := "ffmpeg is not available, cannot process request"

  /** The client-facing errors of the handlers. */
  datatype HttpError =
    | MethodNotAllowed
    | UnsupportedMediaType
    | BadForm
    | ServerError(message: string)
    | MissingJobId
    | JobNotFound
    | NotComplete
    | WriteFailed

  /** The form fields the runner reads; `FormValue` gives "" for a field
      that is absent. */
  datatype Form = Form(bgColor: string, fgColor: string, frames: string)

  // ---------------------------------------------------------------------
  // The frame rate parameter

  /** `fps := 60`, replaced by the `frames` field when it parses as an
      integer from 1 to 200. */
  function ClampFrames(framesStr: string): (fps: int)
    ensures 1 <= fps <= MaxFrameRate
    ensures fps != DefaultFrameRate ==> Atoi(framesStr) == Some(fps)
    ensures Atoi(framesStr).Some? && 1 <= Atoi(framesStr).value <= MaxFrameRate ==>
      fps == Atoi(framesStr).value
  {
    if framesStr != "" then
      var parsed := Atoi(framesStr);
      if parsed.Some? && parsed.value > 0 && parsed.value <= MaxFrameRate then parsed.value
      else DefaultFrameRate
    else DefaultFrameRate
  }

  /** Every rate from 1 to 200, written in decimal, is taken as given. */
  lemma ClampFramesAcceptsDecimal(n: nat)
    requires 1 <= n <= MaxFrameRate
    ensures ClampFrames(DecimalString(n)) == n
  {
    AtoiOfDecimal(n);
  }

  /** Rates outside 1 to 200 fall back to 60, sign or no sign. */
  lemma ClampFramesRejectsOutOfRange(n: nat)
    requires n == 0 || n > MaxFrameRate
    ensures ClampFrames(DecimalString(n)) == DefaultFrameRate
    ensures ClampFrames("-" + DecimalString(n)) == DefaultFrameRate
  {
    DecimalRoundTrip(n);
    assert ("-" + DecimalString(n))[1..] == DecimalString(n);
  }

  /** Leading zeros and a plus sign are read as `strconv.Atoi` reads them;
      a sign with no digits falls back to 60. */
  lemma ClampFramesExamples()
    ensures ClampFrames("060") == 60 && ClampFrames("+007") == 7
    ensures ClampFrames("+") == DefaultFrameRate && ClampFrames("") == DefaultFrameRate
  {
    assert Atoi("060") == Some(60) by { AtoiExamples(); }
    assert "+007"[1..] == "007";
    assert Atoi("+007") == Some(7) by { AtoiExamples(); }
    assert Atoi("+") == None by { AtoiExamples(); }
  }

  /** So the runner makes 5 to 1000 frames, and sends at most 12 messages. */
  lemma RunnerFrameBounds(framesStr: string)
    ensures 5 <= Lissajous.FrameCount(ClampFrames(framesStr)) <= 1000
    ensures Lissajous.MaxMessages(Lissajous.FrameCount(ClampFrames(framesStr))) <= 12 < StatusChannelBufferSize
  {
    Lissajous.MessagesFitChannel(ClampFrames(framesStr));
  }

  // ---------------------------------------------------------------------
  // The job state, step by step

  /** One status poll: the oldest queued message, if any, becomes the status
      text. */
  function PollState(s: JobState): JobState {
    if s.queue == [] then s
    else s.(status := s.status.(status := s.queue[0]), queue := s.queue[1..])
  }

  /** `n` polls in a row. */
  function PollMany(s: JobState, n: nat): JobState
    decreases n
  {
    if n == 0 then s else PollMany(PollState(s), n - 1)
  }

  /** The result handler serves a job only in this state. */
  predicate Fetchable(s: JobState) {
    s.status.status == FetchableStatus
  }

  /** Whether a colour field is accepted: empty, the keyword, or valid hex. */
  predicate ColorAccepted(s: string) {
    s == "" || Convert.IsRandomKeyword(s) || Convert.ValidHexColor(Convert.TrimHash(s))
  }

  /** The runner passes `context.Background()`, which is never cancelled:
      whatever else the environment holds, no select takes `ctx.Done()`. */
  function RunnerEnv(env: Lissajous.Env): Lissajous.Env {
    env.(cancelled := {})
  }

  /** The run of `Lissajous` the runner makes for this form. */
  function RunOf(form: Form, env: Lissajous.Env): Lissajous.Run {
    Lissajous.Expected(RunnerEnv(env), ClampFrames(form.frames), true)
  }

  /** Whether the runner ends by storing a result. */
  predicate RunSucceeds(form: Form, env: Lissajous.Env) {
    ColorAccepted(form.bgColor) && ColorAccepted(form.fgColor) && RunOf(form, env).err.None?
  }

  /** The runner's last two writes: the result bytes, then the status
      `complete`. */
  function StoreResult(s: JobState, out: seq<byte>): JobState {
    s.(result := out, status := JobStatus(CompleteStatus, ""))
  }

  /** The job after the runner: the messages `Lissajous` sent are queued, and
      only on success are the result and the status `complete` written. */
  function AfterRun(s: JobState, form: Form, env: Lissajous.Env): JobState {
    if !(ColorAccepted(form.bgColor) && ColorAccepted(form.fgColor)) then s.(done := true)
    else
      var run := RunOf(form, env);
      var s' := s.(queue := s.queue + run.sent, done := true);
      if run.err.None? then StoreResult(s', run.out) else s'
  }

  // ---------------------------------------------------------------------
  // The handlers and the runner

  /** What the submission handler looks at before it creates a job. */
  datatype Request = Request(httpMethod: string, contentType: string, formParses: bool)

  /** The checks made before a job is created, in their order. */
  function CheckRequest(req: Request): (r: Option<HttpError>)
    ensures r == None <==>
      req.httpMethod == "POST" && req.contentType == FormContentType && req.formParses
  {
    if req.httpMethod != "POST" then Some(MethodNotAllowed)
    else if req.contentType != FormContentType then Some(UnsupportedMediaType)
    else if !req.formParses then Some(BadForm)
    else None
  }

  /** `POST /lissajous`: a request that is not a POST, not form-encoded or
      whose form does not parse is refused and nothing is registered.
      Otherwise a fresh id is registered with a pending job and an empty
      channel of 20 slots. Without ffmpeg the job gets one message (dropped
      if there were no room), is marked done, stays registered, and the
      request fails; otherwise the runner is started and the id returned. */
  method Submit(reg: Registry, req: Request, ffmpegAvailable: bool)
    returns (job: Job?, response: Result<string, HttpError>)
    modifies reg
    ensures CheckRequest(req).Some? ==>
      job == null && response == Failure(CheckRequest(req).value) && reg.jobs == old(reg.jobs)
    ensures CheckRequest(req).None? ==>
      && job != null && fresh(job) && fresh(job.statusCh) && job.Valid()
      && job.status == JobStatus(PendingStatus, "") && job.result == []
      && job.statusCh.capacity == StatusChannelBufferSize
      && (exists id :: id !in old(reg.jobs) && reg.jobs == old(reg.jobs)[id := job])
    ensures CheckRequest(req).None? && ffmpegAvailable ==>
      && job != null && response.Success?
      && response.value !in old(reg.jobs) && reg.jobs == old(reg.jobs)[response.value := job]
      && job.statusCh.buffer == [] && !job.done
    ensures CheckRequest(req).None? && !ffmpegAvailable ==>
      && job != null && response == Failure(ServerError("Server error: ffmpeg is not available"))
      && job.statusCh.buffer == [FfmpegUnavailableMessage] && job.done
  {
    var refused := CheckRequest(req);
    if refused.Some? {
      return null, Failure(refused.value);
    }
    var id := GenerateJobID(reg.jobs.Keys);
    var j := new Job(JobStatus(PendingStatus, ""), StatusChannelBufferSize);
    reg.AddJob(id, j);
    job := j;
    if !ffmpegAvailable {
      var _ := j.statusCh.TrySend(FfmpegUnavailableMessage);
      j.CloseDone();
      return j, Failure(ServerError("Server error: ffmpeg is not available"));
    }
    response := Success(id);
  }

  /** The goroutine `Submit` starts. A colour that does not parse ends it
      early; otherwise `Lissajous` runs with the job's channel and, on
      success only, the result and the status `complete` are stored. No path
      writes an error status. `Done` is closed on every path. */
  method RunJob(job: Job, form: Form, bgDraw: Convert.RandomDraw, fgDraw: Convert.RandomDraw, env: Lissajous.Env)
    requires job.Valid() && !job.done
    requires |job.statusCh.buffer| + 12 <= job.statusCh.capacity
    modifies job, job.statusCh
    ensures job.Valid() && job.done
    ensures job.State() == AfterRun(old(job.State()), form, env)
    ensures RunSucceeds(form, env) ==>
      job.result == RunOf(form, env).out && job.status == JobStatus(CompleteStatus, "")
    ensures !RunSucceeds(form, env) ==> job.result == old(job.result) && job.status == old(job.status)
  {
    if form.bgColor != "" {
      var bg := Convert.HexStringToColor(form.bgColor, bgDraw);
      if bg.Failure? {
        job.CloseDone();
        return;
      }
    }
    if form.fgColor != "" {
      var fg := Convert.HexStringToColor(form.fgColor, fgDraw);
      if fg.Failure? {
        job.CloseDone();
        return;
      }
    }
    var fps := ClampFrames(form.frames);
    Lissajous.MessagesFitChannel(fps);
    var err, out, staged;
    ghost var created, released;
    err, out, staged, created, released := Lissajous.Lissajous(RunnerEnv(env), DefaultSize, fps, job.statusCh);
    if err.Some? {
      job.CloseDone();
      return;
    }
    job.result := out;
    job.status := JobStatus(CompleteStatus, "");
    job.CloseDone();
  }

  /** `GET /lissajous/status/<id>`: an unknown id is not found and changes
      nothing; otherwise at most one message is taken from the channel and
      becomes the status text, and the status is returned. */
  method Poll(reg: Registry, id: string) returns (r: Result<JobStatus, HttpError>)
    modifies if id in reg.jobs then {reg.jobs[id], reg.jobs[id].statusCh} else {}
    ensures reg.jobs == old(reg.jobs)
    ensures id !in reg.jobs ==> r == Failure(JobNotFound)
    ensures id in reg.jobs ==>
      var job := reg.jobs[id];
      && job.State() == PollState(old(job.State()))
      && r == Success(job.status)
      && (old(job.Valid()) ==> job.Valid())
  {
    var job, found := reg.GetJob(id);
    if !found {
      return Failure(JobNotFound);
    }
    var msg := job.statusCh.TryReceive();
    if msg.Some? {
      job.status := job.status.(status := msg.value);
    }
    r := Success(job.status);
  }

  /** `GET /lissajous/result?id=<id>`: refused for an empty id, an unknown
      id, or a status other than exactly `done`, and then the registry is
      unchanged. Otherwise the result is written; a failed write returns
      before the job is removed, and a successful one removes it. */
  method Fetch(reg: Registry, id: string, writeOk: bool) returns (r: Result<seq<byte>, HttpError>)
    modifies reg
    ensures id == "" ==> r == Failure(MissingJobId) && reg.jobs == old(reg.jobs)
    ensures id != "" && id !in old(reg.jobs) ==> r == Failure(JobNotFound) && reg.jobs == old(reg.jobs)
    ensures id != "" && id in old(reg.jobs) && !Fetchable(old(reg.jobs)[id].State()) ==>
      r == Failure(NotComplete) && reg.jobs == old(reg.jobs)
    ensures id != "" && id in old(reg.jobs) && Fetchable(old(reg.jobs)[id].State()) && !writeOk ==>
      r == Failure(WriteFailed) && reg.jobs == old(reg.jobs)
    ensures id != "" && id in old(reg.jobs) && Fetchable(old(reg.jobs)[id].State()) && writeOk ==>
      r == Success(old(reg.jobs)[id].result) && reg.jobs == old(reg.jobs) - {id}
  {
    if id == "" {
      return Failure(MissingJobId);
    }
    var job, found := reg.GetJob(id);
    if !found {
      return Failure(JobNotFound);
    }
    if job.status.status != FetchableStatus {
      return Failure(NotComplete);
    }
    if !writeOk {
      return Failure(WriteFailed);
    }
    r := Success(job.result);
    reg.RemoveJob(id);
  }

  /** A result is served at most once: after a successful fetch, fetching the
      same id again finds nothing. */
  method FetchTwice(reg: Registry, id: string, writeOk: bool, writeOk': bool)
    returns (first: Result<seq<byte>, HttpError>, second: Result<seq<byte>, HttpError>)
    modifies reg
    ensures first.Success? ==> second == Failure(JobNotFound) && id !in reg.jobs
  {
    first := Fetch(reg, id, writeOk);
    second := Fetch(reg, id, writeOk');
  }

  // ---------------------------------------------------------------------
  // The job lifecycle

  /** Polling delivers the queued messages oldest first, one per poll, and
      touches nothing but the status text and the queue. */
  lemma {:induction false} PollsDeliverInOrder(s: JobState, n: nat)
    requires n <= |s.queue|
    decreases n
    ensures var t := PollMany(s, n);
      && t.queue == s.queue[n..]
      && (n > 0 ==> t.status.status == s.queue[n - 1])
      && (n == 0 ==> t.status == s.status)
      && t.status.error == s.status.error && t.result == s.result && t.done == s.done
  {
    if n > 0 {
      PollsDeliverInOrder(PollState(s), n - 1);
      assert s.queue[1..][n - 1..] == s.queue[n..];
    }
  }

  /** Polling an empty queue changes nothing, however often. */
  lemma {:induction false} PollsOnEmptyQueue(s: JobState, n: nat)
    requires s.queue == []
    decreases n
    ensures PollMany(s, n) == s
  {
    if n > 0 {
      PollsOnEmptyQueue(s, n - 1);
    }
  }

  /** A job whose status is not `done` and whose queue holds no `done` never
      becomes fetchable, however often it is polled. */
  lemma {:induction false} NeverFetchableWithoutDone(s: JobState, n: nat)
    requires !Fetchable(s) && FetchableStatus !in s.queue
    decreases n
    ensures !Fetchable(PollMany(s, n))
  {
    if n > 0 {
      var t := PollState(s);
      assert FetchableStatus !in t.queue by {
        if s.queue != [] { assert forall m :: m in s.queue[1..] ==> m in s.queue; }
      }
      NeverFetchableWithoutDone(t, n - 1);
    }
  }

  /** Straight after a successful run the status is `complete`, which the
      result handler refuses: a result becomes fetchable only once polling
      has taken the `done` message off the queue. */
  lemma CompleteIsNotFetchable(s: JobState, form: Form, env: Lissajous.Env)
    requires RunSucceeds(form, env)
    ensures AfterRun(s, form, env).status.status == CompleteStatus
    ensures !Fetchable(AfterRun(s, form, env))
  {
  }

  /** A job that has not yet seen `done` becomes fetchable through polling
      exactly when its run succeeds: after a success, polling until the
      queue is empty leaves the status `done` and the result in place; after
      any failure (a bad colour, a cancelled or failed `Lissajous`) no
      number of polls makes it fetchable. */
  lemma FetchableIffRunSucceeds(s: JobState, form: Form, env: Lissajous.Env)
    requires !Fetchable(s) && FetchableStatus !in s.queue
    ensures RunSucceeds(form, env) ==>
      var t := AfterRun(s, form, env);
      Fetchable(PollMany(t, |t.queue|)) && PollMany(t, |t.queue|).result == RunOf(form, env).out
    ensures !RunSucceeds(form, env) ==> forall n: nat :: !Fetchable(PollMany(AfterRun(s, form, env), n))
  {
    var t := AfterRun(s, form, env);
    var run := RunOf(form, env);
    if RunSucceeds(form, env) {
      Lissajous.SuccessTrace(RunnerEnv(env), ClampFrames(form.frames), true);
      PollsDeliverInOrder(t, |t.queue|);
      assert t.queue[|t.queue| - 1] == run.sent[|run.sent| - 1];
    } else {
      if ColorAccepted(form.bgColor) && ColorAccepted(form.fgColor) {
        Lissajous.DoneSentIffSuccess(RunnerEnv(env), ClampFrames(form.frames));
        assert FetchableStatus !in t.queue;
      }
      forall n: nat ensures !Fetchable(PollMany(t, n)) {
        NeverFetchableWithoutDone(t, n);
      }
    }
  }

  /** The same run when polls are interleaved with the runner instead of
      coming after it. `Lissajous` has queued `done` before the runner
      stores its result. Polls that drain the queue in that window make the
      job fetchable with the result it had before the run, so a fetch then
      serves that result. Once the runner stores its result, the status is
      `complete` with an empty queue, and the job is never fetchable again. */
  lemma PollBeforeStoreRace(s: JobState, form: Form, env: Lissajous.Env)
    requires RunSucceeds(form, env)
    ensures var sent := s.(queue := s.queue + RunOf(form, env).sent);
      var polled := PollMany(sent, |sent.queue|);
      && Fetchable(polled) && polled.result == s.result
      && forall n: nat :: !Fetchable(PollMany(StoreResult(polled, RunOf(form, env).out), n))
  {
    var run := RunOf(form, env);
    var sent := s.(queue := s.queue + run.sent);
    Lissajous.SuccessTrace(RunnerEnv(env), ClampFrames(form.frames), true);
    PollsDeliverInOrder(sent, |sent.queue|);
    assert sent.queue[|sent.queue| - 1] == run.sent[|run.sent| - 1];
    var stored := StoreResult(PollMany(sent, |sent.queue|), run.out);
    forall n: nat ensures !Fetchable(PollMany(stored, n)) {
      PollsOnEmptyQueue(stored, n);
    }
  }

  /** The runner's call never ends in a cancellation error. */
  lemma RunnerNeverCancelled(form: Form, env: Lissajous.Env)
    ensures RunOf(form, env).err != Some(Lissajous.Cancelled)
  {
    Lissajous.NeverCancelledWithoutSignal(RunnerEnv(env), ClampFrames(form.frames), true);
  }

  /** A job submitted without ffmpeg can never be fetched. */
  lemma UnavailableNeverFetchable(n: nat)
    ensures !Fetchable(PollMany(JobState(JobStatus(PendingStatus, ""), [], [FfmpegUnavailableMessage], true), n))
  {
    NeverFetchableWithoutDone(JobState(JobStatus(PendingStatus, ""), [], [FfmpegUnavailableMessage], true), n);
  }
}
