# Oscilloscope job server and people list, modelled in Dafny

The oscilloscope server renders a random Lissajous animation as an animated
WebP. A client submits a form (`POST /lissajous`) and gets a job id back. A
background runner then renders the frames, hands them to ffmpeg, and reports
progress through a buffered status channel of 20 slots. The client polls
`/lissajous/status/<id>`. Each poll moves at most one message from the
channel into the job's status text. Once a poll has shown `done`, the client
fetches the bytes once from `/lissajous/result?id=<id>`, and the job is
removed. Colours come as `#rrggbb`, `#rrggbbaa` or the keyword `random`. They
are parsed by `HexStringToColor`.

The repository also holds a small Rust command-line people list. Each
person's favourite `Sport` is parsed from free text, and the list is edited
in place by index.

This project models both in Dafny:

- `wrappers.dfy`: `Option` and `Result`.
- `text.dfy`: lower-casing of the ASCII letters, for Go's `strings.ToLower`
  and Rust's `to_lowercase`.
- `decimal.dfy`: Go's `%d`, `%03d` and `strconv.Atoi`.
- `convert.dfy`: `utils/convert.go`, the colour parser. Its reference
  reading (`ValidHexColor`, `ColorOf`) is connected to the code by lemmas. It
  also has a round trip against a formatter.
- `jobs.dfy`: `job.go`. It holds the status channel as a bounded FIFO, the
  `Job` record, and the registry as a class with a map field.
- `lissajous.dfy`: the control flow of `oscilloscope-go-server/utils/lissajous.go`:
  - the frame count and the canvas size;
  - the cancellation checks;
  - the progress message schedule;
  - frame naming;
  - the release of the staging directory.

  The recursive function `Expected` specifies the loop. The method
  `Lissajous` is proved against it. Lemmas state what the call promises.
- `server.dfy`: the handlers and the runner of `main.go`. Lemmas cover the
  whole life of a job.
- `sport.dfy`: `rust-people-db/src/constants.rs`.
- `people.dfy`: `rust-people-db/src/person.rs`.

Each handler, the runner, and each registry call is modelled as one atomic
step. The runner's call of `Lissajous` and its final writes of the result
and the status are one step, so the lemmas about a whole job hold for that
atomic runner. `Server.PollBeforeStoreRace` shows what a poll made between
those two parts does.

## Quirks of the code

- **Colours are checked late.** The form is accepted and the job registered
  (main.go:66-73) before the runner checks the colours (main.go:98-113). A
  bad colour ends the runner without writing any status, so the job stays
  `pending` for good.
- **The runner writes no error status.** On success it stores the result
  and sets the status to `complete` (main.go:138-139). On failure it returns
  (main.go:132-136) without touching the status. Polls still show what
  `Lissajous` queued, such as `ffmpeg failed: ...`
  (oscilloscope-go-server/utils/lissajous.go:143).
- **The result handler wants `done`, not `complete`.** It serves a job only
  when the status text is `done` (main.go:186), which only a poll that takes
  the `done` message off the channel writes (main.go:159-161). The runner's
  own `complete` is refused (`Server.CompleteIsNotFetchable`,
  `Server.FetchableIffRunSucceeds`).
- **There is no cancellation in practice.** The runner passes
  `context.Background()` (main.go:123), so no cancellation ever happens
  (`Server.RunnerNeverCancelled`). The cancellation paths of `Lissajous` are
  modelled and proved in their own right.
- **Pushes can block, but never do.** `Lissajous` pushes each message with
  a `select` whose only other case is `ctx.Done()`
  (oscilloscope-go-server/utils/lissajous.go:100-104, 113-117, 142-146,
  154-158). It sends at most 12 messages to a channel of 20 slots that only
  it writes to, so none of these sends ever waits
  (`Lissajous.MessagesFitChannel`).
- **`#random` is not the keyword.** The keyword test (utils/convert.go:24)
  runs before the `#` is stripped (utils/convert.go:28), so `#random` is
  rejected as a bad hex pair, while `random` and `RaNdOm` are accepted
  (`Convert.HashRandomRejected`).

## Model

| member | source | states |
|---|---|---|
| Text.ToLowerAscii | utils/convert.go:24 | the result has the input's length |
| Text.LowerChar | utils/convert.go:24 | `A`..`Z` map to `a`..`z`, every other char is kept, and no upper-case letter is left |
| Text.ToLowerAsciiChars | utils/convert.go:24 | each char of the result is the input's char at that place, lower-cased |
| Text.ToLowerAsciiFixed | rust-people-db/src/constants.rs:92 | a text with no upper-case ASCII letter is its own lower-case form |
| Text.ToLowerAsciiIdempotent | rust-people-db/src/constants.rs:92 | lower-casing twice is lower-casing once |
| Decimal.DecimalString | oscilloscope-go-server/utils/lissajous.go:101 | `%d` of a natural number is a non-empty digit string that starts with `0` only for zero |
| Decimal.DecimalRoundTrip | oscilloscope-go-server/utils/lissajous.go:101 | reading back the digits of `%d` gives the number |
| Decimal.ZeroPad3 | oscilloscope-go-server/utils/lissajous.go:86 | `%03d` gives at least three digits, exactly three below 1000, and plain `%d` from 100 on |
| Decimal.ZeroPad3Value | oscilloscope-go-server/utils/lissajous.go:86 | the padded digits read back as the number |
| Decimal.ZeroPad3Digits | oscilloscope-go-server/utils/lissajous.go:86 | below 1000, `%03d` is exactly the three decimal digits, hundreds first |
| Decimal.Atoi | main.go:117 | `strconv.Atoi`: digits, `+` digits or `-` digits succeed exactly when the value fits in an int64, and give that value (negated after `-`); an empty text, a bare sign or any other char fails |
| Decimal.AtoiExamples | main.go:117 | leading zeros and a sign before them are accepted (`007`, `+060`, `-0`); `+`, `-`, the empty text, `6a` and ` 6` fail |
| Decimal.AtoiOfDecimal | main.go:117 | `Atoi` reads back every decimal string of a number up to the int64 maximum |
| Decimal.AtoiSigned | main.go:117 | a leading `+` keeps the value and a leading `-` negates it |
| Convert.ScanHex | utils/convert.go:61 | the digit loop of `strconv.ParseUint(s, 16, 8)` succeeds iff every char is a hex digit and the value fits a byte, and then returns the big-endian value |
| Convert.ParseUint8FromHexString | utils/convert.go:60-66 | succeeds iff the text is non-empty, all hex digits in either case, and of value at most 255; it then returns that value |
| Convert.TrimHash | utils/convert.go:28 | at most one leading `#` is removed |
| Convert.ParsePair | utils/convert.go:32-51 | one channel's pair parses iff both chars are hex, giving their value, and a failure names that channel |
| Convert.ParseHex | utils/convert.go:29-54 | after the `#`, success iff the text is 6 or 8 hex digits, giving the colour of its pairs with alpha 255 for 6 digits; other lengths give the length error |
| Convert.AllHexFromPairs | utils/convert.go:32-51 | a 6- or 8-char text is all hex iff each of its pairs is |
| Convert.RandomColor | utils/convert.go:12-19 | the three random channels with alpha 255 |
| Convert.IsRandomKeyword | utils/convert.go:24 | the text lower-cased is `random` |
| Convert.HexStringToColor | utils/convert.go:23-55 | the keyword in any case gives the random colour; otherwise success iff the text after one optional `#` is a valid hex colour, and the value is its reference colour |
| Convert.RandomInAnyCase | utils/convert.go:12-26 | `random` in any letter case is accepted and gives a colour with alpha 255 |
| Convert.WrongLengthRejected | utils/convert.go:28-31 | after the `#` is stripped, any length other than 6 or 8 fails with the length error |
| Convert.NonHexRejected | utils/convert.go:32-51 | one non-hex char anywhere makes the whole parse fail, with no partial colour |
| Convert.ValidDigitsParsed | utils/convert.go:32-54 | valid digits give the three pairs with alpha 255, or alpha from the fourth pair for 8 digits |
| Convert.HashOptional | utils/convert.go:28 | `s` and `#s` parse alike when `s` does not start with `#` and is not the keyword |
| Convert.HashRandomRejected | utils/convert.go:24-34 | `random` is accepted but `#random` fails on the red pair `ra` |
| Convert.HexPair | utils/convert.go:32-51 | the two-digit hex text of a byte is all hex and reads back as that byte |
| Convert.FormatThenParse | utils/convert.go:28-54 | formatting any colour as `#rrggbbaa` in either case and parsing it returns the colour; `#rrggbb` returns it with alpha 255 |
| Convert.ParseUint8ValidExamples | utils/convert_test.go:52-68 | `00`, `7f`, `FF` and `ff` parse to 0, 127, 255 and 255 |
| Convert.ParseUint8InvalidExamples | utils/convert_test.go:70-78 | the empty text, `g1`, `123`, `xyz` and `1000` fail |
| Convert.ValidColorExamples | utils/convert_test.go:13-15 | `#ff0000`, `#00ff00ff` and `#0000ff80` give the expected colours |
| Convert.InvalidColorExamples | utils/convert_test.go:43 | `#123`, `#zzzzzz`, `#1234567`, `#123456789`, `nothex` and the empty text fail |
| Jobs.StatusChannel.constructor | main.go:70 | a new channel is empty and has the given capacity |
| Jobs.StatusChannel.TrySend | main.go:77-80 | the message is queued iff there is room; otherwise it is dropped and the sender does not wait |
| Jobs.StatusChannel.Send | oscilloscope-go-server/utils/lissajous.go:100-104 | a send with room appends the message and keeps the channel within its capacity |
| Jobs.StatusChannel.TryReceive | main.go:159-164 | takes the oldest message if there is one, and otherwise leaves the channel unchanged |
| Jobs.Job.constructor | main.go:68-72 | a new job has the given status, an empty result, an empty channel of the given capacity, and `Done` open |
| Jobs.Job.CloseDone | main.go:81 | closing `Done` is allowed only once and changes neither status nor result |
| Jobs.Registry.constructor | job.go:22 | the registry starts empty |
| Jobs.Registry.AddJob | job.go:26-30 | the id now maps to the job, replacing any earlier entry; every other entry stays |
| Jobs.Registry.GetJob | job.go:32-37 | returns the registered job and true, or nil and false, and changes nothing |
| Jobs.Registry.RemoveJob | job.go:39-43 | the id is gone, every other entry stays, and an absent id is a no-op |
| Jobs.AddThenGet | job.go:26-37 | after adding, the id is found with that job, and no other id is affected |
| Jobs.RemoveThenGet | job.go:32-43 | after removing, the id is not found, and no other id is affected |
| Jobs.GenerateJobID | job.go:45-48 | the new id is not in use |
| Lissajous.FrameCount | oscilloscope-go-server/utils/lissajous.go:53 | `fps * 5` frames, which is 5 to 1000 for rates 1 to 200 |
| Lissajous.CanvasSide | oscilloscope-go-server/utils/lissajous.go:51-52 | the canvas side `2*size+1` is odd and centred on pixel `size` |
| Lissajous.FrameName | oscilloscope-go-server/utils/lissajous.go:86 | `frame_%03d.png` of the frame index |
| Lissajous.FrameNameReadsBack | oscilloscope-go-server/utils/lissajous.go:86 | every name is `frame_`, at least three digits, `.png`, and the digits read back as the index |
| Lissajous.FrameNameDigits | oscilloscope-go-server/utils/lissajous.go:86 | below 1000 a frame name is `frame_`, exactly three digits, `.png` |
| Lissajous.FrameNamesDistinct | oscilloscope-go-server/utils/lissajous.go:86 | any two different frames get different file names, for every frame count |
| Lissajous.FrameNamesOrdered | oscilloscope-go-server/utils/lissajous.go:86 | below 1000 the string order of frame names is their index order |
| Lissajous.ProgressMessage | oscilloscope-go-server/utils/lissajous.go:101 | `generated frame k/frames`, never equal to the encoding message or to `done` |
| Lissajous.FfmpegFailedMessage | oscilloscope-go-server/utils/lissajous.go:143 | `ffmpeg failed: ...`, never equal to the encoding message or to `done` |
| Lissajous.LoopFrom | oscilloscope-go-server/utils/lissajous.go:55-109 | the reference for the loop from iteration `i`: cancellation check, frame fault, progress push, then the next iteration or the encoding stage |
| Lissajous.EncodeTail | oscilloscope-go-server/utils/lissajous.go:111-161 | the reference for the encoding stage: the encoding message, ffmpeg, and `done` or `ffmpeg failed: ...`, each push cancellable |
| Lissajous.Expected | oscilloscope-go-server/utils/lissajous.go:45-161 | the reference for one call: the staging-directory error, or the loop from frame 0 |
| Lissajous.ProgressTrace | oscilloscope-go-server/utils/lissajous.go:99-105 | after `n` frames, one progress message has been sent for each multiple of 100 up to `n` |
| Lissajous.ProgressTraceStep | oscilloscope-go-server/utils/lissajous.go:99-105 | frame `i` adds a message exactly when `i+1` is a multiple of 100, and that message reports `i+1` |
| Lissajous.ProgressReportsIncrease | oscilloscope-go-server/utils/lissajous.go:99-105 | the reported frame numbers are multiples of 100, strictly increasing, and never beyond the frames done |
| Lissajous.MessagesFitChannel | main.go:21 | for rates 1 to 200 a call sends at most 12 messages, fewer than the channel's 20 slots |
| Lissajous.MessageBound | oscilloscope-go-server/utils/lissajous.go:99-158 | at most `frames/100 + 2` messages are sent, and none at all with a nil channel |
| Lissajous.LoopOutcome | oscilloscope-go-server/utils/lissajous.go:55-109 | the loop either stops with a loop error, without running ffmpeg and with only progress messages sent, or stages every frame and runs the encoding stage |
| Lissajous.CancelledBeforeFrame | oscilloscope-go-server/utils/lissajous.go:55-61 | cancellation seen at the top of iteration `i` stages no frame at or after `i` and returns an error; only progress messages of the frames before `i` are sent, never the encoding message, and ffmpeg never runs |
| Lissajous.CancellationStopsFrames | oscilloscope-go-server/utils/lissajous.go:55-61 | the same for the whole call: no frame at or after `i`, an error, only earlier progress messages sent, no encoding message and no ffmpeg |
| Lissajous.EncodingNotInProgress | oscilloscope-go-server/utils/lissajous.go:101 | no progress message is the encoding message |
| Lissajous.LoopNeverCancelled | oscilloscope-go-server/utils/lissajous.go:56-58 | the frame loop, with no cancellation at any frame, never ends with the cancellation error |
| Lissajous.NeverCancelledWithoutSignal | oscilloscope-go-server/utils/lissajous.go:56-58 | a context that is never cancelled never yields the cancellation error |
| Lissajous.SentIsPrefixOfTrace | oscilloscope-go-server/utils/lissajous.go:99-158 | what is sent is always a prefix of: the progress messages, the encoding message, then `done` or `ffmpeg failed: ...` |
| Lissajous.SuccessTrace | oscilloscope-go-server/utils/lissajous.go:140-161 | on success all frames were staged, ffmpeg succeeded, its output is returned, and the trace is complete and ends in `done` |
| Lissajous.FfmpegFailureTrace | oscilloscope-go-server/utils/lissajous.go:140-151 | on encoder failure all frames were staged, and the trace ends in `ffmpeg failed: ...` carrying the encoder's error |
| Lissajous.DoneSentIffSuccess | oscilloscope-go-server/utils/lissajous.go:140-161 | `done` is sent iff the call succeeds |
| Lissajous.Lissajous | oscilloscope-go-server/utils/lissajous.go:34-162 | the outcome, output and frames staged are those of `Expected`; the channel gains exactly the messages `Expected` sends; the staging directory is released on every path once created |
| Lissajous.RenderAndEncode | oscilloscope-go-server/utils/lissajous.go:51-161 | the frame loop followed by the encoding stage equals `LoopFrom` from frame 0 |
| Lissajous.RenderFrames | oscilloscope-go-server/utils/lissajous.go:55-109 | the loop stages the frames in order and sends the progress trace, stopping where the reference `LoopFrom` stops and with its error |
| Lissajous.EncodeFrames | oscilloscope-go-server/utils/lissajous.go:111-161 | the encoding message, the ffmpeg run and the final message, as `EncodeTail` gives them |
| Server.ClampFrames | main.go:115-120 | the rate stays 60 unless the field parses as an integer in 1..200, in which case it is that value |
| Server.ClampFramesAcceptsDecimal | main.go:115-120 | every rate from 1 to 200, written in decimal, is taken as given |
| Server.ClampFramesRejectsOutOfRange | main.go:115-120 | 0, rates above 200, and negative rates fall back to 60 |
| Server.RunnerFrameBounds | main.go:115-131 | the runner renders 5 to 1000 frames and sends at most 12 messages |
| Server.CheckRequest | main.go:52-65 | a request passes iff it is a POST with a form-encoded body that parses |
| Server.Submit | main.go:52-84 | a refused request registers nothing. Otherwise a fresh id maps to a pending job with an empty result and an empty channel of 20. Without ffmpeg, the job gets the unavailable message, is closed, stays registered, and the request fails |
| Server.RunJob | main.go:86-140 | a bad colour or a failed `Lissajous` leaves status and result untouched; success stores the output and sets `complete`; `Done` is closed on every path |
| Server.Poll | main.go:148-169 | an unknown id is not found and changes nothing; otherwise at most one message is taken, and it becomes the status text |
| Server.Fetch | main.go:171-200 | an empty id, an unknown id, a status other than exactly `done`, or a failed write is refused with the registry unchanged; a successful write returns the result and removes the job |
| Server.FetchTwice | main.go:193-199 | after a successful fetch, the same id is not found |
| Server.PollState | main.go:159-164 | the reference for one poll: the oldest queued message, if any, becomes the status text |
| Server.AfterRun | main.go:98-139 | the reference for the runner: the messages `Lissajous` sent are queued; only on success are the result and `complete` written |
| Server.StoreResult | main.go:138-139 | the runner's last two writes: the result bytes and the status `complete` |
| Server.PollsDeliverInOrder | main.go:159-164 | successive polls deliver the queued messages oldest first, one each, and touch nothing else |
| Server.PollsOnEmptyQueue | main.go:159-164 | polling an empty channel changes nothing |
| Server.NeverFetchableWithoutDone | main.go:159-189 | a job that has not seen `done` and has none queued never becomes fetchable |
| Server.CompleteIsNotFetchable | main.go:139-189 | straight after a successful run the status is `complete`, which the result handler refuses |
| Server.FetchableIffRunSucceeds | main.go:132-189 | for the atomic runner, polling makes a job fetchable, with the run's output as result, iff both colours are accepted and `Lissajous` succeeds |
| Server.PollBeforeStoreRace | main.go:138-161 | polls made after `Lissajous` queued `done` but before the runner stores its result make the job fetchable with its old result; once the result is stored the job is never fetchable |
| Server.ClampFramesExamples | main.go:115-120 | `060` and `+007` give 60 and 7; a bare `+` and the empty field give 60 |
| Server.RunnerNeverCancelled | main.go:122-123 | the runner's call never ends in a cancellation error |
| Server.UnavailableNeverFetchable | main.go:75-84 | a job submitted without ffmpeg is never fetchable |
| Sports.Name | rust-people-db/src/constants.rs:121-151 | a known sport displays as a non-empty lower-case name without surrounding spaces; `Other` displays its text verbatim |
| Sports.Emoji | rust-people-db/src/constants.rs:34-61 | the emoji is empty exactly for `Other` |
| Sports.AllKnownSports | rust-people-db/src/constants.rs:63-89 | 23 sports in declaration order, none of them `Other`, and every known sport is among them |
| Sports.AllKnownSportsDistinct | rust-people-db/src/constants.rs:63-89 | the known sports are pairwise distinct |
| Sports.TrimStart | rust-people-db/src/constants.rs:92 | removes exactly the leading white space |
| Sports.TrimEnd | rust-people-db/src/constants.rs:92 | removes exactly the trailing white space |
| Sports.Trim | rust-people-db/src/constants.rs:92 | `str::trim` |
| Sports.TrimProperties | rust-people-db/src/constants.rs:92 | the trimmed text is the slice between the leading and trailing white space, and neither of its ends is white space |
| Sports.Normalize | rust-people-db/src/constants.rs:92 | `s.trim().to_lowercase()` |
| Sports.NormalizeProperties | rust-people-db/src/constants.rs:92 | the normalised text is the trimmed text lower-cased char by char, with no upper-case letter and no white space at its ends |
| Sports.FromString | rust-people-db/src/constants.rs:91-118 | an `Other` result holds the normalised text; a known result displays as the normalised text, or is water polo for `water_polo` |
| Sports.FromName | rust-people-db/src/constants.rs:92-117 | a recognised name gives the sport that displays as it, with `water_polo` also giving water polo; anything else gives `Other` holding that text |
| Sports.TrimIdempotent | rust-people-db/src/constants.rs:92 | trimming twice is trimming once |
| Sports.TrimLowerCommute | rust-people-db/src/constants.rs:92 | trimming and lower-casing commute |
| Sports.NormalizeIdempotent | rust-people-db/src/constants.rs:92 | trim-then-lower-case applied twice is applied once |
| Sports.FromStringIgnoresCaseAndSpace | rust-people-db/src/constants.rs:92 | `from_string(x)` equals `from_string(trim(lower(x)))` and `from_string(lower(trim(x)))` |
| Sports.NameNormalized | rust-people-db/src/constants.rs:121-151 | a known sport's display name is unchanged by trimming and lower-casing |
| Sports.FromNameOfName | rust-people-db/src/constants.rs:93-146 | the match maps every known display name back to its sport |
| Sports.KnownRoundTrip | rust-people-db/src/constants.rs:91-151 | `from_string(s.to_string()) == s` for every known sport |
| Sports.AllKnownRoundTrip | rust-people-db/src/constants.rs:63-151 | the same for every element of `all_known_sports()` |
| Sports.WaterPoloSpellings | rust-people-db/src/constants.rs:104-135 | `water polo` and `water_polo` both give water polo, which displays as `water polo` |
| Sports.FromStringOther | rust-people-db/src/constants.rs:116 | the result is `Other` iff the trimmed lower-cased text is no known name and not `water_polo`, and then `Other` holds that text |
| Sports.OtherDisplay | rust-people-db/src/constants.rs:59-147 | `Other(s)` displays as `s` and has the empty emoji |
| Sports.SerdeRoundTrip | rust-people-db/src/constants.rs:153-186 | serialise-then-deserialise gives back every known sport, and gives back an `Other` iff its text is trimmed, lower-case and no known name |
| Sports.Serialize | rust-people-db/src/constants.rs:153-160 | a sport is written as its display name; a known sport's name parses back to it |
| Sports.Deserialize | rust-people-db/src/constants.rs:171-186 | every string is accepted; an `Other` result holds the normalised text, and a known result serializes as the normalised text or is water polo for `water_polo` |
| Sports.OtherMayBecomeKnown | rust-people-db/src/constants.rs:153-186 | `Other` holding a known name behind a space is a different value, yet comes back from serde as that known sport |
| Sports.LeadingSpaceNormalize | rust-people-db/src/constants.rs:92 | a leading space does not change what `from_string` matches on |
| Sports.NormalizeFixed | rust-people-db/src/constants.rs:92 | a text without upper-case letters or white space at its ends is already normalised |
| People.NewPerson | rust-people-db/src/person.rs:44-56 | the record holds exactly the four given fields |
| People.FavoriteSportEmoji | rust-people-db/src/person.rs:64-66 | a person's sport emoji is empty exactly when the sport is `Other` |
| People.IndexOutOfBounds | rust-people-db/src/person.rs:123 | `Index out of bounds: {index}` |
| People.IndexOutOfBoundsNamesIndex | rust-people-db/src/person.rs:123 | the error text is the fixed prefix followed by digits that read back as the index |
| People.RemoveAt | rust-people-db/src/person.rs:120 | removal drops the element at the index, keeps those before it in place, and moves those after it down by one |
| People.ReplaceAt | rust-people-db/src/person.rs:133 | replacement changes the element at the index only |
| People.PeopleList.constructor | rust-people-db/src/person.rs:113 | the list holds the given people |
| People.PeopleList.AddPerson | rust-people-db/src/person.rs:113-116 | always succeeds and appends the person at the end |
| People.PeopleList.DeletePerson | rust-people-db/src/person.rs:118-125 | an index inside the list removes exactly that element; any other index is an error naming it and changes nothing |
| People.PeopleList.EditPerson | rust-people-db/src/person.rs:127-138 | an index inside the list replaces exactly that element; any other index is an error naming it and changes nothing |
| People.RemoveAtMultiset | rust-people-db/src/person.rs:118-121 | the list loses exactly the removed person and keeps everyone else |
| People.RemoveAfterAppend | rust-people-db/src/person.rs:113-121 | deleting the person just added gives the list back |
| People.ReplaceAtProperties | rust-people-db/src/person.rs:132-134 | putting back the same person changes nothing, and a later edit at an index overrides an earlier one |
| People.RemoveAfterReplace | rust-people-db/src/person.rs:118-138 | editing an index and then deleting it is the same as deleting it |

## Left out

- Concurrency is not modelled. This covers the registry mutex, the runner
  goroutine and the scheduler. Each handler, the whole runner, and each
  registry call is one atomic step. Polls run beside the runner, take
  messages out of the channel and write the status text without a lock
  (main.go:159-161).
- Server.FetchableIffRunSucceeds: holds for the atomic runner only.
  `Lissajous` queues `done` (oscilloscope-go-server/utils/lissajous.go:155)
  before the runner stores the result and `complete` (main.go:138-139). A
  poll in that window takes `done`; a fetch right after it serves the empty
  result and removes the job; otherwise the runner then overwrites the
  status with `complete` while the queue is empty, and the job can never be
  fetched. `Server.PollBeforeStoreRace` states both outcomes of that
  interleaving, but the methods do not model the interleaving itself.
- HTTP plumbing is not modelled: routing, query and form decoding, JSON
  bodies, headers, static files and the demo page. Also out are the
  `http.Error` calls the runner makes after the response has been sent, the
  `.env` and port set-up, and `oscilloscope-go-server/main.go`.
- `exec.LookPath` and `log.Fatal` at start-up are not modelled. The presence
  of ffmpeg is a parameter of `Server.Submit`.
- The renderer's arithmetic is not modelled: the `sin` plot, pixel
  rounding, `crypto/rand` frequencies and phases, and drawing. A staged
  frame is its name and its dimensions. A failed random read is one of the
  per-frame faults in the environment.
- ffmpeg, PNG encoding, temporary files, `time.Sleep` and logging are
  environment inputs of `Lissajous`:
  - whether the staging directory is created;
  - which frame fails and how;
  - whether ffmpeg succeeds, and its output and error text;
  - which `select`s take `ctx.Done()`.
- `os.RemoveAll` is a ghost flag: released on every path once the directory
  exists.
- Lissajous.Lissajous: only the control flow is modelled, not the image
  contents or the ffmpeg arguments.
- Jobs.GenerateJobID: a UUID is taken to be fresh. The model builds an id
  longer than every id in use, so it only promises that the id is new.
- Jobs.StatusChannel.Send: a blocking send on a full channel is not
  modelled. Its precondition of room is discharged by the 12-message bound.
- Text.ToLowerAscii: only the ASCII letters are lower-cased. Go's
  `strings.ToLower` and Rust's `to_lowercase` follow Unicode case mapping.
  A Go string is modelled with one char per byte.
- Lissajous.FrameCount: uses unbounded integers. Go's `int` multiplication
  `fps * 5` cannot overflow for the rates the server passes (1 to 200).
- Sports.Emoji: the source file's text shows the emoji as mis-decoded
  UTF-8. The model uses the pictographs those bytes encode. Only their
  presence or absence is stated.
- The Rust I/O is not modelled: CSV reading and writing, the table printing
  of `print_people`, the `Display` of `Person`, and the line-editor front
  end in `rust-people-db/src/main.rs`.
- `get_age` reads the clock and is left out. The chrono `%Y-%m-%d` wrapper
  is left out; a `NaiveDate` is kept as its three fields.
- Rust's `usize` index is a `nat`.
- The browser scripts and `utils/http.go` are UI and request helpers, and
  are not modelled.
