/** The download poller of `checkDownloadStatusFunction`: a timer task that, every 10 ms, asks the
    DownloadManager for the job's row, promotes the temp file, and cancels itself once the job
    has succeeded. */
module Polling {
  import opened Wrappers
  import opened Files

  // DownloadManager status codes.
  const StatusPending: int := 1
  const StatusRunning: int := 2
  const StatusPaused: int := 4
  const StatusSuccessful: int := 8
  const StatusFailed: int := 16

  // DownloadManager reason codes for a failed job.
  const ErrorUnknown: int := 1000
  const ErrorFileError: int := 1001
  const ErrorUnhandledHttpCode: int := 1002
  const ErrorHttpDataError: int := 1004
  const ErrorTooManyRedirects: int := 1005
  const ErrorInsufficientSpace: int := 1006
  const ErrorDeviceNotFound: int := 1007
  const ErrorCannotResume: int := 1008
  const ErrorFileAlreadyExists: int := 1009

  // DownloadManager reason codes for a paused job.
  const PausedWaitingToRetry: int := 1
  const PausedWaitingForNetwork: int := 2
  const PausedQueuedForWifi: int := 3
  const PausedUnknown: int := 4

  /** The cursor row of a job: the columns the tick reads. */
  datatype Row = Row(status: int, reason: int, bytesSoFar: int, totalBytes: int, uri: string)

  /** The name `DownloadStatus` gives a status; empty for a code it does not list. */
  function StatusText(status: int): (t: string)
    ensures t != "" <==> status in {StatusPending, StatusRunning, StatusPaused, StatusSuccessful, StatusFailed}
    ensures t != "" ==> |t| > 7 && t[..7] == "STATUS_"
  {
    if status == StatusFailed then "STATUS_FAILED"
    else if status == StatusPaused then "STATUS_PAUSED"
    else if status == StatusPending then "STATUS_PENDING"
    else if status == StatusRunning then "STATUS_RUNNING"
    else if status == StatusSuccessful then "STATUS_SUCCESSFUL"
    else ""
  }

  /** The name `DownloadStatus` gives a reason: only failed and paused jobs have one. */
  function ReasonText(status: int, reason: int): (t: string)
    ensures t != "" ==> status == StatusFailed || status == StatusPaused
    ensures status == StatusFailed && 1000 <= reason <= 1009 && reason != 1003 ==> |t| > 6 && t[..6] == "ERROR_"
    ensures status == StatusPaused && 1 <= reason <= 4 ==> |t| > 7 && t[..7] == "PAUSED_"
  {
    if status == StatusFailed then
      if reason == ErrorCannotResume then "ERROR_CANNOT_RESUME"
      else if reason == ErrorDeviceNotFound then "ERROR_DEVICE_NOT_FOUND"
      else if reason == ErrorFileAlreadyExists then "ERROR_FILE_ALREADY_EXISTS"
      else if reason == ErrorFileError then "ERROR_FILE_ERROR"
      else if reason == ErrorHttpDataError then "ERROR_HTTP_DATA_ERROR"
      else if reason == ErrorInsufficientSpace then "ERROR_INSUFFICIENT_SPACE"
      else if reason == ErrorTooManyRedirects then "ERROR_TOO_MANY_REDIRECTS"
      else if reason == ErrorUnhandledHttpCode then "ERROR_UNHANDLED_HTTP_CODE"
      else if reason == ErrorUnknown then "ERROR_UNKNOWN"
      else ""
    else if status == StatusPaused then
      if reason == PausedQueuedForWifi then "PAUSED_QUEUED_FOR_WIFI"
      else if reason == PausedUnknown then "PAUSED_UNKNOWN"
      else if reason == PausedWaitingForNetwork then "PAUSED_WAITING_FOR_NETWORK"
      else if reason == PausedWaitingToRetry then "PAUSED_WAITING_TO_RETRY"
      else ""
    else ""
  }

  /** `DownloadStatus(cursor)`: computes the two names, discards them, and returns the status
      column as read, whatever its value. */
  function DownloadStatus(row: Row): (status: int)
    ensures status == row.status
  {
    var _ := (StatusText(row.status), ReasonText(row.status, row.reason));
    row.status
  }

  /** Whether a tick that saw `row` cancels the timer. */
  predicate Cancels(row: Option<Row>) {
    row.Some? && DownloadStatus(row.value) == StatusSuccessful
  }

  /** The files after one tick: with a row, the temp file is promoted whatever the status; with
      no row (`moveToFirst()` false), nothing happens. */
  function TickFiles(fs: Store, row: Option<Row>, tmp: string, canonical: string): Store {
    if row.Some? then Promote(fs, tmp, canonical) else fs
  }

  /** What the outside world does between two ticks: the DownloadManager's writes to the
      directory, then the row the next query returns. */
  datatype Sample = Sample(writes: Store, row: Option<Row>)

  /** The outcome of polling: the files and the number of ticks that ran. */
  datatype Outcome = Outcome(files: Store, ticks: nat)

  /** The timer's run over `samples`: each tick first sees its sample's writes, then runs; the
      run ends after the first tick that cancels, or when the samples run out. */
  function PollRun(fs: Store, samples: seq<Sample>, tmp: string, canonical: string): (o: Outcome)
    ensures o.ticks <= |samples|
    decreases |samples|
  {
    if samples == [] then Outcome(fs, 0)
    else
      var after := TickFiles(fs + samples[0].writes, samples[0].row, tmp, canonical);
      if Cancels(samples[0].row) then Outcome(after, 1)
      else
        var rest := PollRun(after, samples[1..], tmp, canonical);
        Outcome(rest.files, rest.ticks + 1)
  }

  /** The index of the first sample whose row reports success, or `|samples|` if none does. */
  function FirstSuccess(samples: seq<Sample>): (k: nat)
    ensures k <= |samples|
    ensures forall i :: 0 <= i < k ==> !Cancels(samples[i].row)
    ensures k < |samples| ==> Cancels(samples[k].row)
    decreases |samples|
  {
    if samples == [] then 0
    else if Cancels(samples[0].row) then 0
    else 1 + FirstSuccess(samples[1..])
  }

  /** Polling stops exactly at the first successful row: every earlier tick ran, no later one;
      failed, paused, pending and running jobs keep the timer going. */
  lemma {:induction false} PollStopsAtFirstSuccess(fs: Store, samples: seq<Sample>, tmp: string, canonical: string)
    ensures PollRun(fs, samples, tmp, canonical).ticks == if FirstSuccess(samples) < |samples| then FirstSuccess(samples) + 1 else |samples|
    decreases |samples|
  {
    if samples != [] && !Cancels(samples[0].row) {
      var after := TickFiles(fs + samples[0].writes, samples[0].row, tmp, canonical);
      PollStopsAtFirstSuccess(after, samples[1..], tmp, canonical);
    }
  }

  /** A job that never reports success is polled on every sample. */
  lemma NeverSuccessfulPollsForever(fs: Store, samples: seq<Sample>, tmp: string, canonical: string)
    requires forall i :: 0 <= i < |samples| ==> samples[i].row.Some? ==> samples[i].row.value.status != StatusSuccessful
    ensures PollRun(fs, samples, tmp, canonical).ticks == |samples|
  {
    PollStopsAtFirstSuccess(fs, samples, tmp, canonical);
  }

  /** A tick with a row promotes whatever the status: a partial file of a running job is moved
      to the canonical path too, and the temp path is left empty. */
  lemma TickPromotesWhileRunning(fs: Store, row: Row, tmp: string, canonical: string)
    requires row.status == StatusRunning && tmp in fs && tmp != canonical
    ensures var r := TickFiles(fs, Some(row), tmp, canonical);
      canonical in r && r[canonical] == fs[tmp] && tmp !in r
    ensures !Cancels(Some(row))
  {
    PromoteEffect(fs, tmp, canonical);
  }

  /** Whether no write in `samples` touches `path`. */
  predicate NeverWritten(samples: seq<Sample>, path: string) {
    forall i :: 0 <= i < |samples| ==> path !in samples[i].writes
  }

  /** All the writes of the first `n` samples, in order. */
  function Written(fs: Store, samples: seq<Sample>, n: nat): Store
    requires n <= |samples|
    decreases n
  {
    if n == 0 then fs else Written(fs, samples, n - 1) + samples[n - 1].writes
  }

  /** A download that writes straight to the canonical path, never to the temp path, is left
      alone by the poller: the files are the writes of the ticks that ran. */
  lemma {:induction false} PollWithoutTmpIsWrites(fs: Store, samples: seq<Sample>, tmp: string, canonical: string)
    requires tmp !in fs && NeverWritten(samples, tmp)
    ensures var o := PollRun(fs, samples, tmp, canonical); o.files == Written(fs, samples, o.ticks)
    decreases |samples|
  {
    if samples != [] {
      var after := TickFiles(fs + samples[0].writes, samples[0].row, tmp, canonical);
      PromoteEffect(fs + samples[0].writes, tmp, canonical);
      assert after == fs + samples[0].writes;
      if !Cancels(samples[0].row) {
        PollWithoutTmpIsWrites(after, samples[1..], tmp, canonical);
        WrittenShift(fs, samples, PollRun(after, samples[1..], tmp, canonical).ticks);
      }
    }
  }

  lemma {:induction false} WrittenShift(fs: Store, samples: seq<Sample>, n: nat)
    requires 0 < |samples| && n < |samples|
    ensures Written(fs + samples[0].writes, samples[1..], n) == Written(fs, samples, n + 1)
    decreases n
  {
    if n > 0 {
      WrittenShift(fs, samples, n - 1);
    }
  }

  /** Once the job succeeds, the run ends on that tick with what the DownloadManager had
      written to the temp path by then promoted to the canonical path, and no temp file left. */
  lemma {:induction false} SuccessfulTickPromotes(fs: Store, samples: seq<Sample>, tmp: string, canonical: string)
    requires tmp != canonical && FirstSuccess(samples) < |samples|
    requires tmp in samples[FirstSuccess(samples)].writes
    ensures var o := PollRun(fs, samples, tmp, canonical);
      var k := FirstSuccess(samples);
      && o.ticks == k + 1
      && canonical in o.files && o.files[canonical] == samples[k].writes[tmp] && tmp !in o.files
    decreases |samples|
  {
    var after := TickFiles(fs + samples[0].writes, samples[0].row, tmp, canonical);
    if Cancels(samples[0].row) {
      PromoteEffect(fs + samples[0].writes, tmp, canonical);
    } else {
      assert samples[1..][FirstSuccess(samples[1..])] == samples[FirstSuccess(samples)];
      SuccessfulTickPromotes(after, samples[1..], tmp, canonical);
    }
  }
}
