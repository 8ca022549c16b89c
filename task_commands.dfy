/**
 * The `task` commands of the search-cluster command line: `get` shows one
 * view of a task, `cancel` asks for confirmation before cancelling, and
 * `watch` polls a task until it completes.
 *
 * The cluster is a sequence of answers to successive `tasks.get` calls;
 * sleeping is not modelled, only the seconds it adds up to.
 */
module TaskCommands {
  import opened Wrappers

  /** A JSON object printed as it is; empty means `{}`, which Python treats as false. */
  type Document = seq<(string, string)>

  /** The `task` entry of a task: its description and status, each possibly missing. */
  datatype TaskInfo = TaskInfo(description: Option<string>, status: Option<string>)

  /**
   * What `tasks.get` returns: whether the task is `completed` (missing or
   * false both read as false), its `task` entry (`None` when missing or
   * empty) and its `response` entry (`None` when missing).
   */
  datatype Poll = Poll(completed: bool, task: Option<TaskInfo>, response: Option<Document>, whole: Document)

  /** A call to the cluster: its result, or the exception it raised. */
  datatype Answer<T> = Answered(value: T) | Raised(error: string)

  /** Python's truth value of a `response` entry: present and not empty. */
  predicate Truthy(response: Option<Document>) {
    response.Some? && response.value != []
  }

  // ---------------------------------------------------------------------
  // task get
  // ---------------------------------------------------------------------

  /** What `task get` prints. */
  datatype Shown =
    | ResponseShown(response: Document)                               // the `response`, in green
    | StatusShown(description: Option<string>, status: Option<string>) // the `task` entry, in yellow
    | WholeShown(result: Document)                                     // the whole result, in blue
    | ErrorShown(error: string)                                        // "Error: ...", in red

  /**
   * `task get`: the task's response when it has a non-empty one, else its
   * description and status when it has a `task` entry, else the whole
   * result; a client exception is printed and ends with exit status 1.
   */
  function TaskGet(answer: Answer<Poll>): (r: (Shown, nat))
    ensures r.1 == 0 <==> answer.Answered?
    ensures r.1 != 0 ==> r == (ErrorShown(answer.error), 1)
    ensures answer.Answered? ==>
      var poll := answer.value;
      (r.0.ResponseShown? <==> Truthy(poll.response)) &&
      (r.0.StatusShown? <==> !Truthy(poll.response) && poll.task.Some?) &&
      (r.0.WholeShown? <==> !Truthy(poll.response) && poll.task.None?)
    ensures r.0.ResponseShown? ==> r.0.response == answer.value.response.value
    ensures r.0.StatusShown? ==>
      r.0.description == answer.value.task.value.description && r.0.status == answer.value.task.value.status
    ensures r.0.WholeShown? ==> r.0.result == answer.value.whole
  {
    match answer
    case Raised(err) => (ErrorShown(err), 1)
    case Answered(poll) =>
      if Truthy(poll.response) then (ResponseShown(poll.response.value), 0)
      else if poll.task.Some? then (StatusShown(poll.task.value.description, poll.task.value.status), 0)
      else (WholeShown(poll.whole), 0)
  }

  // ---------------------------------------------------------------------
  // task cancel
  // ---------------------------------------------------------------------

  /** `abort_if_false`: the confirmation callback aborts the command exactly when the value is false. */
  function AbortIfFalse(value: bool): (abort: bool) {
    !value
  }

  /** How `task cancel` ends. */
  datatype CancelRun =
    | Aborted                    // the confirmation was refused; nothing is sent
    | Cancelled(result: Document) // the result of `tasks.cancel`, printed
    | CancelFailed(error: string) // "Error: ...", exit status 1

  /**
   * `task cancel`: the cancel request is made only once confirmed (by the
   * prompt or `--yes-i-know`), and `answer` is its result.
   */
  function TaskCancel(confirmed: bool, answer: Answer<Document>): (r: CancelRun)
    ensures r.Aborted? <==> !confirmed
    ensures confirmed ==> (r.CancelFailed? <==> answer.Raised?)
    ensures r.Cancelled? ==> answer == Answered(r.result)
    ensures r.CancelFailed? ==> answer == Raised(r.error)
  {
    if AbortIfFalse(confirmed) then Aborted
    else
      match answer
      case Raised(err) => CancelFailed(err)
      case Answered(result) => Cancelled(result)
  }

  /** The exit status of `task cancel`: 0 once the result is printed; an abort and an exception both end with 1. */
  function CancelStatus(r: CancelRun): (status: nat)
    ensures status == 0 <==> r.Cancelled?
    ensures status <= 1
  {
    if r.Cancelled? then 0 else 1
  }

  // ---------------------------------------------------------------------
  // task watch
  // ---------------------------------------------------------------------

  /** Whether an answer ends the polling: an exception, or a completed task. */
  predicate Stops(answer: Answer<Poll>) {
    answer.Raised? || answer.value.completed
  }

  /**
   * The cluster eventually ends the polling: some answer stops it, or the
   * interval is negative, where the first sleep raises. (Otherwise the
   * command polls for ever.)
   */
  predicate WatchEnds(polls: seq<Answer<Poll>>, interval: int) {
    (interval < 0 && |polls| > 0) || exists k :: 0 <= k < |polls| && Stops(polls[k])
  }

  /** A progress block: the seconds counted so far and the task's `task` entry. */
  type Progress = (int, TaskInfo)

  /**
   * The progress blocks printed for incomplete polls, in order: one for
   * each poll carrying a `task` entry, the k-th (from 0) showing k times
   * the interval.
   */
  function ProgressOf(polls: seq<Answer<Poll>>, interval: int): (blocks: seq<Progress>)
    requires forall k :: 0 <= k < |polls| ==> polls[k].Answered?
    ensures |blocks| <= |polls|
    decreases |polls|
  {
    if polls == [] then []
    else
      var n := |polls| - 1;
      ProgressOf(polls[..n], interval) +
        (if polls[n].value.task.Some? then [(interval * n, polls[n].value.task.value)] else [])
  }

  /** A progress block is printed exactly for each poll that has a `task` entry, showing its seconds. */
  lemma {:induction false} ProgressOfMeaning(polls: seq<Answer<Poll>>, interval: int)
    requires forall k :: 0 <= k < |polls| ==> polls[k].Answered?
    ensures forall k :: 0 <= k < |polls| && polls[k].value.task.Some? ==>
      (interval * k, polls[k].value.task.value) in ProgressOf(polls, interval)
    ensures forall b :: b in ProgressOf(polls, interval) ==>
      exists k :: 0 <= k < |polls| && polls[k].value.task == Some(b.1) && b.0 == interval * k
    decreases |polls|
  {
    if polls != [] {
      var n := |polls| - 1;
      var init := polls[..n];
      assert forall k :: 0 <= k < n ==> init[k] == polls[k];
      ProgressOfMeaning(init, interval);
    }
  }

  /** How `task watch` ends. */
  datatype Ending =
    | Finished(response: Option<Document>) // "Finished task", then the final poll's `response` is printed
    | ClientFailed(error: string)          // a `tasks.get` call raised: "Error: ...", exit status 1
    | SleepFailed                          // `sleep` refused a negative interval: exit status 1

  /** A run of `task watch`: the calls made, the final seconds count, the progress blocks and the ending. */
  datatype WatchRun = WatchRun(calls: nat, seconds: int, progress: seq<Progress>, ending: Ending)

  /** The exit status of `task watch`. */
  function WatchStatus(run: WatchRun): (status: nat)
    ensures status == 0 <==> run.ending.Finished?
    ensures status <= 1
  {
    if run.ending.Finished? then 0 else 1
  }

  /**
   * `task watch`: poll until a poll is completed, printing progress for
   * each incomplete poll with a `task` entry, sleeping `interval` seconds
   * and counting them between polls.
   */
  method TaskWatch(polls: seq<Answer<Poll>>, interval: int) returns (run: WatchRun)
    requires WatchEnds(polls, interval)
    ensures 1 <= run.calls <= |polls|
    ensures forall k :: 0 <= k < run.calls - 1 ==> !Stops(polls[k])
    ensures run.ending.SleepFailed? <==> interval < 0 && !Stops(polls[0])
    ensures run.ending.SleepFailed? ==> run.calls == 1 && run.seconds == 0 &&
                                        run.progress == ProgressOf(polls[..1], interval)
    ensures !run.ending.SleepFailed? ==>
              Stops(polls[run.calls - 1]) &&
              run.seconds == interval * (run.calls - 1) &&
              run.progress == ProgressOf(polls[..run.calls - 1], interval)
    ensures run.ending.Finished? ==>
              polls[run.calls - 1].Answered? && polls[run.calls - 1].value.completed &&
              run.ending.response == polls[run.calls - 1].value.response
    ensures run.ending.ClientFailed? ==> polls[run.calls - 1] == Raised(run.ending.error)
  {
    var seconds := 0;
    var progress: seq<Progress> := [];
    var i := 0;
    while !Stops(polls[i])
      invariant i < |polls|
      invariant forall k :: 0 <= k < i ==> !Stops(polls[k])
      invariant interval < 0 ==> i == 0
      invariant interval < 0 || exists k :: i <= k < |polls| && Stops(polls[k])
      invariant seconds == interval * i
      invariant progress == ProgressOf(polls[..i], interval)
      decreases |polls| - i
    {
      var info := polls[i].value.task;
      assert polls[..i + 1][..i] == polls[..i];
      if info.Some? {
        progress := progress + [(seconds, info.value)];
      }
      if interval < 0 {
        return WatchRun(1, seconds, progress, SleepFailed);
      }
      seconds := seconds + interval;
      i := i + 1;
    }
    var ending := match polls[i]
      case Raised(err) => ClientFailed(err)
      case Answered(poll) => Finished(poll.response);
    return WatchRun(i + 1, seconds, progress, ending);
  }
}
