/** One task's progress as server-sent events, pulled by reads of any size. */
module TaskStream {
  import opened Common

  /** `rest` is what a frame tells of a task beside its state, progress and error. */
  datatype Task = Task(state: string, progress: int, error: string, rest: int)

  /** How a task is put into JSON is the caller's. */
  type Encoder = Task -> string

  const DONE := "event: done\ndata: {}\n\n"

  function Frame(encode: Encoder, t: Task): (f: string)
    ensures f != ""
  {
    "event: task\ndata: " + encode(t) + "\n\n"
  }

  predicate Terminal(state: string) { state == "done" || state == "failed" || state == "parked" }

  predicate Changed(a: Task, b: Task) { a.state != b.state || a.progress != b.progress || a.error != b.error }

  /** What a poll finds: the request over; the session, the account or the task gone; or the task as it is. */
  datatype Poll = Cancelled | Gone | Current(task: Task)

  datatype Stream = Stream(last: Task, started: bool, done: bool, buf: string)

  datatype Outcome = Read(out: string) | Eof | Over | Waiting

  // ----------------------------------------------------------------------- one read

  /** The stream once it has something to deliver, or has found that it never will; and the polls that took. */
  datatype Filled = Filled(stream: Stream, stop: Option<Outcome>, used: nat)

  function Fill(encode: Encoder, s: Stream, polls: seq<Poll>): (r: Filled)
    ensures r.used <= |polls| && (r.stop.None? ==> r.stream.buf != "")
    decreases |polls|
  {
    if s.buf != "" then Filled(s, None, 0)
    else if s.done then Filled(s, Some(Eof), 0)
    else if !s.started then Filled(s.(started := true, buf := Frame(encode, s.last)), None, 0)
    else if Terminal(s.last.state) then Filled(s.(done := true, buf := DONE), None, 0)
    else if polls == [] then Filled(s, Some(Waiting), 0)
    else
      match polls[0]
      case Cancelled => Filled(s, Some(Over), 1)
      case Gone => Filled(s, Some(Eof), 1)
      case Current(t) =>
        if Changed(s.last, t) then Filled(s.(last := t, buf := Frame(encode, t)), None, 1)
        else
          var r := Fill(encode, s, polls[1..]);
          r.(used := r.used + 1)
  }

  function ReadOf(encode: Encoder, s: Stream, n: nat, polls: seq<Poll>): (Stream, Outcome, nat) {
    var r := Fill(encode, s, polls);
    if r.stop.Some? then (r.stream, r.stop.value, r.used)
    else
      var k := Min(n, |r.stream.buf|);
      (r.stream.(buf := r.stream.buf[k..]), Read(r.stream.buf[..k]), r.used)
  }

  class TaskEventStream {
    var last: Task
    var started: bool
    var done: bool
    var buf: string

    ghost function Model(): Stream
      reads this
    {
      Stream(last, started, done, buf)
    }

    constructor (task: Task)
      ensures Model() == Stream(task, false, false, "")
    {
      last, started, done, buf := task, false, false, "";
    }

    method Stage(encode: Encoder, task: Task)
      modifies this`buf
      ensures buf == old(buf) + Frame(encode, task)
    {
      buf := buf + ("event: task\ndata: " + encode(task) + "\n\n");
    }

    /** Reads up to `n` characters, polling until there are any. `polls` is what the polls find, in turn. */
    method Read(encode: Encoder, n: nat, polls: seq<Poll>) returns (outcome: Outcome, used: nat)
      modifies this
      ensures (Model(), outcome, used) == ReadOf(encode, old(Model()), n, polls)
    {
      hide Terminal, Changed, Frame;
      used := 0;
      ghost var goal := Fill(encode, Model(), polls);
      assert polls[0..] == polls;
      while |buf| == 0
        invariant used <= |polls|
        invariant var r := Fill(encode, Model(), polls[used..]); goal == r.(used := r.used + used)
        decreases |polls| - used, !done, |buf| == 0
      {
        if done {
          return Eof, used;
        }
        if !started {
          started := true;
          Stage(encode, last);
          assert "" + Frame(encode, last) == Frame(encode, last);
          continue;
        }
        if Terminal(last.state) {
          buf := buf + DONE;
          assert "" + DONE == DONE;
          done := true;
          continue;
        }
        if used == |polls| {
          return Waiting, used;
        }
        var poll := polls[used];
        assert polls[used..][0] == poll && polls[used..][1..] == polls[used + 1..];
        used := used + 1;
        if poll.Cancelled? {
          return Over, used;
        }
        if poll.Gone? {
          return Eof, used;
        }
        if Changed(last, poll.task) {
          last := poll.task;
          Stage(encode, poll.task);
          assert "" + Frame(encode, last) == Frame(encode, last);
        }
      }
      var k := if n < |buf| then n else |buf|;
      outcome := Outcome.Read(buf[..k]);
      buf := buf[k..];
    }
  }

  // ----------------------------------------------------------- what a stream is to say

  /** The first task's frame, and then one for each task that differs from the one polled before it. */
  function Frames(encode: Encoder, tasks: seq<Task>): string {
    if tasks == [] then ""
    else
      var n := |tasks| - 1;
      Frames(encode, tasks[..n]) + if n == 0 || Changed(tasks[n - 1], tasks[n]) then Frame(encode, tasks[n]) else ""
  }

  /** Two tasks an observer cannot tell apart. */
  ghost predicate Alike(a: Task, b: Task) { a.state == b.state && a.progress == b.progress && a.error == b.error }

  /** A task there is nothing more to come of. */
  ghost predicate Finished(t: Task) { t.state in {"done", "failed", "parked"} }

  lemma ChangedIs(a: Task, b: Task)
    ensures Changed(a, b) <==> !Alike(a, b)
    ensures Terminal(a.state) <==> Finished(a)
  {
  }

  /** Why a stream stops: all told, or the task gone; the request over; or nothing to tell until the next poll. */
  ghost predicate StopsFor(stop: Option<Outcome>, s: Stream, polls: seq<Poll>, used: nat)
    requires used <= |polls|
  {
    match stop
    case None => true
    case Some(Eof) => s.done || (used > 0 && polls[used - 1].Gone?)
    case Some(Over) => used > 0 && polls[used - 1].Cancelled?
    case Some(Waiting) => used == |polls| && s.started && !Finished(s.last)
    case Some(Read(_)) => false
  }

  /** Everything said, delivered or still buffered, is what the tasks seen so far call for, with `done` only behind a terminal one. */
  ghost predicate Tells(encode: Encoder, s: Stream, tasks: seq<Task>, delivered: string) {
    && tasks != []
    && (forall k :: 0 <= k < |tasks| - 1 ==> !Terminal(tasks[k].state))
    && !Changed(s.last, tasks[|tasks| - 1])
    && if !s.started then s == Stream(tasks[0], false, false, "") && |tasks| == 1 && delivered == ""
       else delivered + s.buf == Frames(encode, tasks) + (if s.done then DONE else "") && (s.done ==> Terminal(s.last.state))
  }

  function TasksOf(polls: seq<Poll>): seq<Task> {
    if polls == [] then [] else (if polls[0].Current? then [polls[0].task] else []) + TasksOf(polls[1..])
  }

  lemma {:induction false} FramesSnoc(encode: Encoder, tasks: seq<Task>, t: Task)
    requires tasks != []
    ensures Frames(encode, tasks + [t]) == Frames(encode, tasks) + if Changed(tasks[|tasks| - 1], t) then Frame(encode, t) else ""
  {
    hide Frame, Changed;
    var all, n := tasks + [t], |tasks|;
    assert all[..n] == tasks && all[n - 1] == tasks[n - 1] && all[n] == t && |all| == n + 1;
    assert Frames(encode, all) == Frames(encode, all[..n]) + if Changed(all[n - 1], all[n]) then Frame(encode, all[n]) else "";
  }

  lemma {:induction false} FillTells(encode: Encoder, s: Stream, polls: seq<Poll>, tasks: seq<Task>, delivered: string)
    requires Tells(encode, s, tasks, delivered)
    ensures
      var r := Fill(encode, s, polls);
      && Tells(encode, r.stream, tasks + TasksOf(polls[..r.used]), delivered)
      && (r.stop.Some? ==> r.stream.buf == "") && StopsFor(r.stop, r.stream, polls, r.used)
    decreases |polls|
  {
    hide Frames, Terminal, Frame, Finished;
    ChangedIs(s.last, s.last);
    var r := Fill(encode, s, polls);
    if r.used == 0 {
      assert polls[..0] == [] && tasks + [] == tasks;
      FirstFrame(encode, tasks[0]);
      assert |tasks| == 1 ==> tasks == [tasks[0]];
      assert delivered + "" == delivered;
      assert Frames(encode, tasks) + "" == Frames(encode, tasks);
    } else {
      assert polls[..r.used][0] == polls[0] && polls[..r.used][1..] == polls[1..][..r.used - 1];
      if polls[0].Current? {
        var t := polls[0].task;
        FramesSnoc(encode, tasks, t);
        assert delivered + "" == delivered && Frames(encode, tasks) + "" == Frames(encode, tasks);
        Assoc(tasks, [t], TasksOf(polls[1..][..r.used - 1]));
        if Changed(s.last, t) {
          assert polls[1..][..0] == [] && tasks + [t] + [] == tasks + [t];
        } else {
          FillTells(encode, s, polls[1..], tasks + [t], delivered);
        }
      } else {
        assert polls[1..][..0] == [] && tasks + ([] + []) == tasks;
      }
    }
  }

  lemma FirstFrame(encode: Encoder, t: Task)
    ensures Frames(encode, [t]) == Frame(encode, t)
  {
    assert Frames(encode, [t][..0]) == "";
  }

  // ---------------------------------------------------------------------- a whole run

  /** Reads of the given sizes one after another, until one delivers nothing. */
  function Run(encode: Encoder, s: Stream, sizes: seq<nat>, polls: seq<Poll>): (Stream, string, Option<Outcome>, nat)
    decreases |sizes|
  {
    if sizes == [] then (s, "", None, 0)
    else
      var (next, outcome, used) := ReadOf(encode, s, sizes[0], polls);
      ReadUses(encode, s, sizes[0], polls);
      match outcome
      case Read(out) =>
        var (last, rest, stop, more) := Run(encode, next, sizes[1..], polls[used..]);
        (last, out + rest, stop, used + more)
      case _ => (next, "", Some(outcome), used)
  }

  lemma ReadUses(encode: Encoder, s: Stream, n: nat, polls: seq<Poll>)
    ensures ReadOf(encode, s, n, polls).2 <= |polls|
  {
  }

  lemma {:induction false} RunUses(encode: Encoder, s: Stream, sizes: seq<nat>, polls: seq<Poll>)
    ensures Run(encode, s, sizes, polls).3 <= |polls|
    decreases |sizes|
  {
    if sizes != [] {
      var (next, outcome, used) := ReadOf(encode, s, sizes[0], polls);
      ReadUses(encode, s, sizes[0], polls);
      if outcome.Read? {
        RunUses(encode, next, sizes[1..], polls[used..]);
      }
    }
  }

  lemma ReadTells(encode: Encoder, s: Stream, n: nat, polls: seq<Poll>, tasks: seq<Task>, delivered: string)
    requires Tells(encode, s, tasks, delivered)
    ensures
      var (next, outcome, used) := ReadOf(encode, s, n, polls);
      && used <= |polls|
      && Tells(encode, next, tasks + TasksOf(polls[..used]), if outcome.Read? then delivered + outcome.out else delivered)
      && (outcome.Read? && n > 0 ==> outcome.out != "")
      && (!outcome.Read? ==> next.buf == "" && StopsFor(Some(outcome), next, polls, used))
  {
    hide Frames, Terminal, Frame, Changed, Fill, Finished;
    FillTells(encode, s, polls, tasks, delivered);
    var r := Fill(encode, s, polls);
    if r.stop.None? {
      var k := Min(n, |r.stream.buf|);
      assert r.stream.buf == r.stream.buf[..k] + r.stream.buf[k..];
      Assoc(delivered, r.stream.buf[..k], r.stream.buf[k..]);
    }
  }

  lemma {:induction false} TasksConcat(a: seq<Poll>, b: seq<Poll>)
    ensures TasksOf(a + b) == TasksOf(a) + TasksOf(b)
  {
    if a == [] {
      assert a + b == b && [] + TasksOf(b) == TasksOf(b);
    } else {
      TasksConcat(a[1..], b);
      assert (a + b)[0] == a[0] && (a + b)[1..] == a[1..] + b;
      Assoc(if a[0].Current? then [a[0].task] else [], TasksOf(a[1..]), TasksOf(b));
    }
  }

  lemma {:induction false} RunTells(encode: Encoder, s: Stream, sizes: seq<nat>, polls: seq<Poll>, tasks: seq<Task>, delivered: string)
    requires Tells(encode, s, tasks, delivered)
    ensures
      var (last, out, stop, used) := Run(encode, s, sizes, polls);
      && used <= |polls| && Tells(encode, last, tasks + TasksOf(polls[..used]), delivered + out)
      && (stop.Some? ==> last.buf == "") && StopsFor(stop, last, polls, used)
    decreases |sizes|
  {
    hide Tells, ReadOf, TasksOf, Finished;
    if sizes == [] {
      NoTasks(polls);
      assert tasks + [] == tasks && delivered + "" == delivered;
    } else {
      var (next, outcome, used) := ReadOf(encode, s, sizes[0], polls);
      ReadTells(encode, s, sizes[0], polls, tasks, delivered);
      if outcome.Read? {
        var more := Run(encode, next, sizes[1..], polls[used..]).3;
        var seen := TasksOf(polls[..used]);
        RunTells(encode, next, sizes[1..], polls[used..], tasks + seen, delivered + outcome.out);
        assert polls[..used + more] == polls[..used] + polls[used..][..more];
        TasksConcat(polls[..used], polls[used..][..more]);
        Assoc(tasks, seen, TasksOf(polls[used..][..more]));
        Assoc(delivered, outcome.out, Run(encode, next, sizes[1..], polls[used..]).1);
        assert more > 0 ==> polls[used..][more - 1] == polls[used + more - 1];
      } else {
        assert delivered + "" == delivered;
      }
    }
  }

  lemma NoTasks(polls: seq<Poll>)
    ensures TasksOf(polls[..0]) == []
  {
  }

  /**
   Whatever the sizes of the reads and whatever the polls find, the stream
   delivers the first task's frame, one for each observable change, and a
   `done` only behind a terminal task; it ends only behind that or when there
   is no one or nothing to report to; and what it holds as the last task
   agrees with the latest poll.
   */
  lemma StreamTellsTheTask(encode: Encoder, first: Task, sizes: seq<nat>, polls: seq<Poll>)
    ensures
      var (last, out, stop, used) := Run(encode, Stream(first, false, false, ""), sizes, polls);
      var tasks := [first] + TasksOf(polls[..Min(used, |polls|)]);
      && used <= |polls|
      && Alike(last.last, tasks[|tasks| - 1])
      && (forall k :: 0 <= k < |tasks| - 1 ==> !Finished(tasks[k]))
      && (last.started ==> out + last.buf == Frames(encode, tasks) + if last.done then DONE else "")
      && (!last.started ==> out == "" && last.buf == "" && used == 0)
      && (last.done ==> Finished(tasks[|tasks| - 1]))
      && (stop.Some? ==> last.buf == "") && StopsFor(stop, last, polls, used)
  {
    hide Frames, Frame, Run, Terminal, TasksOf;
    var s := Stream(first, false, false, "");
    assert Tells(encode, s, [first], "");
    RunTells(encode, s, sizes, polls, [first], "");
    var out := Run(encode, s, sizes, polls).1;
    assert "" + out == out;
    NotStartedUnused(encode, s, sizes, polls);
    var (last, _, _, used) := Run(encode, s, sizes, polls);
    var tasks := [first] + TasksOf(polls[..used]);
    ChangedIs(last.last, tasks[|tasks| - 1]);
    forall k | 0 <= k < |tasks|
      ensures Terminal(tasks[k].state) <==> Finished(tasks[k])
    {
      ChangedIs(tasks[k], tasks[k]);
    }
  }

  /** One frame for the first task, and one for each that is not like the one polled before it. */
  lemma {:induction false} OneFrameAChange(encode: Encoder, tasks: seq<Task>, t: Task)
    ensures Frames(encode, [t]) == Frame(encode, t)
    ensures tasks != [] ==>
      Frames(encode, tasks + [t]) == Frames(encode, tasks) + if Alike(tasks[|tasks| - 1], t) then "" else Frame(encode, t)
  {
    hide Frame, Frames;
    FirstFrame(encode, t);
    if tasks != [] {
      FramesSnoc(encode, tasks, t);
    }
  }

  lemma NotStartedUnused(encode: Encoder, s: Stream, sizes: seq<nat>, polls: seq<Poll>)
    requires !s.started && s.buf == "" && !s.done
    ensures sizes == [] ==> Run(encode, s, sizes, polls).3 == 0
    ensures sizes != [] ==> Run(encode, s, sizes, polls).0.started
  {
    hide Frame;
    if sizes != [] {
      Starts(encode, ReadOf(encode, s, sizes[0], polls).0, sizes[1..], polls);
    }
  }

  lemma {:induction false} Starts(encode: Encoder, s: Stream, sizes: seq<nat>, polls: seq<Poll>)
    requires s.started
    ensures Run(encode, s, sizes, polls).0.started
    decreases |sizes|
  {
    hide Frame, Fill;
    if sizes != [] {
      var (next, outcome, used) := ReadOf(encode, s, sizes[0], polls);
      ReadUses(encode, s, sizes[0], polls);
      StaysStarted(encode, s, polls);
      if outcome.Read? {
        Starts(encode, next, sizes[1..], polls[used..]);
      }
    }
  }

  lemma {:induction false} StaysStarted(encode: Encoder, s: Stream, polls: seq<Poll>)
    requires s.started
    ensures Fill(encode, s, polls).stream.started
    decreases |polls|
  {
    hide Frame;
    if polls != [] {
      StaysStarted(encode, s, polls[1..]);
    }
  }
}
