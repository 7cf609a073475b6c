/** Taking an ICY stream apart: what the listener is to hear, and the metadata between. */
module IcyRelay {
  import opened Common

  // ------------------------------------------------------ the stream, a byte at a time

  /** What a stream comes to: audio bytes in order, and the blocks between them. */
  datatype Event = Audio(b: byte) | Block(meta: Bytes)

  datatype State = State(audioLeft: nat, metaLeft: nat, needLen: bool, meta: Bytes)

  function Fresh(metaint: nat): State { State(metaint, 0, false, []) }

  /** Between bytes the relay is in one of three places, and in one only. */
  ghost predicate Sound(metaint: nat, s: State) {
    && metaint > 0
    && s.audioLeft <= metaint
    && (s.audioLeft > 0 ==> !s.needLen && s.metaLeft == 0)
    && (s.needLen ==> s.audioLeft == 0 && s.metaLeft == 0)
    && (s.metaLeft > 0 ==> s.audioLeft == 0 && !s.needLen)
    && (s.audioLeft > 0 || s.needLen || s.metaLeft > 0)
    && (s.metaLeft > 0 ==> (|s.meta| + s.metaLeft) % 16 == 0 && |s.meta| + s.metaLeft <= 4080)
  }

  function Step(metaint: nat, s: State, b: byte): (State, seq<Event>) {
    if s.audioLeft > 0 then
      (s.(audioLeft := s.audioLeft - 1, needLen := s.audioLeft == 1), [Audio(b)])
    else if s.needLen then
      if b == 0 then (State(metaint, 0, false, []), [Block([])])
      else (State(0, b * 16, false, []), [])
    else if s.metaLeft <= 1 then (State(metaint, 0, false, s.meta + [b]), [Block(s.meta + [b])])
    else (s.(metaLeft := s.metaLeft - 1, meta := s.meta + [b]), [])
  }

  function Run(metaint: nat, s: State, p: Bytes): (State, seq<Event>)
    decreases |p|
  {
    if p == [] then (s, [])
    else
      var (s1, e1) := Step(metaint, s, p[0]);
      var (s2, e2) := Run(metaint, s1, p[1..]);
      (s2, e1 + e2)
  }

  lemma RunCons(metaint: nat, s: State, p: Bytes)
    ensures p == [] ==> Run(metaint, s, p) == (s, [])
    ensures p != [] ==>
      var (s1, e1) := Step(metaint, s, p[0]);
      Run(metaint, s, p) == (Run(metaint, s1, p[1..]).0, e1 + Run(metaint, s1, p[1..]).1)
  {
  }

  lemma StepSound(metaint: nat, s: State, b: byte)
    requires Sound(metaint, s)
    ensures Sound(metaint, Step(metaint, s, b).0)
  {
  }

  lemma {:induction false} RunSound(metaint: nat, s: State, p: Bytes)
    requires Sound(metaint, s)
    ensures Sound(metaint, Run(metaint, s, p).0)
    decreases |p|
  {
    if p != [] {
      StepSound(metaint, s, p[0]);
      RunSound(metaint, Step(metaint, s, p[0]).0, p[1..]);
    }
  }

  /** Where a read ends makes no difference: two reads are the one read they add up to. */
  lemma {:induction false} RunSplits(metaint: nat, s: State, p: Bytes, q: Bytes)
    ensures
      var (s1, e1) := Run(metaint, s, p);
      var (s2, e2) := Run(metaint, s1, q);
      Run(metaint, s, p + q) == (s2, e1 + e2)
    decreases |p|
  {
    if p == [] {
      assert p + q == q;
      assert [] + Run(metaint, s, q).1 == Run(metaint, s, q).1;
    } else {
      assert (p + q)[0] == p[0] && (p + q)[1..] == p[1..] + q;
      var (s1, e1) := Step(metaint, s, p[0]);
      RunSplits(metaint, s1, p[1..], q);
      var (s2, e2) := Run(metaint, s1, p[1..]);
      assert e1 + (e2 + Run(metaint, s2, q).1) == e1 + e2 + Run(metaint, s2, q).1;
    }
  }

  // ------------------------------------------------------------ nothing lost, nothing twice

  /** The bytes an event came from. */
  function Wire(e: Event): Bytes
    requires e.Block? ==> |e.meta| <= 4080
  {
    match e
    case Audio(b) => [b]
    case Block(m) => [|m| / 16] + m
  }

  /** Blocks as the wire can carry them: whole sixteens, at most 255 of them. */
  ghost predicate Tidy(events: seq<Event>) {
    forall k :: 0 <= k < |events| ==> events[k].Block? ==> |events[k].meta| % 16 == 0 && |events[k].meta| <= 4080
  }

  ghost function WireAll(events: seq<Event>): Bytes
    requires Tidy(events)
  {
    if events == [] then [] else Wire(events[0]) + WireAll(events[1..])
  }

  /** The bytes of a block begun and not yet finished. */
  function Pending(s: State): Bytes
    requires s.metaLeft > 0 ==> |s.meta| + s.metaLeft <= 4080
  {
    if s.metaLeft > 0 then [(|s.meta| + s.metaLeft) / 16] + s.meta else []
  }

  lemma {:induction false} WireAllConcat(a: seq<Event>, b: seq<Event>)
    requires Tidy(a) && Tidy(b)
    ensures Tidy(a + b) && WireAll(a + b) == WireAll(a) + WireAll(b)
  {
    hide Wire;
    if a == [] {
      assert a + b == b && WireAll(a) == [];
      assert [] + WireAll(b) == WireAll(b);
    } else {
      assert (a + b)[0] == a[0] && (a + b)[1..] == a[1..] + b;
      WireAllConcat(a[1..], b);
      Assoc(Wire(a[0]), WireAll(a[1..]), WireAll(b));
    }
  }

  /**
   Any bytes at all: what comes out, put back on the wire, with the block still
   open after it, is what went in after the block that was open before.
   */
  lemma {:induction false} NothingLost(metaint: nat, s: State, p: Bytes)
    requires Sound(metaint, s)
    ensures
      var (s', events) := Run(metaint, s, p);
      && Sound(metaint, s') && Tidy(events)
      && Pending(s) + p == WireAll(events) + Pending(s')
    decreases |p|
  {
    hide Step, Run, Pending;
    RunCons(metaint, s, p);
    if p == [] {
      assert Pending(s) + [] == [] + Pending(s);
    } else {
      var (s1, e1) := Step(metaint, s, p[0]);
      StepConserves(metaint, s, p[0]);
      NothingLost(metaint, s1, p[1..]);
      var (s2, e2) := Run(metaint, s1, p[1..]);
      WireAllConcat(e1, e2);
      Rejoin(Pending(s), p, WireAll(e1), Pending(s1), WireAll(e2), Pending(s2));
    }
  }

  lemma Rejoin(before: Bytes, p: Bytes, w1: Bytes, between: Bytes, w2: Bytes, after: Bytes)
    requires p != [] && before + [p[0]] == w1 + between && between + p[1..] == w2 + after
    ensures before + p == w1 + w2 + after
  {
    assert before + p == before + [p[0]] + p[1..];
    assert w1 + between + p[1..] == w1 + (between + p[1..]);
    assert w1 + (w2 + after) == w1 + w2 + after;
  }

  lemma StepConserves(metaint: nat, s: State, b: byte)
    requires Sound(metaint, s)
    ensures
      var (s1, e1) := Step(metaint, s, b);
      Sound(metaint, s1) && Tidy(e1) && Pending(s) + [b] == WireAll(e1) + Pending(s1)
  {
    var (s1, e1) := Step(metaint, s, b);
    if |e1| == 1 {
      assert WireAll(e1) == Wire(e1[0]) + WireAll([]);
    }
  }

  // ------------------------------------------------------------- undoing an interleaving

  /** A station's stream: `metaint` audio bytes, a block, and so on; the audio may stop short of its next block. */
  ghost predicate Interleavable(metaint: nat, audio: Bytes, blocks: seq<Bytes>) {
    && metaint > 0
    && |blocks| * metaint <= |audio| <= (|blocks| + 1) * metaint
    && forall k :: 0 <= k < |blocks| ==> |blocks[k]| % 16 == 0 && |blocks[k]| <= 4080
  }

  lemma InterleavableTail(metaint: nat, audio: Bytes, blocks: seq<Bytes>)
    requires Interleavable(metaint, audio, blocks) && blocks != []
    ensures |audio| >= metaint && Interleavable(metaint, audio[metaint..], blocks[1..])
  {
    assert |blocks| * metaint == (|blocks| - 1) * metaint + metaint;
    assert (|blocks| + 1) * metaint == |blocks| * metaint + metaint;
  }

  ghost function Interleave(metaint: nat, audio: Bytes, blocks: seq<Bytes>): Bytes
    requires Interleavable(metaint, audio, blocks)
    decreases |blocks|
  {
    if blocks == [] then audio
    else
      InterleavableTail(metaint, audio, blocks);
      audio[..metaint] + Wire(Block(blocks[0])) + Interleave(metaint, audio[metaint..], blocks[1..])
  }

  function AudioEvents(audio: Bytes): seq<Event> {
    seq(|audio|, i requires 0 <= i < |audio| => Audio(audio[i]))
  }

  /** The same stream as events: each run of audio, then its block. */
  ghost function Schedule(metaint: nat, audio: Bytes, blocks: seq<Bytes>): seq<Event>
    requires Interleavable(metaint, audio, blocks)
    decreases |blocks|
  {
    if blocks == [] then AudioEvents(audio)
    else
      InterleavableTail(metaint, audio, blocks);
      AudioEvents(audio[..metaint]) + [Block(blocks[0])] + Schedule(metaint, audio[metaint..], blocks[1..])
  }

  lemma {:induction false} RunAudio(metaint: nat, s: State, audio: Bytes)
    requires Sound(metaint, s) && s.audioLeft > 0 && |audio| <= s.audioLeft
    ensures Run(metaint, s, audio)
      == (s.(audioLeft := s.audioLeft - |audio|, needLen := |audio| == s.audioLeft), AudioEvents(audio))
    decreases |audio|
  {
    if audio != [] {
      var (s1, e1) := Step(metaint, s, audio[0]);
      assert AudioEvents(audio) == [Audio(audio[0])] + AudioEvents(audio[1..]);
      if |audio| == 1 {
        assert audio[1..] == [];
        assert e1 + [] == AudioEvents(audio);
      } else {
        RunAudio(metaint, s1, audio[1..]);
      }
    } else {
      assert AudioEvents(audio) == [];
    }
  }

  lemma {:induction false} RunMeta(metaint: nat, s: State, m: Bytes)
    requires Sound(metaint, s) && s.metaLeft == |m| > 0
    ensures Run(metaint, s, m) == (State(metaint, 0, false, s.meta + m), [Block(s.meta + m)])
    decreases |m|
  {
    var (s1, e1) := Step(metaint, s, m[0]);
    StepSound(metaint, s, m[0]);
    assert s.meta + m == s.meta + [m[0]] + m[1..];
    if |m| == 1 {
      assert m[1..] == [] && m == [m[0]];
      assert e1 + [] == e1;
    } else {
      RunMeta(metaint, s1, m[1..]);
      assert [] + [Block(s.meta + m)] == [Block(s.meta + m)];
    }
  }

  lemma RunBlock(metaint: nat, s: State, m: Bytes)
    requires Sound(metaint, s) && s.needLen && |m| % 16 == 0 && |m| <= 4080
    ensures Run(metaint, s, Wire(Block(m))) == (State(metaint, 0, false, m), [Block(m)])
  {
    var wire := Wire(Block(m));
    assert wire[0] == |m| / 16 && wire[1..] == m;
    var (s1, e1) := Step(metaint, s, wire[0]);
    if m != [] {
      RunMeta(metaint, s1, m);
      assert [] + m == m;
      assert [] + [Block(m)] == [Block(m)];
    } else {
      assert wire[1..] == [];
      assert e1 + [] == [Block([])];
    }
  }

  /** De-interleaving inverts interleaving: the audio and the blocks, each in its place, empty blocks included. */
  lemma {:induction false} Deinterleaves(metaint: nat, s: State, audio: Bytes, blocks: seq<Bytes>)
    requires Interleavable(metaint, audio, blocks) && Sound(metaint, s) && s.audioLeft == metaint
    ensures Run(metaint, s, Interleave(metaint, audio, blocks)).1 == Schedule(metaint, audio, blocks)
    decreases |blocks|
  {
    if blocks == [] {
      RunAudio(metaint, s, audio);
    } else {
      InterleavableTail(metaint, audio, blocks);
      var first, wire, rest := audio[..metaint], Wire(Block(blocks[0])), Interleave(metaint, audio[metaint..], blocks[1..]);
      RunAudio(metaint, s, first);
      var s1 := Run(metaint, s, first).0;
      RunBlock(metaint, s1, blocks[0]);
      var s2 := Run(metaint, s1, wire).0;
      Deinterleaves(metaint, s2, audio[metaint..], blocks[1..]);
      RunSplits(metaint, s, first, wire);
      RunSplits(metaint, s, first + wire, rest);
    }
  }

  function AudioOf(events: seq<Event>): Bytes {
    if events == [] then [] else (if events[0].Audio? then [events[0].b] else []) + AudioOf(events[1..])
  }

  function BlocksOf(events: seq<Event>): seq<Bytes> {
    if events == [] then [] else (if events[0].Block? then [events[0].meta] else []) + BlocksOf(events[1..])
  }

  lemma {:induction false} SplitConcat(a: seq<Event>, b: seq<Event>)
    ensures AudioOf(a + b) == AudioOf(a) + AudioOf(b) && BlocksOf(a + b) == BlocksOf(a) + BlocksOf(b)
  {
    if a == [] {
      assert a + b == b;
    } else {
      assert (a + b)[0] == a[0] && (a + b)[1..] == a[1..] + b;
      SplitConcat(a[1..], b);
      Assoc(if a[0].Audio? then [a[0].b] else [], AudioOf(a[1..]), AudioOf(b));
      Assoc(if a[0].Block? then [a[0].meta] else [], BlocksOf(a[1..]), BlocksOf(b));
    }
  }

  lemma {:induction false} SplitAudio(audio: Bytes)
    ensures AudioOf(AudioEvents(audio)) == audio && BlocksOf(AudioEvents(audio)) == []
  {
    if audio != [] {
      assert AudioEvents(audio)[1..] == AudioEvents(audio[1..]);
      SplitAudio(audio[1..]);
    }
  }

  lemma SplitBlock(block: Bytes)
    ensures AudioOf([Block(block)]) == [] && BlocksOf([Block(block)]) == [block]
  {
    assert [Block(block)][1..] == [];
  }

  lemma {:induction false} SplitSchedule(metaint: nat, audio: Bytes, blocks: seq<Bytes>)
    requires Interleavable(metaint, audio, blocks)
    ensures AudioOf(Schedule(metaint, audio, blocks)) == audio
    ensures BlocksOf(Schedule(metaint, audio, blocks)) == blocks
    decreases |blocks|
  {
    hide AudioOf, BlocksOf, AudioEvents;
    if blocks == [] {
      SplitAudio(audio);
    } else {
      InterleavableTail(metaint, audio, blocks);
      var rest := Schedule(metaint, audio[metaint..], blocks[1..]);
      SplitSchedule(metaint, audio[metaint..], blocks[1..]);
      SplitAudio(audio[..metaint]);
      SplitBlock(blocks[0]);
      SplitConcat(AudioEvents(audio[..metaint]), [Block(blocks[0])]);
      SplitConcat(AudioEvents(audio[..metaint]) + [Block(blocks[0])], rest);
      assert audio[..metaint] + [] + audio[metaint..] == audio;
      assert [] + [blocks[0]] + blocks[1..] == blocks;
    }
  }

  /** A stream read in pieces, one after another. */
  function RunReads(metaint: nat, s: State, pieces: seq<Bytes>): (State, seq<Event>)
    decreases |pieces|
  {
    if pieces == [] then (s, [])
    else
      var (s1, e1) := Run(metaint, s, pieces[0]);
      var (s2, e2) := RunReads(metaint, s1, pieces[1..]);
      (s2, e1 + e2)
  }

  lemma {:induction false} ReadsJoin(metaint: nat, s: State, pieces: seq<Bytes>)
    ensures RunReads(metaint, s, pieces) == Run(metaint, s, Concat(pieces))
    decreases |pieces|
  {
    if pieces != [] {
      RunSplits(metaint, s, pieces[0], Concat(pieces[1..]));
      ReadsJoin(metaint, Run(metaint, s, pieces[0]).0, pieces[1..]);
    }
  }

  /** However a station's stream is cut into reads, exactly its audio and exactly its blocks come out. */
  lemma ReadsDeinterleave(metaint: nat, audio: Bytes, blocks: seq<Bytes>, pieces: seq<Bytes>)
    requires Interleavable(metaint, audio, blocks) && Concat(pieces) == Interleave(metaint, audio, blocks)
    ensures
      var events := RunReads(metaint, Fresh(metaint), pieces).1;
      && events == Schedule(metaint, audio, blocks)
      && AudioOf(events) == audio && BlocksOf(events) == blocks
  {
    ReadsJoin(metaint, Fresh(metaint), pieces);
    Deinterleaves(metaint, Fresh(metaint), audio, blocks);
    SplitSchedule(metaint, audio, blocks);
  }

  // ---------------------------------------------------------------------- the relay itself

  /** A call the relay makes back: one run of audio, or one block. */
  datatype Call = Emit(audio: Bytes) | OnBlock(meta: Bytes)

  function EventsOf(calls: seq<Call>): seq<Event> {
    if calls == [] then []
    else
      EventsOf(calls[..|calls| - 1]) +
      match calls[|calls| - 1]
      case Emit(audio) => AudioEvents(audio)
      case OnBlock(meta) => [Block(meta)]
  }

  /** No run of audio is empty, and none is reported in two pieces. */
  ghost predicate Grouped(calls: seq<Call>) {
    forall k :: 0 <= k < |calls| && calls[k].Emit? ==> calls[k].audio != [] && (k > 0 ==> calls[k - 1].OnBlock?)
  }

  lemma GroupedNone()
    ensures Grouped([])
  {
  }

  lemma GroupedSnoc(calls: seq<Call>, call: Call)
    requires Grouped(calls)
    requires call.Emit? ==> call.audio != [] && (calls != [] ==> calls[|calls| - 1].OnBlock?)
    ensures Grouped(calls + [call])
  {
  }

  /** The audio of the calls that emit, a run at a time. */
  function EmitsIn(calls: seq<Call>): seq<Bytes> {
    if calls == [] then []
    else
      var n := |calls| - 1;
      EmitsIn(calls[..n]) + if calls[n].Emit? then [calls[n].audio] else []
  }

  /** The longest runs of audio in some events, in order. */
  function AudioRuns(events: seq<Event>): (runs: seq<Bytes>)
    ensures events != [] && events[|events| - 1].Audio? ==> runs != []
  {
    if events == [] then []
    else
      var n := |events| - 1;
      var runs := AudioRuns(events[..n]);
      if events[n].Block? then runs
      else if n > 0 && events[n - 1].Audio? then runs[..|runs| - 1] + [runs[|runs| - 1] + [events[n].b]]
      else runs + [[events[n].b]]
  }

  lemma AudioRunsSnoc(events: seq<Event>, b: byte)
    ensures
      var runs := AudioRuns(events);
      AudioRuns(events + [Audio(b)]) ==
        if events != [] && events[|events| - 1].Audio? then runs[..|runs| - 1] + [runs[|runs| - 1] + [b]]
        else runs + [[b]]
  {
    assert (events + [Audio(b)])[..|events|] == events;
  }

  lemma {:induction false} AudioRunsAppend(events: seq<Event>, audio: Bytes)
    requires audio != [] && (events != [] ==> events[|events| - 1].Block?)
    ensures AudioRuns(events + AudioEvents(audio)) == AudioRuns(events) + [audio]
    decreases |audio|
  {
    hide AudioRuns;
    var n := |audio| - 1;
    var before := events + AudioEvents(audio[..n]);
    assert events + AudioEvents(audio) == before + [Audio(audio[n])];
    assert audio == audio[..n] + [audio[n]];
    AudioRunsSnoc(before, audio[n]);
    if n == 0 {
      assert before == events;
    } else {
      AudioRunsAppend(events, audio[..n]);
      assert before[|before| - 1] == Audio(audio[n - 1]);
      assert (AudioRuns(events) + [audio[..n]])[..|AudioRuns(events)|] == AudioRuns(events);
    }
  }

  /** Grouped calls emit exactly the longest runs of audio. */
  lemma {:induction false} GroupedEmits(calls: seq<Call>)
    requires Grouped(calls)
    ensures EmitsIn(calls) == AudioRuns(EventsOf(calls))
    ensures calls != [] ==> EventsOf(calls) != [] && (EventsOf(calls)[|EventsOf(calls)| - 1].Block? <==> calls[|calls| - 1].OnBlock?)
  {
    if calls != [] {
      var n := |calls| - 1;
      var before := EventsOf(calls[..n]);
      GroupedEmits(calls[..n]);
      if calls[n].Emit? {
        AudioRunsAppend(before, calls[n].audio);
      } else {
        assert (before + [Block(calls[n].meta)])[..|before|] == before;
        assert EmitsIn(calls[..n]) + [] == EmitsIn(calls[..n]);
      }
    }
  }

  /** The runs, end to end, are the audio. */
  lemma {:induction false} RunsAreAudio(events: seq<Event>)
    ensures Concat(AudioRuns(events)) == AudioOf(events)
  {
    hide AudioRuns, Concat, AudioOf;
    if events == [] {
      NoRuns();
    } else {
      var n := |events| - 1;
      var runs := AudioRuns(events[..n]);
      RunsAreAudio(events[..n]);
      assert events == events[..n] + [events[n]];
      SplitConcat(events[..n], [events[n]]);
      LastAudio(events[n]);
      if events[n].Block? {
        AudioRunsBlock(events[..n], events[n].meta);
        assert AudioOf(events[..n]) + [] == AudioOf(events[..n]);
      } else {
        AudioRunsSnoc(events[..n], events[n].b);
        if n > 0 && events[n - 1].Audio? {
          LastRunGrows(runs, events[n].b);
        } else {
          ConcatAppend(runs, [[events[n].b]]);
          ConcatOne([events[n].b]);
        }
      }
    }
  }

  lemma NoRuns()
    ensures Concat(AudioRuns([])) == AudioOf([])
  {
  }

  lemma AudioRunsBlock(events: seq<Event>, meta: Bytes)
    ensures AudioRuns(events + [Block(meta)]) == AudioRuns(events)
  {
    assert (events + [Block(meta)])[..|events|] == events;
  }

  lemma {:induction false} LastRunGrows(runs: seq<Bytes>, b: byte)
    requires runs != []
    ensures Concat(runs[..|runs| - 1] + [runs[|runs| - 1] + [b]]) == Concat(runs) + [b]
  {
    hide Concat;
    var k := |runs| - 1;
    assert runs == runs[..k] + [runs[k]];
    ConcatAppend(runs[..k], [runs[k]]);
    ConcatAppend(runs[..k], [runs[k] + [b]]);
    ConcatOne(runs[k]);
    ConcatOne(runs[k] + [b]);
    Assoc(Concat(runs[..k]), runs[k], [b]);
  }

  lemma ConcatOne<T>(part: seq<T>)
    ensures Concat([part]) == part
  {
    assert [part][1..] == [] && part + [] == part;
  }

  lemma LastAudio(e: Event)
    ensures AudioOf([e]) == if e.Audio? then [e.b] else []
  {
    assert [e][1..] == [];
  }

  /** What is left to do of a run: `done` so far, the rest from state s on p. */
  ghost predicate Continues(whole: (State, seq<Event>), done: seq<Event>, metaint: nat, s: State, p: Bytes) {
    whole == (Run(metaint, s, p).0, done + Run(metaint, s, p).1)
  }

  /** `calls` is `was`, or it and one call more for `events`. */
  ghost predicate Reports(was: seq<Call>, calls: seq<Call>, events: seq<Event>) {
    || (calls == was && events == [])
    || (exists audio :: calls == was + [Emit(audio)] && events == AudioEvents(audio))
    || (exists meta :: calls == was + [OnBlock(meta)] && events == [Block(meta)])
  }

  lemma ContinuesAll(metaint: nat, s: State, p: Bytes)
    ensures Continues(Run(metaint, s, p), EventsOf([]), metaint, s, p)
  {
    hide Run;
    assert [] + Run(metaint, s, p).1 == Run(metaint, s, p).1;
  }

  lemma ContinuesNone(whole: (State, seq<Event>), done: seq<Event>, metaint: nat, s: State)
    requires Continues(whole, done, metaint, s, [])
    ensures whole == (s, done)
  {
    hide Run;
    RunCons(metaint, s, []);
    assert done + [] == done;
  }

  lemma ReportsIs(was: seq<Call>, audio: Bytes, meta: Bytes)
    ensures Reports(was, was, []) && Reports(was, was + [Emit(audio)], AudioEvents(audio)) && Reports(was, was + [OnBlock(meta)], [Block(meta)])
  {
  }

  lemma {:induction false} ContinuesPast(whole: (State, seq<Event>), was: seq<Call>, calls: seq<Call>, events: seq<Event>, metaint: nat, s: State, s': State, p: Bytes, n: nat)
    requires n <= |p| && Continues(whole, EventsOf(was), metaint, s, p) && Sound(metaint, s)
    requires Run(metaint, s, p[..n]) == (s', events) && Reports(was, calls, events)
    ensures Continues(whole, EventsOf(calls), metaint, s', p[n..]) && Sound(metaint, s')
  {
    hide Run, Sound;
    assert p == p[..n] + p[n..];
    RunSplits(metaint, s, p[..n], p[n..]);
    RunSound(metaint, s, p[..n]);
    var done, rest := EventsOf(was), Run(metaint, s', p[n..]).1;
    assert done + (events + rest) == done + events + rest;
    assert calls != was ==> calls[..|calls| - 1] == was;
    assert done + [] == done;
  }

  lemma {:induction false} RunMetaPart(metaint: nat, s: State, m: Bytes)
    requires Sound(metaint, s) && |m| < s.metaLeft
    ensures Run(metaint, s, m) == (s.(metaLeft := s.metaLeft - |m|, meta := s.meta + m), [])
    decreases |m|
  {
    hide Run;
    RunCons(metaint, s, m);
    if m == [] {
      assert s.meta + m == s.meta;
    } else {
      StepSound(metaint, s, m[0]);
      var (s1, e1) := Step(metaint, s, m[0]);
      RunMetaPart(metaint, s1, m[1..]);
      assert s.meta + m == s1.meta + m[1..];
      assert e1 + [] == [];
    }
  }

  class Relay {
    const metaint: nat
    var audioLeft: nat
    var metaLeft: nat
    var needLen: bool
    var meta: Bytes

    ghost function Abs(): State
      reads this
    {
      State(audioLeft, metaLeft, needLen, meta)
    }

    constructor (metaint: nat)
      requires metaint > 0
      ensures this.metaint == metaint && Abs() == Fresh(metaint) && Sound(metaint, Abs())
    {
      this.metaint := metaint;
      audioLeft, metaLeft, needLen, meta := metaint, 0, false, [];
    }

    /** Walks one read's bytes in runs, and does what a walk byte by byte would. */
    method Feed(p: Bytes) returns (calls: seq<Call>)
      requires Sound(metaint, Abs())
      modifies this
      ensures Sound(metaint, Abs())
      ensures (Abs(), EventsOf(calls)) == Run(metaint, old(Abs()), p)
      ensures Grouped(calls)
    {
      hide Run, Grouped, Continues, EventsOf, Reports;
      calls := [];
      GroupedNone();
      var rest := p;
      ghost var whole := Run(metaint, Abs(), p);
      ContinuesAll(metaint, Abs(), p);
      while |rest| > 0
        invariant Sound(metaint, Abs())
        invariant Continues(whole, EventsOf(calls), metaint, Abs(), rest)
        invariant Grouped(calls)
        invariant calls != [] && calls[|calls| - 1].Emit? ==> audioLeft == 0 || rest == []
        decreases |rest|
      {
        ghost var s, was := Abs(), calls;
        ReportsIs(was, rest[..Min(audioLeft, |rest|)], if needLen then [] else meta + rest[..Min(metaLeft, |rest|)]);
        if audioLeft > 0 {
          var n := Min(audioLeft, |rest|);
          GroupedSnoc(calls, Emit(rest[..n]));
          calls := calls + [Emit(rest[..n])];
          audioLeft := audioLeft - n;
          if audioLeft == 0 {
            needLen := true;
          }
          RunAudio(metaint, s, rest[..n]);
          ContinuesPast(whole, was, calls, AudioEvents(rest[..n]), metaint, s, Abs(), rest, n);
          rest := rest[n..];
        } else if needLen {
          var length: nat := rest[0];
          metaLeft := length * 16;
          needLen := false;
          meta := [];
          if metaLeft == 0 {
            GroupedSnoc(calls, OnBlock(meta));
            calls := calls + [OnBlock(meta)];
            audioLeft := metaint;
          }
          RunOne(metaint, s, rest);
          ContinuesPast(whole, was, calls, Step(metaint, s, rest[0]).1, metaint, s, Abs(), rest, 1);
          rest := rest[1..];
        } else {
          var n := Min(metaLeft, |rest|);
          meta := meta + rest[..n];
          metaLeft := metaLeft - n;
          if metaLeft == 0 {
            GroupedSnoc(calls, OnBlock(meta));
            calls := calls + [OnBlock(meta)];
            audioLeft := metaint;
            RunMeta(metaint, s, rest[..n]);
          } else {
            RunMetaPart(metaint, s, rest[..n]);
          }
          ContinuesPast(whole, was, calls, Run(metaint, s, rest[..n]).1, metaint, s, Abs(), rest, n);
          rest := rest[n..];
        }
      }
      ContinuesNone(whole, EventsOf(calls), metaint, Abs());
    }
  }

  lemma RunOne(metaint: nat, s: State, p: Bytes)
    requires p != []
    ensures Run(metaint, s, p[..1]) == Step(metaint, s, p[0])
  {
    assert p[..1] == [p[0]] && p[..1][1..] == [];
    var (s1, e1) := Step(metaint, s, p[0]);
    assert e1 + [] == e1;
  }
}
