/**
 What a listener's connection scrobbles: the stretches of one title between
 the metadata blocks that begin and end them.
 */
module RadioSegment {
  import opened Common

  /** 30 seconds, in nanoseconds. */
  const MIN_LISTEN: int := 30_000_000_000

  type Title = seq<int>

  /** What a metadata block says about what is playing. */
  datatype Meta = Meta(title: Title, titleOK: bool, ad: bool) {
    /** A block naming a song: a title that is there, is not empty, and is not a spot's. */
    predicate Announces() { titleOK && title != [] && !ad }

    /** A block the segment takes notice of; the rest are pictures and idents. */
    predicate Counts() { ad || Announces() }
  }

  /** A block and the instant it is observed. */
  datatype Tick = Tick(meta: Meta, at: int)

  datatype Play = Play(title: Title, since: int)

  // --------------------------------------------------------------------- the machine

  /** The open segment; no title is no segment. */
  datatype Open = Open(title: Title, since: int)

  const IDLE := Open([], 0)

  function Close(s: Open, now: int): seq<Play> {
    if s.title != [] && now - s.since >= MIN_LISTEN then [Play(s.title, s.since)] else []
  }

  function Step(s: Open, t: Tick): (Open, seq<Play>) {
    if t.meta.ad then (IDLE, Close(s, t.at))
    else if !t.meta.Announces() then (s, [])
    else if t.meta.title != s.title then (Open(t.meta.title, t.at), Close(s, t.at))
    else (s, [])
  }

  function Run(s: Open, ticks: seq<Tick>): (Open, seq<Play>)
    decreases |ticks|
  {
    if ticks == [] then (s, [])
    else
      var (s1, p1) := Step(s, ticks[0]);
      var (s2, p2) := Run(s1, ticks[1..]);
      (s2, p1 + p2)
  }

  lemma {:induction false} RunSplits(s: Open, a: seq<Tick>, b: seq<Tick>)
    ensures Run(s, a + b) == (Run(Run(s, a).0, b).0, Run(s, a).1 + Run(Run(s, a).0, b).1)
    decreases |a|
  {
    if a == [] {
      assert a + b == b;
      assert [] + Run(s, b).1 == Run(s, b).1;
    } else {
      var (s1, p1) := Step(s, a[0]);
      assert (a + b)[0] == a[0] && (a + b)[1..] == a[1..] + b;
      RunSplits(s1, a[1..], b);
      assert p1 + (Run(s1, a[1..]).1 + Run(Run(s, a).0, b).1) == p1 + Run(s1, a[1..]).1 + Run(Run(s, a).0, b).1;
    }
  }

  // -------------------------------------------------------------- what it ought to report

  /** The blocks that count, in order. */
  function Counting(ticks: seq<Tick>): (h: seq<Tick>)
    ensures forall k :: 0 <= k < |h| ==> h[k].meta.Counts()
  {
    if ticks == [] then []
    else (if ticks[0].meta.Counts() then [ticks[0]] else []) + Counting(ticks[1..])
  }

  predicate Continues(h: seq<Tick>, i: nat, k: nat)
    requires i < |h| && k < |h|
  {
    !h[k].meta.ad && h[k].meta.title == h[i].meta.title
  }

  /** Blocks i up to j are one play: the same song throughout, different before, and ended by block j. */
  ghost predicate ClosedPlay(h: seq<Tick>, i: nat, j: nat) {
    && i < j < |h|
    && !h[i].meta.ad
    && (i > 0 ==> !Continues(h, i, i - 1))
    && (forall k :: i < k < j ==> Continues(h, i, k))
    && !Continues(h, i, j)
  }

  /** ... that ran long enough to count. */
  ghost predicate Scrobbles(h: seq<Tick>, i: nat, j: nat) {
    ClosedPlay(h, i, j) && h[j].at - h[i].at >= MIN_LISTEN
  }

  /** The end of the stretch that begins at i. */
  function StretchEnd(h: seq<Tick>, i: nat, from: nat): (j: nat)
    requires i < from <= |h|
    requires forall k :: i < k < from ==> Continues(h, i, k)
    ensures from <= j <= |h|
    ensures forall k :: i < k < j ==> Continues(h, i, k)
    ensures j < |h| ==> !Continues(h, i, j)
    decreases |h| - from
  {
    if from == |h| || !Continues(h, i, from) then from else StretchEnd(h, i, from + 1)
  }

  datatype Span = Span(first: nat, end: nat)

  /** The plays that scrobble, from block i on, where a stretch begins. */
  function Spans(h: seq<Tick>, i: nat): seq<Span>
    requires i <= |h|
    decreases |h| - i
  {
    if i == |h| then []
    else if h[i].meta.ad then Spans(h, i + 1)
    else
      var j := StretchEnd(h, i, i + 1);
      if j == |h| then []
      else (if h[j].at - h[i].at >= MIN_LISTEN then [Span(i, j)] else []) + Spans(h, j)
  }

  function PlaysOf(h: seq<Tick>, spans: seq<Span>): (plays: seq<Play>)
    requires forall k :: 0 <= k < |spans| ==> spans[k].first < |h|
    ensures |plays| == |spans|
  {
    seq(|spans|, k requires 0 <= k < |spans| => Play(h[spans[k].first].meta.title, h[spans[k].first].at))
  }

  ghost predicate Starts(h: seq<Tick>, i: nat) {
    i <= |h| && (i == |h| || i == 0 || h[i].meta.ad || !Continues(h, i, i - 1))
  }

  /** A closed play that starts within a stretch starts where it does and ends where it does. */
  lemma OnePlayToAStretch(h: seq<Tick>, i: nat, j: nat, a: nat, b: nat)
    requires i < j <= |h| && !h[i].meta.ad
    requires (forall k :: i < k < j ==> Continues(h, i, k)) && (j < |h| ==> !Continues(h, i, j))
    requires i <= a < j && ClosedPlay(h, a, b)
    ensures a == i && b == j
  {
    if i < a {
      InnerContinues(h, i, j, a);
    }
  }

  lemma InnerContinues(h: seq<Tick>, i: nat, j: nat, a: nat)
    requires i < a < j <= |h| && !h[i].meta.ad && forall k :: i < k < j ==> Continues(h, i, k)
    ensures Continues(h, a, a - 1)
  {
    assert Continues(h, i, a);
    assert a - 1 > i ==> Continues(h, i, a - 1);
  }

  /** Spans are exactly the plays that scrobble, each once, in order, none overlapping the next. */
  lemma {:induction false} SpansAreExact(h: seq<Tick>, i: nat)
    requires Starts(h, i)
    ensures
      var spans := Spans(h, i);
      && (forall k :: 0 <= k < |spans| ==> i <= spans[k].first && Scrobbles(h, spans[k].first, spans[k].end))
      && (forall k :: 0 < k < |spans| ==> spans[k - 1].end <= spans[k].first)
      && (forall a: nat, b: nat :: i <= a && Scrobbles(h, a, b) ==> Span(a, b) in spans)
    decreases |h| - i
  {
    hide Continues, ClosedPlay;
    if i < |h| {
      if h[i].meta.ad {
        AdEnds(h, i);
        SpansAreExact(h, i + 1);
        forall b: nat | Scrobbles(h, i, b)
          ensures false
        {
          ClosedPlayStart(h, i, b);
        }
      } else {
        var j := StretchEnd(h, i, i + 1);
        forall a: nat, b: nat | i <= a < j && Scrobbles(h, a, b)
          ensures a == i && b == j
        {
          OnePlayToAStretch(h, i, j, a, b);
        }
        if j < |h| {
          StretchStarts(h, i, j);
          SpansAreExact(h, j);
          StretchIsClosed(h, i, j);
        } else {
          forall a: nat, b: nat | i <= a && Scrobbles(h, a, b)
            ensures a < b < |h|
          {
            ClosedPlayStart(h, a, b);
          }
        }
      }
    } else {
      forall a: nat, b: nat | Scrobbles(h, a, b)
        ensures a < |h|
      {
        ClosedPlayStart(h, a, b);
      }
    }
  }

  lemma AdEnds(h: seq<Tick>, i: nat)
    requires i < |h| && h[i].meta.ad
    ensures Starts(h, i + 1)
  {
  }

  lemma ClosedPlayStart(h: seq<Tick>, i: nat, j: nat)
    requires ClosedPlay(h, i, j)
    ensures i < j < |h| && !h[i].meta.ad
  {
  }

  lemma StretchIsClosed(h: seq<Tick>, i: nat, j: nat)
    requires i < j < |h| && Starts(h, i) && !h[i].meta.ad
    requires (forall k :: i < k < j ==> Continues(h, i, k)) && !Continues(h, i, j)
    ensures ClosedPlay(h, i, j)
  {
  }

  lemma StretchStarts(h: seq<Tick>, i: nat, j: nat)
    requires i < j < |h| && !h[i].meta.ad && (forall k :: i < k < j ==> Continues(h, i, k)) && !Continues(h, i, j)
    ensures Starts(h, j)
  {
    if j - 1 > i {
      assert Continues(h, i, j - 1);
    }
  }

  // ------------------------------------------------------------------ the two agree

  lemma {:induction false} OnlyCountingMatters(s: Open, ticks: seq<Tick>)
    ensures Run(s, ticks) == Run(s, Counting(ticks))
    decreases |ticks|
  {
    if ticks != [] {
      var (s1, p1) := Step(s, ticks[0]);
      OnlyCountingMatters(s1, ticks[1..]);
      if ticks[0].meta.Counts() {
        assert Counting(ticks)[1..] == Counting(ticks[1..]);
      } else {
        assert Counting(ticks) == Counting(ticks[1..]);
        assert p1 + Run(s1, ticks[1..]).1 == Run(s1, ticks[1..]).1;
      }
    }
  }

  lemma RunFrom(s: Open, h: seq<Tick>, i: nat)
    requires i < |h|
    ensures Run(s, h[i..]) == (Run(Step(s, h[i]).0, h[i + 1..]).0, Step(s, h[i]).1 + Run(Step(s, h[i]).0, h[i + 1..]).1)
  {
    assert h[i..][0] == h[i] && h[i..][1..] == h[i + 1..];
  }

  lemma RunQuiet(s: Open, h: seq<Tick>, i: nat, s': Open)
    requires i < |h| && Step(s, h[i]) == (s', [])
    ensures Run(s, h[i..]) == Run(s', h[i + 1..])
  {
    RunFrom(s, h, i);
    assert [] + Run(s', h[i + 1..]).1 == Run(s', h[i + 1..]).1;
  }

  /** Through a stretch the machine holds its first block and reports nothing. */
  lemma {:induction false} RunStretch(h: seq<Tick>, i: nat, k: nat, j: nat)
    requires i < k <= j <= |h| && (forall n :: 0 <= n < |h| ==> h[n].meta.Counts()) && !h[i].meta.ad
    requires forall n :: i < n < j ==> Continues(h, i, n)
    ensures Run(Open(h[i].meta.title, h[i].at), h[k..]) == Run(Open(h[i].meta.title, h[i].at), h[j..])
    decreases j - k
  {
    hide Run;
    if k < j {
      var s := Open(h[i].meta.title, h[i].at);
      assert Continues(h, i, k);
      RunQuiet(s, h, k, s);
      RunStretch(h, i, k + 1, j);
    }
  }

  lemma {:induction false} RunReports(h: seq<Tick>, i: nat)
    requires i <= |h| && forall n :: 0 <= n < |h| ==> h[n].meta.Counts()
    requires Starts(h, i)
    ensures Run(IDLE, h[i..]).1 == PlaysFrom(h, i)
    decreases |h| - i
  {
    hide Run, Starts, Close;
    if i == |h| {
      RunNothing(IDLE, h[i..]);
    } else if h[i].meta.ad {
      AdEnds(h, i);
      RunReports(h, i + 1);
      CloseIdle(h[i].at);
      RunQuiet(IDLE, h, i, IDLE);
    } else {
      var s := Open(h[i].meta.title, h[i].at);
      var j := StretchEnd(h, i, i + 1);
      CloseIdle(h[i].at);
      RunQuiet(IDLE, h, i, s);
      RunStretch(h, i, i + 1, j);
      if j < |h| {
        StretchStarts(h, i, j);
        RunReports(h, j);
        RunClose(h, s, j);
      } else {
        RunNothing(s, h[j..]);
      }
    }
  }

  lemma CloseIdle(now: int)
    ensures Close(IDLE, now) == []
  {
  }

  lemma RunNothing(s: Open, ticks: seq<Tick>)
    requires ticks == []
    ensures Run(s, ticks) == (s, [])
  {
  }

  lemma RunClose(h: seq<Tick>, s: Open, j: nat)
    requires j < |h| && h[j].meta.Counts() && s.title != [] && (h[j].meta.ad || h[j].meta.title != s.title)
    ensures Run(s, h[j..]).1 == Close(s, h[j].at) + Run(IDLE, h[j..]).1
  {
    assert h[j..][0] == h[j];
    var (s1, p1) := Step(s, h[j]);
    assert Step(IDLE, h[j]) == (s1, []);
    assert [] + Run(s1, h[j..][1..]).1 == Run(s1, h[j..][1..]).1;
  }

  /** The same plays as Spans, as reports. */
  function PlaysFrom(h: seq<Tick>, i: nat): seq<Play>
    requires i <= |h|
    decreases |h| - i
  {
    if i == |h| then []
    else if h[i].meta.ad then PlaysFrom(h, i + 1)
    else
      var j := StretchEnd(h, i, i + 1);
      if j == |h| then [] else Close(Open(h[i].meta.title, h[i].at), h[j].at) + PlaysFrom(h, j)
  }

  lemma {:induction false} PlaysFromSpans(h: seq<Tick>, i: nat)
    requires Starts(h, i) && forall n :: 0 <= n < |h| ==> h[n].meta.Counts()
    ensures (forall k :: 0 <= k < |Spans(h, i)| ==> Spans(h, i)[k].first < |h|)
    ensures PlaysFrom(h, i) == PlaysOf(h, Spans(h, i))
    decreases |h| - i
  {
    if i < |h| {
      if h[i].meta.ad {
        PlaysFromSpans(h, i + 1);
      } else {
        var j := StretchEnd(h, i, i + 1);
        if j < |h| {
          StretchStarts(h, i, j);
          PlaysFromSpans(h, j);
          var rest := Spans(h, j);
          if h[j].at - h[i].at >= MIN_LISTEN {
            assert PlaysOf(h, [Span(i, j)] + rest) == [Play(h[i].meta.title, h[i].at)] + PlaysOf(h, rest);
          }
        }
      }
    }
  }

  /**
   A whole connection: what is reported is exactly the closed plays of the
   blocks that count, long enough, in order; the one still open is not among
   them.
   */
  lemma ReportsAreExact(ticks: seq<Tick>)
    ensures
      var h := Counting(ticks);
      var spans := Spans(h, 0);
      && (forall k :: 0 <= k < |spans| ==> Scrobbles(h, spans[k].first, spans[k].end))
      && (forall k :: 0 < k < |spans| ==> spans[k - 1].end <= spans[k].first)
      && (forall a: nat, b: nat :: Scrobbles(h, a, b) ==> Span(a, b) in spans)
      && Run(IDLE, ticks).1 == PlaysOf(h, spans)
  {
    var h := Counting(ticks);
    OnlyCountingMatters(IDLE, ticks);
    assert h[0..] == h;
    RunReports(h, 0);
    PlaysFromSpans(h, 0);
    SpansAreExact(h, 0);
  }

  ghost predicate InTime(ticks: seq<Tick>) {
    forall i, j :: 0 <= i < j < |ticks| ==> ticks[i].at <= ticks[j].at
  }

  lemma {:induction false} CountingInTime(ticks: seq<Tick>)
    requires InTime(ticks)
    ensures InTime(Counting(ticks))
    ensures forall k :: 0 <= k < |Counting(ticks)| ==> exists i :: 0 <= i < |ticks| && Counting(ticks)[k] == ticks[i]
  {
    if ticks != [] {
      CountingInTime(ticks[1..]);
      var rest := Counting(ticks[1..]);
      forall k | 0 <= k < |rest|
        ensures exists i :: 0 < i < |ticks| && rest[k] == ticks[i]
      {
        var i :| 0 <= i < |ticks[1..]| && rest[k] == ticks[1..][i];
        assert rest[k] == ticks[i + 1];
      }
    }
  }

  /** Scrobbles never overlap in time: each begins no sooner than thirty seconds after the one before it. */
  lemma ReportsAreDisjoint(ticks: seq<Tick>, k: nat)
    requires InTime(ticks) && 0 < k < |Run(IDLE, ticks).1|
    ensures Run(IDLE, ticks).1[k].since >= Run(IDLE, ticks).1[k - 1].since + MIN_LISTEN
  {
    hide Counting, Spans, Run, ClosedPlay;
    var h := Counting(ticks);
    var spans := Spans(h, 0);
    ReportsAreExact(ticks);
    CountingInTime(ticks);
    ClosedPlayStart(h, spans[k - 1].first, spans[k - 1].end);
    ClosedPlayStart(h, spans[k].first, spans[k].end);
    var a, b := spans[k - 1], spans[k];
    assert Scrobbles(h, a.first, a.end) && Scrobbles(h, b.first, b.end);
    assert h[a.end].at <= h[b.first].at;
  }

  // -------------------------------------------------------------------- the object

  class Segment {
    var title: Title
    var since: int

    ghost function Abs(): Open
      reads this
    {
      Open(title, since)
    }

    constructor ()
      ensures Abs() == IDLE
    {
      title, since := [], 0;
    }

    /** One block, observed now. */
    method Observe(meta: Meta, now: int) returns (reports: seq<Play>)
      modifies this
      ensures (Abs(), reports) == Step(old(Abs()), Tick(meta, now))
    {
      reports := [];
      if meta.ad {
        reports := CloseNow(now);
      } else if !meta.Announces() {
        // a picture or an ident: nothing about the song
      } else if meta.title != title {
        reports := CloseNow(now);
        Start(meta.title, now);
      }
    }

    method CloseNow(now: int) returns (reports: seq<Play>)
      modifies this
      ensures Abs() == IDLE && reports == Close(old(Abs()), now)
    {
      reports := [];
      if title != [] && now - since >= MIN_LISTEN {
        reports := [Play(title, since)];
      }
      title, since := [], 0;
    }

    method Start(newTitle: Title, now: int)
      modifies this
      ensures Abs() == Open(newTitle, now)
    {
      title, since := newTitle, now;
    }
  }
}
