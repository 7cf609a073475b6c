/**
 The station proxy's read loop: audio to the listener, metadata blocks to the
 segment that decides what scrobbles.
 */
module RadioRelay {
  import opened Common
  import Relay = IcyRelay
  import opened IcyFields
  import opened IcyText
  import Utf8
  import Radio = RadioSegment

  // ------------------------------------------------------------------- one block

  /** How the two ad markers' values are read: which are true, which name an ad break. */
  datatype Markers = Markers(truthy: Bytes -> bool, adInsertion: Bytes -> bool)

  datatype BlockMeta = BlockMeta(meta: Radio.Meta, artURL: seq<Utf8.Rune>)

  function Key(name: string): Bytes {
    seq(|name|, i requires 0 <= i < |name| => name[i] as int % 256)
  }

  const TITLE_MAX := 300
  const URL_MAX := 2048

  function TextAt(block: Bytes, key: Bytes, max: nat): seq<Utf8.Rune> {
    var raw := ValueOf(block, key);
    if raw.None? then [] else TextOf(raw.value, max)
  }

  /** Everything read from one block; an explicit picture wins over a guess at one. */
  function MetaOf(markers: Markers, block: Bytes): BlockMeta {
    var title, art := ValueOf(block, Key("StreamTitle")), TextAt(block, Key("StreamArtwork"), URL_MAX);
    var adw, insertion := ValueOf(block, Key("adw_ad")), ValueOf(block, Key("insertionType"));
    BlockMeta(
      Radio.Meta(
        TextAt(block, Key("StreamTitle"), TITLE_MAX),
        title.Some?,
        (adw.Some? && markers.truthy(adw.value)) || (insertion.Some? && markers.adInsertion(insertion.value))),
      if art != [] then art else TextAt(block, Key("StreamUrl"), URL_MAX))
  }

  method IcyMetaOf(markers: Markers, block: Bytes) returns (m: BlockMeta)
    ensures m == MetaOf(markers, block)
  {
    hide ValueOf, TextOf, Key;
    var title: seq<Utf8.Rune>, titleOK := [], false;
    var raw := IcyValue(block, Key("StreamTitle"));
    if raw.Some? {
      title := ReadText(raw.value, TITLE_MAX);
      titleOK := true;
    }
    var art: seq<Utf8.Rune> := [];
    raw := IcyValue(block, Key("StreamArtwork"));
    if raw.Some? {
      art := ReadText(raw.value, URL_MAX);
    }
    if art == [] {
      raw := IcyValue(block, Key("StreamUrl"));
      if raw.Some? {
        art := ReadText(raw.value, URL_MAX);
      }
    }
    var ad := false;
    raw := IcyValue(block, Key("adw_ad"));
    if raw.Some? && markers.truthy(raw.value) {
      ad := true;
    }
    raw := IcyValue(block, Key("insertionType"));
    if raw.Some? && markers.adInsertion(raw.value) {
      ad := true;
    }
    m := BlockMeta(Radio.Meta(title, titleOK, ad), art);
  }

  // --------------------------------------------------------- what a printed block says

  const KEYS := ["StreamTitle", "StreamArtwork", "StreamUrl", "adw_ad", "insertionType"]

  /** Fields set apart, whose values hide none of the keys the relay reads. */
  ghost predicate Plain(fields: seq<Field>) {
    forall i, k :: 0 <= i < |fields| && k in KEYS ==>
      Gap(fields[i].gap) && PlainName(fields[i].name) && Quiet(fields[i].value, Pattern(Key(k)))
  }

  predicate Lettered(k: string) { forall i :: 0 <= i < |k| ==> 'A' <= k[i] <= 'z' }

  lemma LettersArePlain(k: string)
    requires Lettered(k)
    ensures PlainName(Key(k))
  {
  }

  lemma KeyIsPlain(k: string)
    requires k in KEYS
    ensures PlainName(Key(k))
  {
    hide PlainName, Key;
    assert Lettered(KEYS[0]) && Lettered(KEYS[1]) && Lettered(KEYS[2]) && Lettered(KEYS[3]) && Lettered(KEYS[4]);
    assert k == KEYS[0] || k == KEYS[1] || k == KEYS[2] || k == KEYS[3] || k == KEYS[4];
    LettersArePlain(k);
  }

  /** The text of the first field of a name, nothing where there is none. */
  function FieldText(fields: seq<Field>, k: string, max: nat): seq<Utf8.Rune> {
    var value := FirstNamed(fields, Key(k));
    if value.None? then [] else TextOf(value.value, max)
  }

  ghost predicate FirstIs(fields: seq<Field>, k: string, marker: Bytes -> bool) {
    FirstNamed(fields, Key(k)).Some? && marker(FirstNamed(fields, Key(k)).value)
  }

  lemma PrintedField(fields: seq<Field>, closed: bool, padding: nat, k: string)
    requires k in KEYS && Plain(fields)
    ensures ValueOf(Print(fields, closed) + Nuls(padding), Key(k)) == FirstNamed(fields, Key(k))
  {
    hide Quiet, PlainName, Gap, Key, Pattern, ValueOf, Print;
    KeyIsPlain(k);
    PrintedValueReadsBack(fields, closed, Key(k), padding);
  }

  /**
   What the relay makes of a block a station printed: the first title's text,
   the picture named outright or else the one guessed at, and a spot where the
   first of either marker says so; it names a song exactly when there is a
   title, its text is not empty and nothing marks it a spot.
   */
  lemma PrintedMeta(markers: Markers, fields: seq<Field>, closed: bool, padding: nat)
    requires Plain(fields)
    ensures
      var m := MetaOf(markers, Print(fields, closed) + Nuls(padding));
      var spot := FirstIs(fields, "adw_ad", markers.truthy) || FirstIs(fields, "insertionType", markers.adInsertion);
      && m.meta.title == FieldText(fields, "StreamTitle", TITLE_MAX)
      && (m.meta.titleOK <==> FirstNamed(fields, Key("StreamTitle")).Some?)
      && (FieldText(fields, "StreamArtwork", URL_MAX) != [] ==> m.artURL == FieldText(fields, "StreamArtwork", URL_MAX))
      && (FieldText(fields, "StreamArtwork", URL_MAX) == [] ==> m.artURL == FieldText(fields, "StreamUrl", URL_MAX))
      && (m.meta.ad <==> spot)
      && (m.meta.Announces() <==> FieldText(fields, "StreamTitle", TITLE_MAX) != [] && !spot)
  {
    hide Plain, ValueOf, FirstNamed, TextOf, Key, Print, Nuls;
    PrintedField(fields, closed, padding, KEYS[0]);
    PrintedField(fields, closed, padding, KEYS[1]);
    PrintedField(fields, closed, padding, KEYS[2]);
    PrintedField(fields, closed, padding, KEYS[3]);
    PrintedField(fields, closed, padding, KEYS[4]);
  }

  /**
   A title in UTF-8 that fits comes through whole, but for the white space
   around it; and it announces a song unless it is white space only or a marker
   makes the block a spot.
   */
  lemma PrintedTitle(markers: Markers, fields: seq<Field>, closed: bool, padding: nat, runes: seq<Utf8.Rune>)
    requires Plain(fields) && |Utf8.Encode(runes)| <= TITLE_MAX
    requires FirstNamed(fields, Key("StreamTitle")) == Some(Utf8.Encode(runes))
    ensures
      var meta := MetaOf(markers, Print(fields, closed) + Nuls(padding)).meta;
      var spot := FirstIs(fields, "adw_ad", markers.truthy) || FirstIs(fields, "insertionType", markers.adInsertion);
      && (runes != [] && !Space(runes[0]) && !Space(runes[|runes| - 1]) ==> meta.title == runes)
      && (exists i, j :: 0 <= i <= j <= |runes| && meta.title == runes[i..j]
            && (forall k :: 0 <= k < i || j <= k < |runes| ==> Space(runes[k]))
            && (i < j ==> !Space(runes[i]) && !Space(runes[j - 1])))
      && (meta.Announces() <==> !spot && exists k :: 0 <= k < |runes| && !Space(runes[k]))
  {
    hide Plain, MetaOf, FirstNamed, FirstIs, Key, Print, Nuls, Space, Trim, Utf8.Encode;
    PrintedMeta(markers, fields, closed, padding);
    Utf8.EncodeDecode(runes);
    TrimKeeps(runes);
    var i, j := TrimIs(runes);
  }

  // ------------------------------------------------------------------- the whole loop

  /**
   One turn's outside world: what the station sent and when, whether the guard
   let it go on, how many writes the listener took, whether the read ended the
   stream.
   */
  datatype Read = Read(data: Bytes, now: int, guardOK: bool, accepts: nat, ended: bool)

  datatype Ending = GuardTripped | WriteFailed | UpstreamEnded | StillOpen

  function DataOf(turns: seq<Read>): seq<Bytes> {
    seq(|turns|, i requires 0 <= i < |turns| => turns[i].data)
  }

  function TicksAt(markers: Markers, blocks: seq<Bytes>, now: int): seq<Radio.Tick> {
    seq(|blocks|, i requires 0 <= i < |blocks| => Radio.Tick(MetaOf(markers, blocks[i]).meta, now))
  }

  /** Every block of the turns' data, observed at the turn that finished it. */
  function Observed(markers: Markers, metaint: nat, s: Relay.State, turns: seq<Read>): seq<Radio.Tick>
    decreases |turns|
  {
    if turns == [] then []
    else
      var (s1, events) := Relay.Run(metaint, s, turns[0].data);
      TicksAt(markers, Relay.BlocksOf(events), turns[0].now) + Observed(markers, metaint, s1, turns[1..])
  }

  function MetasOf(markers: Markers, blocks: seq<Bytes>): seq<Radio.Meta> {
    seq(|blocks|, i requires 0 <= i < |blocks| => MetaOf(markers, blocks[i]).meta)
  }

  function MetasSeen(ticks: seq<Radio.Tick>): seq<Radio.Meta> {
    seq(|ticks|, i requires 0 <= i < |ticks| => ticks[i].meta)
  }

  /** What is observed, in order, is the stream's own blocks; how it was cut into reads does not enter into it. */
  lemma {:induction false} ObservedIsStream(markers: Markers, metaint: nat, s: Relay.State, turns: seq<Read>)
    ensures MetasSeen(Observed(markers, metaint, s, turns))
      == MetasOf(markers, Relay.BlocksOf(Relay.Run(metaint, s, Concat(DataOf(turns))).1))
    decreases |turns|
  {
    if turns == [] {
    } else {
      var (s1, events) := Relay.Run(metaint, s, turns[0].data);
      assert DataOf(turns)[1..] == DataOf(turns[1..]);
      ObservedIsStream(markers, metaint, s1, turns[1..]);
      var rest := Relay.Run(metaint, s1, Concat(DataOf(turns[1..]))).1;
      Relay.RunSplits(metaint, s, turns[0].data, Concat(DataOf(turns[1..])));
      Relay.SplitConcat(events, rest);
      MetasConcat(markers, Relay.BlocksOf(events), Relay.BlocksOf(rest), turns[0].now, Observed(markers, metaint, s1, turns[1..]));
    }
  }

  lemma MetasConcat(markers: Markers, a: seq<Bytes>, b: seq<Bytes>, now: int, ticks: seq<Radio.Tick>)
    requires MetasSeen(ticks) == MetasOf(markers, b)
    ensures MetasSeen(TicksAt(markers, a, now) + ticks) == MetasOf(markers, a + b)
  {
    hide MetaOf;
    var left, right := MetasSeen(TicksAt(markers, a, now) + ticks), MetasOf(markers, a + b);
    assert |ticks| == |MetasSeen(ticks)| == |b|;
    forall i | 0 <= i < |left|
      ensures left[i] == right[i]
    {
      if i >= |a| {
        assert MetasSeen(ticks)[i - |a|] == MetasOf(markers, b)[i - |a|];
      }
    }
  }

  lemma {:induction false} ObservedSnoc(markers: Markers, metaint: nat, s: Relay.State, turns: seq<Read>, turn: Read)
    ensures
      var (s1, _) := Relay.RunReads(metaint, s, DataOf(turns));
      var (s2, events) := Relay.Run(metaint, s1, turn.data);
      && Observed(markers, metaint, s, turns + [turn])
           == Observed(markers, metaint, s, turns) + TicksAt(markers, Relay.BlocksOf(events), turn.now)
      && Relay.RunReads(metaint, s, DataOf(turns + [turn])) == (s2, Relay.RunReads(metaint, s, DataOf(turns)).1 + events)
    decreases |turns|
  {
    hide Relay.Run, TicksAt;
    var all := turns + [turn];
    if turns == [] {
      assert all == [turn] && all[1..] == [] && DataOf(all) == [turn.data] && DataOf(all)[1..] == [] && DataOf(turns) == [];
      var (s2, events) := Relay.Run(metaint, s, turn.data);
      var ticks := TicksAt(markers, Relay.BlocksOf(events), turn.now);
      assert events + [] == [] + events && ticks + [] == [] + ticks;
    } else {
      var (s1, e1) := Relay.Run(metaint, s, turns[0].data);
      assert all[0] == turns[0] && all[1..] == turns[1..] + [turn];
      assert DataOf(all)[0] == turns[0].data && DataOf(all)[1..] == DataOf(turns[1..] + [turn]);
      assert DataOf(turns)[0] == turns[0].data && DataOf(turns)[1..] == DataOf(turns[1..]);
      ObservedSnoc(markers, metaint, s1, turns[1..], turn);
      var (sn, more) := Relay.RunReads(metaint, s1, DataOf(turns[1..]));
      var (s2, events) := Relay.Run(metaint, sn, turn.data);
      Assoc(e1, more, events);
      Assoc(TicksAt(markers, Relay.BlocksOf(e1), turns[0].now), Observed(markers, metaint, s1, turns[1..]),
            TicksAt(markers, Relay.BlocksOf(events), turn.now));
    }
  }

  /** A block is observed at the instant of the turn that finished it, behind all that was observed before. */
  lemma ObservedAt(markers: Markers, metaint: nat, s: Relay.State, turns: seq<Read>, i: nat)
    requires i < |turns|
    ensures
      var before, after := Observed(markers, metaint, s, turns[..i]), Observed(markers, metaint, s, turns[..i + 1]);
      before <= after && forall k :: |before| <= k < |after| ==> after[k].at == turns[i].now
  {
    hide Observed, Relay.Run, Relay.RunReads;
    assert turns[..i + 1] == turns[..i] + [turns[i]];
    ObservedSnoc(markers, metaint, s, turns[..i], turns[i]);
  }

  /** What of some runs of audio a listener takes who takes so many writes. */
  function Taken(runs: seq<Bytes>, accepts: nat): Bytes { Concat(runs[..Min(accepts, |runs|)]) }

  lemma TakenSnoc(runs: seq<Bytes>, run: Bytes, accepts: nat)
    ensures Taken(runs + [run], accepts) == Taken(runs, accepts) + if |runs| < accepts then run else []
  {
    if |runs| < accepts {
      assert (runs + [run])[..|runs| + 1] == runs + [run] && runs[..|runs|] == runs;
      ConcatAppend(runs, [run]);
      Relay.ConcatOne(run);
    } else {
      assert (runs + [run])[..accepts] == runs[..accepts];
    }
  }

  /**
   The calls of one read carried out: a run of audio is a write, made until one
   fails, and blocks are observed all the same.
   */
  method Carry(markers: Markers, calls: seq<Relay.Call>, turn: Read, seg: Radio.Segment)
    returns (sent: Bytes, failed: bool, plays: seq<Radio.Play>)
    modifies seg
    ensures (seg.Abs(), plays)
      == Radio.Run(old(seg.Abs()), TicksAt(markers, Relay.BlocksOf(Relay.EventsOf(calls)), turn.now))
    ensures failed <==> |Relay.EmitsIn(calls)| > turn.accepts
    ensures sent == Taken(Relay.EmitsIn(calls), turn.accepts)
  {
    hide MetaOf, Radio.Step, Taken;
    sent, failed, plays := [], false, [];
    var writes := 0;
    NoneTaken(turn.accepts);
    for k := 0 to |calls|
      invariant (seg.Abs(), plays)
        == Radio.Run(old(seg.Abs()), TicksAt(markers, Relay.BlocksOf(Relay.EventsOf(calls[..k])), turn.now))
      invariant failed <==> |Relay.EmitsIn(calls[..k])| > turn.accepts
      invariant !failed ==> writes == |Relay.EmitsIn(calls[..k])|
      invariant sent == Taken(Relay.EmitsIn(calls[..k]), turn.accepts)
    {
      CallsSnoc(markers, calls, k, turn.now);
      assert calls[..k + 1][..k] == calls[..k];
      match calls[k] {
        case Emit(audio) =>
          TakenSnoc(Relay.EmitsIn(calls[..k]), audio, turn.accepts);
          assert sent + [] == sent;
          if !failed {
            if writes < turn.accepts {
              sent := sent + audio;
            } else {
              failed := true;
            }
            writes := writes + 1;
          }
        case OnBlock(block) =>
          assert Relay.EmitsIn(calls[..k]) + [] == Relay.EmitsIn(calls[..k]);
          var m := IcyMetaOf(markers, block);
          ghost var before, s := plays, seg.Abs();
          var more := seg.Observe(m.meta, turn.now);
          plays := plays + more;
          Radio.RunSplits(old(seg.Abs()), TicksAt(markers, Relay.BlocksOf(Relay.EventsOf(calls[..k])), turn.now),
                          [Radio.Tick(m.meta, turn.now)]);
          RunOneTick(s, Radio.Tick(m.meta, turn.now));
      }
    }
    assert calls[..|calls|] == calls;
  }

  lemma NoneTaken(accepts: nat)
    ensures Taken([], accepts) == []
  {
  }

  lemma RunOneTick(s: Radio.Open, t: Radio.Tick)
    ensures Radio.Run(s, [t]) == Radio.Step(s, t)
  {
    assert [t][1..] == [];
    assert Radio.Step(s, t).1 + [] == Radio.Step(s, t).1;
  }

  lemma CallsSnoc(markers: Markers, calls: seq<Relay.Call>, k: nat, now: int)
    requires k < |calls|
    ensures
      var before, after := Relay.EventsOf(calls[..k]), Relay.EventsOf(calls[..k + 1]);
      match calls[k]
      case Emit(audio) =>
        && Relay.AudioOf(after) == Relay.AudioOf(before) + audio
        && TicksAt(markers, Relay.BlocksOf(after), now) == TicksAt(markers, Relay.BlocksOf(before), now)
      case OnBlock(block) =>
        && Relay.AudioOf(after) == Relay.AudioOf(before)
        && TicksAt(markers, Relay.BlocksOf(after), now)
             == TicksAt(markers, Relay.BlocksOf(before), now) + [Radio.Tick(MetaOf(markers, block).meta, now)]
  {
    var before, after := Relay.EventsOf(calls[..k]), Relay.EventsOf(calls[..k + 1]);
    assert calls[..k + 1][..k] == calls[..k];
    match calls[k] {
      case Emit(audio) =>
        Relay.SplitConcat(before, Relay.AudioEvents(audio));
        Relay.SplitAudio(audio);
        assert Relay.BlocksOf(before) + [] == Relay.BlocksOf(before);
      case OnBlock(block) =>
        Relay.SplitConcat(before, [Relay.Block(block)]);
        assert Relay.AudioOf([Relay.Block(block)]) == [] && Relay.BlocksOf([Relay.Block(block)]) == [block];
        assert Relay.AudioOf(before) + [] == Relay.AudioOf(before);
    }
  }

  /** What the station's stream comes to in turn `i`. */
  function EventsAt(metaint: nat, turns: seq<Read>, i: nat): seq<Relay.Event>
    requires i < |turns|
  {
    Relay.Run(metaint, Relay.RunReads(metaint, Relay.Fresh(metaint), DataOf(turns[..i])).0, turns[i].data).1
  }

  /** The audio of the first `n` turns. */
  function AudioBefore(metaint: nat, turns: seq<Read>, n: nat): Bytes
    requires n <= |turns|
  {
    Relay.AudioOf(Relay.RunReads(metaint, Relay.Fresh(metaint), DataOf(turns[..n])).1)
  }

  /** The listener takes fewer writes in turn `i` than it has runs of audio. */
  predicate WriteFails(metaint: nat, turns: seq<Read>, i: nat)
    requires i < |turns|
  {
    |Relay.AudioRuns(EventsAt(metaint, turns, i))| > turns[i].accepts
  }

  /**
   A station with metadata, relayed for as many turns as it lasts: up to the
   first turn that the guard stops, or in which a write fails or the stream
   ends, and no further. Every block of every turn taken is observed. The
   listener gets the audio in order, all of it but for what the last turn's
   failed write and those after it would have carried.
   */
  method ServeRadio(metaint: nat, markers: Markers, turns: seq<Read>)
    returns (sent: Bytes, plays: seq<Radio.Play>, ending: Ending, used: nat)
    requires metaint > 0
    ensures used <= |turns|
    ensures forall i :: 0 <= i < used ==> turns[i].guardOK
    ensures forall i :: 0 <= i < used - 1 ==> !turns[i].ended && !WriteFails(metaint, turns, i)
    ensures ending ==
      if used > 0 && WriteFails(metaint, turns, used - 1) then WriteFailed
      else if used > 0 && turns[used - 1].ended then UpstreamEnded
      else if used < |turns| then GuardTripped
      else StillOpen
    ensures ending == GuardTripped ==> !turns[used].guardOK
    ensures plays == Radio.Run(Radio.IDLE, Observed(markers, metaint, Relay.Fresh(metaint), turns[..used])).1
    ensures sent ==
      if ending == WriteFailed
      then AudioBefore(metaint, turns, used - 1) + Taken(Relay.AudioRuns(EventsAt(metaint, turns, used - 1)), turns[used - 1].accepts)
      else AudioBefore(metaint, turns, used)
  {
    hide Observed, Relay.Run, Relay.RunReads, Radio.Run, TicksAt, Taken, Relay.AudioRuns;
    var relay := new Relay.Relay(metaint);
    var seg := new Radio.Segment();
    sent, plays, used := [], [], 0;
    ghost var begin := Relay.Fresh(metaint);
    LoopStarts(markers, metaint, begin);
    while used < |turns|
      invariant used <= |turns| && relay.metaint == metaint && begin == Relay.Fresh(metaint)
      invariant Relay.Sound(metaint, relay.Abs())
      invariant relay.Abs() == Relay.RunReads(metaint, begin, DataOf(turns[..used])).0
      invariant (seg.Abs(), plays) == Radio.Run(Radio.IDLE, Observed(markers, metaint, begin, turns[..used]))
      invariant sent == AudioBefore(metaint, turns, used)
      invariant forall i :: 0 <= i < used ==> turns[i].guardOK && !turns[i].ended && !WriteFails(metaint, turns, i)
    {
      var turn := turns[used];
      if !turn.guardOK {
        return sent, plays, GuardTripped, used;
      }
      ghost var s, heard := relay.Abs(), seg.Abs();
      var calls := relay.Feed(turn.data);
      Relay.GroupedEmits(calls);
      var out, failed, more := Carry(markers, calls, turn, seg);
      LoopTurns(markers, metaint, begin, turns, used, s, Relay.EventsOf(calls), heard);
      AllTaken(Relay.EventsOf(calls), turn.accepts);
      sent := sent + out;
      plays := plays + more;
      used := used + 1;
      if failed {
        return sent, plays, WriteFailed, used;
      }
      if turn.ended {
        return sent, plays, UpstreamEnded, used;
      }
    }
    return sent, plays, StillOpen, used;
  }

  lemma AllTaken(events: seq<Relay.Event>, accepts: nat)
    ensures |Relay.AudioRuns(events)| <= accepts ==> Taken(Relay.AudioRuns(events), accepts) == Relay.AudioOf(events)
  {
    var runs := Relay.AudioRuns(events);
    Relay.RunsAreAudio(events);
    assert runs[..|runs|] == runs;
  }

  /** Whatever fails, the listener has the beginning of the audio and nothing else. */
  lemma TakenIsPrefix(events: seq<Relay.Event>, accepts: nat)
    ensures Taken(Relay.AudioRuns(events), accepts) <= Relay.AudioOf(events)
  {
    var runs := Relay.AudioRuns(events);
    var k := Min(accepts, |runs|);
    Relay.RunsAreAudio(events);
    assert runs == runs[..k] + runs[k..];
    ConcatAppend(runs[..k], runs[k..]);
  }

  lemma LoopStarts(markers: Markers, metaint: nat, s: Relay.State)
    ensures DataOf([]) == [] && Relay.RunReads(metaint, s, []) == (s, []) && Relay.AudioOf([]) == []
    ensures Observed(markers, metaint, s, []) == [] && Radio.Run(Radio.IDLE, []) == (Radio.IDLE, [])
  {
  }

  lemma LoopTurns(markers: Markers, metaint: nat, begin: Relay.State, turns: seq<Read>, used: nat, s: Relay.State, events: seq<Relay.Event>, heard: Radio.Open)
    requires used < |turns| && s == Relay.RunReads(metaint, begin, DataOf(turns[..used])).0
    requires events == Relay.Run(metaint, s, turns[used].data).1
    requires heard == Radio.Run(Radio.IDLE, Observed(markers, metaint, begin, turns[..used])).0
    ensures
      var ticks := TicksAt(markers, Relay.BlocksOf(events), turns[used].now);
      var before, after := Relay.RunReads(metaint, begin, DataOf(turns[..used])), Relay.RunReads(metaint, begin, DataOf(turns[..used + 1]));
      && after.0 == Relay.Run(metaint, s, turns[used].data).0
      && Relay.AudioOf(after.1) == Relay.AudioOf(before.1) + Relay.AudioOf(events)
      && Radio.Run(Radio.IDLE, Observed(markers, metaint, begin, turns[..used + 1]))
           == (Radio.Run(heard, ticks).0,
               Radio.Run(Radio.IDLE, Observed(markers, metaint, begin, turns[..used])).1 + Radio.Run(heard, ticks).1)
  {
    hide Observed, Relay.Run, Relay.RunReads, Radio.Run, TicksAt;
    assert turns[..used + 1] == turns[..used] + [turns[used]];
    ObservedSnoc(markers, metaint, begin, turns[..used], turns[used]);
    var before := Relay.RunReads(metaint, begin, DataOf(turns[..used])).1;
    Relay.SplitConcat(before, events);
    Radio.RunSplits(Radio.IDLE, Observed(markers, metaint, begin, turns[..used]),
                    TicksAt(markers, Relay.BlocksOf(events), turns[used].now));
  }
}
