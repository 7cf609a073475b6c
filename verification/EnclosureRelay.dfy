/** One relay request: the remembered chain end, the walk, the answer, and the copy to the listener. */
module EnclosureRelay {
  import opened Common
  import opened EnclosureRoutes
  import opened EnclosureProtocol

  const UNAUTHORIZED := 401
  const FORBIDDEN := 403
  const BAD_GATEWAY := 502

  // ----------------------------------------------------------------------- the copy loop

  datatype ReadError = Fine | Eof | Broken

  /** One turn: what was read and how the read ended, whether the bounds held, whether the listener took it. */
  datatype Turn = Turn(data: Bytes, error: ReadError, bounds: bool, taken: bool)

  datatype End = Running | Complete | Left | Aborted | HeadersOnly

  datatype Copy = Copy(written: Bytes, end: End)

  function CopyOf(turns: seq<Turn>): Copy
    decreases |turns|
  {
    if turns == [] then Copy([], Running)
    else
      var t := turns[0];
      if !t.bounds then Copy([], Aborted)
      else if t.data != [] && !t.taken then Copy([], Left)
      else if t.error.Eof? then Copy(t.data, Complete)
      else if t.error.Broken? then Copy(t.data, Aborted)
      else
        var rest := CopyOf(turns[1..]);
        Copy(t.data + rest.written, rest.end)
  }

  /** The loop, over as many turns as it takes. */
  method CopyBody(turns: seq<Turn>) returns (written: Bytes, end: End)
    ensures Copy(written, end) == CopyOf(turns)
  {
    written := [];
    ghost var whole := CopyOf(turns);
    assert turns[0..] == turns && [] + whole.written == whole.written;
    for i := 0 to |turns|
      invariant whole == Copy(written + CopyOf(turns[i..]).written, CopyOf(turns[i..]).end)
    {
      var t := turns[i];
      assert turns[i..][0] == t && turns[i..][1..] == turns[i + 1..];
      Assoc(written, t.data, CopyOf(turns[i + 1..]).written);
      assert written + [] == written;
      if !t.bounds {
        return written, Aborted;
      }
      if |t.data| > 0 {
        if !t.taken {
          return written, Left;
        }
        written := written + t.data;
      }
      if !t.error.Fine? {
        if t.error.Eof? {
          return written, Complete;
        }
        return written, Aborted;
      }
      assert t.data == [] ==> [] + CopyOf(turns[i + 1..]).written == CopyOf(turns[i + 1..]).written;
    }
    assert turns[|turns|..] == [] && written + [] == written;
    return written, Running;
  }

  predicate Passes(t: Turn) { t.bounds && (t.data == [] || t.taken) && t.error.Fine? }

  function DataOf(turns: seq<Turn>): Bytes { if turns == [] then [] else turns[0].data + DataOf(turns[1..]) }

  ghost predicate AllPass(turns: seq<Turn>, k: nat) { k <= |turns| && forall i :: 0 <= i < k ==> Passes(turns[i]) }

  ghost predicate CompleteAt(turns: seq<Turn>, k: nat) {
    k < |turns| && AllPass(turns, k) && turns[k].bounds && (turns[k].data == [] || turns[k].taken) && turns[k].error.Eof?
  }

  ghost predicate LeftAt(turns: seq<Turn>, k: nat) {
    k < |turns| && AllPass(turns, k) && turns[k].bounds && turns[k].data != [] && !turns[k].taken
  }

  /** The stream ends whole at the host's own end with everything written, short where the listener left, and no other way. */
  lemma {:induction false} CleanEnds(turns: seq<Turn>)
    ensures CopyOf(turns).end == Complete <==> exists k: nat :: CompleteAt(turns, k)
    ensures CopyOf(turns).end == Left <==> exists k: nat :: LeftAt(turns, k)
    ensures forall k: nat :: CompleteAt(turns, k) ==> CopyOf(turns).written == DataOf(turns[..k + 1])
    ensures forall k: nat :: LeftAt(turns, k) ==> CopyOf(turns).written == DataOf(turns[..k])
    decreases |turns|
  {
    hide AllPass, DataOf;
    if turns != [] {
      CleanEnds(turns[1..]);
      forall k: nat | CompleteAt(turns, k)
        ensures CopyOf(turns).end == Complete && CopyOf(turns).written == DataOf(turns[..k + 1])
      {
        FirstTurn(turns, k);
        if k > 0 && Passes(turns[0]) {
          ShiftAt(turns, k);
        }
      }
      forall k: nat | LeftAt(turns, k)
        ensures CopyOf(turns).end == Left && CopyOf(turns).written == DataOf(turns[..k])
      {
        FirstTurn(turns, k);
        if k > 0 && Passes(turns[0]) {
          ShiftAt(turns, k);
        }
      }
      if Passes(turns[0]) {
        if CopyOf(turns).end == Complete {
          var k: nat :| CompleteAt(turns[1..], k);
          ShiftAt(turns, k + 1);
          assert CompleteAt(turns, k + 1);
        } else if CopyOf(turns).end == Left {
          var k: nat :| LeftAt(turns[1..], k);
          ShiftAt(turns, k + 1);
          assert LeftAt(turns, k + 1);
        }
      } else {
        FirstTurn(turns, 0);
        assert CopyOf(turns).end == Complete ==> CompleteAt(turns, 0);
        assert CopyOf(turns).end == Left ==> LeftAt(turns, 0);
      }
    }
  }

  lemma FirstTurn(turns: seq<Turn>, k: nat)
    requires turns != []
    ensures (CompleteAt(turns, k) || LeftAt(turns, k)) && k > 0 ==> Passes(turns[0])
    ensures CompleteAt(turns, 0) <==> CopyOf(turns).end == Complete && !Passes(turns[0])
    ensures LeftAt(turns, 0) <==> CopyOf(turns).end == Left && !Passes(turns[0])
    ensures CompleteAt(turns, 0) ==> CopyOf(turns).written == DataOf(turns[..1])
    ensures LeftAt(turns, 0) ==> CopyOf(turns).written == DataOf(turns[..0])
  {
    assert turns[..1] == [turns[0]];
    assert DataOf([turns[0]]) == turns[0].data + DataOf([]);
  }

  lemma ShiftAt(turns: seq<Turn>, k: nat)
    requires turns != [] && Passes(turns[0]) && k > 0
    ensures CompleteAt(turns, k) <==> CompleteAt(turns[1..], k - 1)
    ensures LeftAt(turns, k) <==> LeftAt(turns[1..], k - 1)
    ensures k < |turns| ==> DataOf(turns[..k + 1]) == turns[0].data + DataOf(turns[1..][..k])
    ensures k < |turns| ==> DataOf(turns[..k]) == turns[0].data + DataOf(turns[1..][..k - 1])
  {
    if k < |turns| {
      assert turns[..k + 1][1..] == turns[1..][..k] && turns[..k][1..] == turns[1..][..k - 1];
      assert AllPass(turns, k) <==> AllPass(turns[1..], k - 1) by {
        assert forall i :: 0 < i < k ==> turns[i] == turns[1..][i - 1];
        assert forall i :: 0 <= i < k - 1 ==> turns[1..][i] == turns[i + 1];
      }
    }
  }

  /** The copy ends at the first turn that does not pass, with what was taken before it and what that turn itself brings. */
  lemma {:induction false} CopyEnds(turns: seq<Turn>, k: nat)
    requires AllPass(turns, k)
    ensures k == |turns| ==> CopyOf(turns) == Copy(DataOf(turns), Running)
    ensures k < |turns| && !turns[k].bounds ==> CopyOf(turns) == Copy(DataOf(turns[..k]), Aborted)
    ensures k < |turns| && turns[k].bounds && turns[k].data != [] && !turns[k].taken ==> CopyOf(turns) == Copy(DataOf(turns[..k]), Left)
    ensures k < |turns| && turns[k].bounds && (turns[k].data == [] || turns[k].taken) && !turns[k].error.Fine? ==>
      CopyOf(turns) == Copy(DataOf(turns[..k + 1]), if turns[k].error.Eof? then Complete else Aborted)
    decreases |turns|
  {
    hide DataOf;
    if k > 0 {
      CopyEnds(turns[1..], k - 1);
      DataFirst(turns);
      assert turns[..k][1..] == turns[1..][..k - 1] && turns[..k][0] == turns[0];
      DataFirst(turns[..k]);
      if k < |turns| {
        assert turns[..k + 1][1..] == turns[1..][..k] && turns[..k + 1][0] == turns[0];
        DataFirst(turns[..k + 1]);
      }
    } else {
      DataFirst(turns);
      DataFirst([]);
      if turns != [] {
        assert turns[..1] == [turns[0]];
        DataFirst(turns[..1]);
      }
    }
  }

  lemma DataFirst(turns: seq<Turn>)
    ensures DataOf(turns) == if turns == [] then [] else turns[0].data + DataOf(turns[1..])
  {
  }

  // ------------------------------------------------------------------------- the reply

  /** What goes out: a refusal, with the episode's length where a range was refused and the host told it; or the audio. */
  datatype Reply =
    | Refused(status: nat, reason: string, range: Option<string>)
    | Relayed(status: nat, contentType: string, headers: map<string, seq<string>>, copy: Copy)

  /** The headers that reach the listener as the host sent them. */
  const ALLOWED: seq<string> := ["Content-Length", "Content-Range", "Accept-Ranges", "ETag", "Last-Modified", "Content-Encoding"]

  const UNSATISFIED := "bytes */"

  function TrimSpace(v: string): string
    decreases |v|
  {
    if v != [] && WhiteSpace(v[0] as int) then TrimSpace(v[1..])
    else if v != [] && WhiteSpace(v[|v| - 1] as int) then TrimSpace(v[..|v| - 1])
    else v
  }

  predicate Digits(v: string) { forall i :: 0 <= i < |v| ==> '0' <= v[i] <= '9' }

  /** The length form of a refused range, "bytes *" and a length of at most 19 digits. */
  function UnsatisfiedRange(v: string): Option<string> {
    var t, n := TrimSpace(v), |UNSATISFIED|;
    if |t| < n || t[..n] != UNSATISFIED then None
    else if |t| == n || |t| - n > 19 || !Digits(t[n..]) then None
    else Some(UNSATISFIED + t[n..])
  }

  function FirstHeader(headers: map<string, seq<string>>, name: string): string {
    if name in headers && headers[name] != [] then headers[name][0] else ""
  }

  function AllowedOf(headers: map<string, seq<string>>): map<string, seq<string>> {
    map name | name in headers && name in ALLOWED :: headers[name]
  }

  /** What an answer the relay settled on comes to for the listener. */
  function ReplyTo(rules: Rules, src: Source, head: bool, a: Answer, turns: seq<Turn>): Reply
    requires a.Answered?
  {
    if a.status == OK_STATUS || a.status == PARTIAL then
      var contentType := rules.contentType(a.contentType, src.mimeType);
      if contentType.None? then Refused(BAD_GATEWAY, "not audio", None)
      else Relayed(a.status, contentType.value, AllowedOf(a.headers), if head then Copy([], HeadersOnly) else CopyOf(turns))
    else if a.status == UNSATISFIABLE then
      Refused(UNSATISFIABLE, "range", UnsatisfiedRange(FirstHeader(a.headers, "Content-Range")))
    else if a.status == UNAUTHORIZED || a.status == FORBIDDEN then
      if src.authUser != "" && a.end.Some? && !rules.sameOrigin(a.end.value, src.feedUrl) then Refused(BAD_GATEWAY, "login elsewhere", None)
      else Refused(BAD_GATEWAY, "credentials", None)
    else Refused(BAD_GATEWAY, "status", None)
  }

  /** An answer whose type passes, or one that says the listener's range is past the end. */
  ghost predicate Fit(rules: Rules, src: Source, a: Answer) {
    a.Answered? && (a.status == 416 || (a.status in {200, 206} && rules.contentType(a.contentType, src.mimeType).Some?))
  }

  lemma GoodIsFit(rules: Rules, src: Source, a: Answer)
    ensures Good(rules, a, src) <==> Fit(rules, src, a)
  {
  }

  /**
   Audio goes out, to a HEAD as headers alone whatever there would be to copy,
   to a GET as the copy: whole exactly where the host ends it and the listener
   took it all, short exactly where a write failed.
   */
  lemma AudioGoesOut(rules: Rules, src: Source, head: bool, a: Answer, turns: seq<Turn>)
    requires a.Answered?
    ensures ReplyTo(rules, src, head, a, turns).Relayed? <==> a.status in {200, 206} && rules.contentType(a.contentType, src.mimeType).Some?
    ensures
      var reply := ReplyTo(rules, src, head, a, turns);
      reply.Relayed? ==>
        && reply.status == a.status && rules.contentType(a.contentType, src.mimeType) == Some(reply.contentType)
        && (head ==> reply.copy == Copy([], HeadersOnly))
        && (!head ==>
              && (reply.copy.end == Complete <==> exists k: nat :: CompleteAt(turns, k))
              && (reply.copy.end == Left <==> exists k: nat :: LeftAt(turns, k))
              && (forall k: nat :: CompleteAt(turns, k) ==> reply.copy == Copy(DataOf(turns[..k + 1]), Complete))
              && (forall k: nat :: LeftAt(turns, k) ==> reply.copy == Copy(DataOf(turns[..k]), Left))
              && (AllPass(turns, |turns|) ==> reply.copy == Copy(DataOf(turns), Running)))
  {
    hide CopyOf, DataOf, AllowedOf, CompleteAt, LeftAt, AllPass;
    CleanEnds(turns);
    if AllPass(turns, |turns|) {
      CopyEnds(turns, |turns|);
    }
  }

  /** Everything else is refused, each for its own reason; a login the show has is blamed on the host that never got it. */
  lemma RefusalsAre(rules: Rules, src: Source, head: bool, a: Answer, turns: seq<Turn>)
    requires a.Answered?
    ensures
      var reply := ReplyTo(rules, src, head, a, turns);
      var elsewhere := src.authUser != "" && a.end.Some? && !rules.sameOrigin(a.end.value, src.feedUrl);
      && (reply.Refused? && reply.status == 416 <==> a.status == 416)
      && (reply.Refused? && reply.reason == "login elsewhere" <==> a.status in {401, 403} && elsewhere)
      && (reply.Refused? && reply.reason == "credentials" <==> a.status in {401, 403} && !elsewhere)
      && (reply.Refused? && reply.reason == "not audio" <==> a.status in {200, 206} && rules.contentType(a.contentType, src.mimeType).None?)
      && (reply.Refused? && reply.reason == "status" <==> a.status !in {200, 206, 401, 403, 416})
      && (reply.Refused? && a.status != 416 ==> reply.status == 502 && reply.range.None?)
  {
    hide CopyOf, AllowedOf, UnsatisfiedRange;
    ReasonsDiffer();
  }

  lemma ReasonsDiffer()
    ensures
      var reasons := ["range", "login elsewhere", "credentials", "not audio", "status", "unreachable"];
      forall i, j :: 0 <= i < j < |reasons| ==> reasons[i] != reasons[j]
  {
    var reasons := ["range", "login elsewhere", "credentials", "not audio", "status", "unreachable"];
    assert |reasons[0]| == 5 && |reasons[1]| == 15 && |reasons[2]| == 11 && |reasons[3]| == 9 && |reasons[4]| == 6 && reasons[4][0] == 's';
    assert |reasons[5]| == 11 && reasons[5][0] == 'u' && reasons[2][0] == 'c';
  }

  /** Only allowed headers go out, each as the host sent it; only a type that passed; of a refused range only a length. */
  lemma NothingElseGoesOut(rules: Rules, src: Source, head: bool, a: Answer, turns: seq<Turn>)
    requires a.Answered?
    ensures
      match ReplyTo(rules, src, head, a, turns)
      case Relayed(status, contentType, headers, _) =>
        && status == a.status && rules.contentType(a.contentType, src.mimeType) == Some(contentType)
        && (forall name :: name in headers <==> (name in a.headers && name in ALLOWED))
        && (forall name :: name in headers ==> headers[name] == a.headers[name])
      case Refused(status, _, range) =>
        range.Some? ==>
          && status == UNSATISFIABLE && |UNSATISFIED| < |range.value| <= |UNSATISFIED| + 19
          && range.value[..|UNSATISFIED|] == UNSATISFIED && Digits(range.value[|UNSATISFIED|..])
  {
    hide CopyOf, TrimSpace;
    if a.status == UNSATISFIABLE {
      var v := TrimSpace(FirstHeader(a.headers, "Content-Range"));
      var n := |UNSATISFIED|;
      if |v| > n {
        assert (UNSATISFIED + v[n..])[n..] == v[n..] && (UNSATISFIED + v[n..])[..n] == UNSATISFIED;
      }
    }
  }

  /** A host's length form, spaced as it may be, is passed on as it is. */
  lemma LengthPassedOn(before: string, digits: string, after: string)
    requires (forall c :: c in before || c in after ==> WhiteSpace(c as int)) && Digits(digits) && 0 < |digits| <= 19
    ensures UnsatisfiedRange(before + UNSATISFIED + digits + after) == Some(UNSATISFIED + digits)
  {
    hide WhiteSpace;
    assert !WhiteSpace(UNSATISFIED[0] as int) && !WhiteSpace(digits[|digits| - 1] as int) by {
      DigitsAreNoSpace(digits);
    }
    assert before + UNSATISFIED + digits + after == before + (UNSATISFIED + digits) + after;
    Trims(before, UNSATISFIED + digits, after);
    var t, n := UNSATISFIED + digits, |UNSATISFIED|;
    assert t[..n] == UNSATISFIED && t[n..] == digits;
  }

  lemma DigitsAreNoSpace(digits: string)
    requires Digits(digits) && digits != ""
    ensures !WhiteSpace(UNSATISFIED[0] as int) && !WhiteSpace(digits[|digits| - 1] as int)
  {
  }

  lemma {:induction false} Trims(before: string, v: string, after: string)
    requires forall c :: c in before || c in after ==> WhiteSpace(c as int)
    requires v != "" && !WhiteSpace(v[0] as int) && !WhiteSpace(v[|v| - 1] as int)
    ensures TrimSpace(before + v + after) == v
    decreases |before| + |after|
  {
    hide WhiteSpace;
    var all := before + v + after;
    if before != "" {
      assert before[0] in before && forall c :: c in before[1..] ==> c in before;
      assert all[0] == before[0] && all[1..] == before[1..] + v + after;
      Trims(before[1..], v, after);
    } else if after != "" {
      var n := |after| - 1;
      assert after[n] in after && forall c :: c in after[..n] ==> c in after;
      assert before == "" && all[0] == v[0] && all[|all| - 1] == after[n] && all[..|all| - 1] == before + v + after[..n];
      Trims(before, v, after[..n]);
    } else {
      assert all == v;
    }
  }

  /** The allowed headers, copied one name after another. */
  method CopyHeaders(headers: map<string, seq<string>>) returns (out: map<string, seq<string>>)
    ensures out == AllowedOf(headers)
  {
    out := map[];
    for i := 0 to |ALLOWED|
      invariant out == map name | name in headers && name in ALLOWED[..i] :: headers[name]
    {
      assert ALLOWED[..i + 1] == ALLOWED[..i] + [ALLOWED[i]];
      if ALLOWED[i] in headers {
        out := out[ALLOWED[i] := headers[ALLOWED[i]]];
      }
    }
    assert ALLOWED[..|ALLOWED|] == ALLOWED;
  }

  /** Times at which one request reads the clock: to look up, to purge, to record. */
  datatype Times = Times(asked: int, purged: int, recorded: int)

  function WalkReply(rules: Rules, src: Source, head: bool, walk: Answer, turns: seq<Turn>): Reply {
    if walk.Failed? then Refused(BAD_GATEWAY, "unreachable", None) else ReplyTo(rules, src, head, walk, turns)
  }

  predicate Shortcut(rules: Rules, c: Cache, pid: string, src: Source, asked: int, short: Answer) {
    LookupOf(c, pid, src.url, asked).Some? && Good(rules, short, src)
  }

  /** One fetch for a remembered end, and one for the chain unless that end was good. */
  function FetchesOf(rules: Rules, c: Cache, pid: string, src: Source, times: Times, short: Answer): nat {
    (if LookupOf(c, pid, src.url, times.asked).Some? then 1 else 0) + (if Shortcut(rules, c, pid, src, times.asked, short) then 0 else 1)
  }

  function CacheAfter(rules: Rules, c: Cache, pid: string, src: Source, times: Times, short: Answer, walk: Answer): Cache {
    if Shortcut(rules, c, pid, src, times.asked, short) then c
    else
      var dropped := if LookupOf(c, pid, src.url, times.asked).Some? then ForgottenIn(c, pid) else c;
      if walk.Failed? then dropped
      else
        var taught := Taught(rules, dropped, pid, src, walk, times.purged, times.recorded);
        if walk.status in {OK_STATUS, PARTIAL} && !Gated(rules, walk, src.mimeType) then ForgottenIn(taught, pid) else taught
  }

  /**
   The request: a remembered end first, the whole chain where that is no good,
   and then the answer. `short` and `walk` are what the two fetches would give.
   */
  method RelayEnclosure(rules: Rules, cache: Routes, pid: string, src: Source, head: bool, times: Times,
                        short: Answer, walk: Answer, turns: seq<Turn>)
    returns (reply: Reply, fetches: nat)
    modifies cache
    ensures fetches == FetchesOf(rules, old(cache.Model()), pid, src, times, short) <= 2
    ensures reply == if Shortcut(rules, old(cache.Model()), pid, src, times.asked, short)
      then ReplyTo(rules, src, head, short, turns) else WalkReply(rules, src, head, walk, turns)
    ensures cache.Model() == CacheAfter(rules, old(cache.Model()), pid, src, times, short, walk)
  {
    hide Good, Learned, RememberedIn, LookupOf, CopyOf, AllowedOf, UnsatisfiedRange;
    fetches := 0;
    var answer := Failed;
    var found := cache.Lookup(pid, src.url, times.asked);
    if found.Some? {
      fetches := 1;
      if Good(rules, short, src) {
        GoodAnswers(rules, short, src);
        answer := short;
      } else {
        cache.Forget(pid);
      }
    }
    if answer.Failed? {
      fetches := fetches + 1;
      if walk.Failed? {
        return Refused(BAD_GATEWAY, "unreachable", None), fetches;
      }
      answer := walk;
      var learned := Learned(rules, src, walk);
      if learned.Some? {
        cache.Remember(pid, src.url, learned.value, times.purged, times.recorded);
      }
    }
    if answer.status == UNSATISFIABLE {
      return Refused(UNSATISFIABLE, "range", UnsatisfiedRange(FirstHeader(answer.headers, "Content-Range"))), fetches;
    }
    if answer.status == UNAUTHORIZED || answer.status == FORBIDDEN {
      if src.authUser != "" && answer.end.Some? && !rules.sameOrigin(answer.end.value, src.feedUrl) {
        return Refused(BAD_GATEWAY, "login elsewhere", None), fetches;
      }
      return Refused(BAD_GATEWAY, "credentials", None), fetches;
    }
    if answer.status != OK_STATUS && answer.status != PARTIAL {
      return Refused(BAD_GATEWAY, "status", None), fetches;
    }
    var contentType := rules.contentType(answer.contentType, src.mimeType);
    if contentType.None? {
      cache.Forget(pid);
      return Refused(BAD_GATEWAY, "not audio", None), fetches;
    }
    var headers := CopyHeaders(answer.headers);
    if head {
      return Relayed(answer.status, contentType.value, headers, Copy([], HeadersOnly)), fetches;
    }
    var written, end := CopyBody(turns);
    return Relayed(answer.status, contentType.value, headers, Copy(written, end)), fetches;
  }

  lemma GoodAnswers(rules: Rules, a: Answer, src: Source)
    requires Good(rules, a, src)
    ensures a.Answered? && a.status in {OK_STATUS, PARTIAL, UNSATISFIABLE} && Gated(rules, a, src.mimeType)
  {
  }

  // -------------------------------------------------------------------- what that comes to

  function ReplyFrom(rules: Rules, c: Cache, pid: string, src: Source, head: bool, asked: int, short: Answer, walk: Answer, turns: seq<Turn>): Reply {
    if Shortcut(rules, c, pid, src, asked, short) then ReplyTo(rules, src, head, short, turns) else WalkReply(rules, src, head, walk, turns)
  }

  /**
   The cache is an optimisation and not a source of answers: a request is
   answered as it would be with nothing remembered, unless what was
   remembered itself answered with audio or with the listener's range refused.
   */
  lemma CacheIsTransparent(rules: Rules, c: Cache, pid: string, src: Source, head: bool, asked: int, short: Answer, walk: Answer, turns: seq<Turn>)
    ensures
      var reply := ReplyFrom(rules, c, pid, src, head, asked, short, walk, turns);
      || reply == ReplyFrom(rules, Cache(map[], {}), pid, src, head, asked, short, walk, turns)
      || (pid in c.entries && Usable(short) &&
          match reply
          case Relayed(status, contentType, _, _) =>
            status == short.status && rules.contentType(short.contentType, src.mimeType) == Some(contentType)
          case Refused(status, _, _) => status == short.status == UNSATISFIABLE)
  {
    hide CopyOf;
  }

  /** A remembered end that is fit is the one fetch there is, answers the listener, and changes nothing; any other costs a second. */
  lemma RememberedEndServes(rules: Rules, c: Cache, pid: string, src: Source, head: bool, times: Times, short: Answer, walk: Answer, turns: seq<Turn>)
    ensures
      var known := LookupOf(c, pid, src.url, times.asked).Some?;
      && (known && Fit(rules, src, short) ==>
            && ReplyFrom(rules, c, pid, src, head, times.asked, short, walk, turns) == ReplyTo(rules, src, head, short, turns)
            && CacheAfter(rules, c, pid, src, times, short, walk) == c)
      && (!(known && Fit(rules, src, short)) ==>
            ReplyFrom(rules, c, pid, src, head, times.asked, short, walk, turns)
              == if walk.Failed? then Refused(502, "unreachable", None) else ReplyTo(rules, src, head, walk, turns))
      && FetchesOf(rules, c, pid, src, times, short) == if known && !Fit(rules, src, short) then 2 else 1
  {
    hide CopyOf, ReplyTo;
    GoodIsFit(rules, src, short);
  }

  /** A walk to a fit end, on the feed's own origin where the feed has a login, is looked up from then on. */
  lemma FitEndsAreKept(rules: Rules, c: Cache, pid: string, src: Source, times: Times, short: Answer, walk: Answer)
    requires LookupOf(c, pid, src.url, times.asked).None? || !Fit(rules, src, short)
    requires Fit(rules, src, walk) && walk.end.Some? && walk.end.value != "" && src.url != ""
    requires src.authUser == "" || rules.sameOrigin(walk.end.value, src.feedUrl)
    ensures LookupOf(CacheAfter(rules, c, pid, src, times, short, walk), pid, src.url, times.recorded) == walk.end
  {
    hide MadeRoom;
    GoodIsFit(rules, src, short);
    GoodIsFit(rules, src, walk);
  }

  /** A remembered end that failed is gone afterwards, unless the walk has just taught it anew. */
  lemma FailuresForget(rules: Rules, c: Cache, pid: string, src: Source, times: Times, short: Answer, walk: Answer)
    requires LookupOf(c, pid, src.url, times.asked).Some? && !Fit(rules, src, short)
    ensures
      var after := CacheAfter(rules, c, pid, src, times, short, walk);
      if src.url != "" && Learned(rules, src, walk).Some? && Learned(rules, src, walk).value != ""
      then LookupOf(after, pid, src.url, times.recorded) == Learned(rules, src, walk)
      else pid !in after.entries
  {
    hide MadeRoom;
  }

  /**
   A walk whose end is not one to try first, because the answer was no good or
   because a credentialed feed's chain ended off its own origin, records
   nothing: at most it leaves the episode forgotten.
   */
  lemma UnfitEndsAreNotKept(rules: Rules, c: Cache, pid: string, src: Source, times: Times, short: Answer, walk: Answer)
    requires
      || !Fit(rules, src, walk) || walk.end.None?
      || (src.authUser != "" && !rules.sameOrigin(walk.end.value, src.feedUrl))
    ensures CacheAfter(rules, c, pid, src, times, short, walk) in {c, ForgottenIn(c, pid)}
  {
    assert c.entries - {pid} - {pid} == c.entries - {pid};
  }

  // ------------------------------------------------------- the request among the others

  /** One relay's own steps, and the clock's, from asking to done. */
  function Script(rules: Rules, c: Cache, id: nat, pid: string, src: Source, times: Times, short: Answer, walk: Answer): seq<Action> {
    [Tick(times.asked), RelayLookup(id)] +
    if Shortcut(rules, c, pid, src, times.asked, short) then [RelayShortcut(id, short), RelayServe(id)]
    else
      (if LookupOf(c, pid, src.url, times.asked).Some? then [RelayShortcut(id, short), RelayForget(id)] else []) +
      WalkScript(rules, id, src, times, walk)
  }

  function WalkScript(rules: Rules, id: nat, src: Source, times: Times, walk: Answer): seq<Action> {
    [RelayWalk(id, walk)] +
    if walk.Failed? then []
    else
      [Tick(times.recorded), RelayRemember(id, times.purged), RelayServe(id)] +
      if Refuses(rules, src, walk) then [RelayRefuse(id)] else []
  }

  predicate Refuses(rules: Rules, src: Source, a: Answer)
    requires a.Answered?
  {
    a.status in {OK_STATUS, PARTIAL} && !Gated(rules, a, src.mimeType)
  }

  lemma RunFirst(rules: Rules, s: State, first: Action, rest: seq<Action>)
    requires Step(rules, s, first).Some?
    ensures Run(rules, s, [first] + rest) == Run(rules, Step(rules, s, first).value, rest)
  {
    hide Step;
    assert ([first] + rest)[1..] == rest;
  }

  ghost predicate Through(rules: Rules, s: State, actions: seq<Action>, id: nat, c: Cache, fetches: nat) {
    match Run(rules, s, actions)
    case None => false
    case Some(end) => end.cache == c && id in end.relays && end.relays[id].phase.RelayDone? && end.relays[id].fetches == fetches
  }

  lemma ThroughFirst(rules: Rules, s: State, first: Action, rest: seq<Action>, id: nat, c: Cache, fetches: nat)
    requires Step(rules, s, first).Some? && Through(rules, Step(rules, s, first).value, rest, id, c, fetches)
    ensures Through(rules, s, [first] + rest, id, c, fetches)
  {
    hide Step, Run;
    RunFirst(rules, s, first, rest);
  }

  lemma ThroughDone(rules: Rules, s: State, id: nat)
    requires id in s.relays && s.relays[id].phase.RelayDone?
    ensures Through(rules, s, [], id, s.cache, s.relays[id].fetches)
  {
  }

  /** Once it serves, the relay is done, or refuses and forgets. */
  lemma ServeThrough(rules: Rules, s: State, id: nat, r: Relay)
    requires id in s.relays && s.relays[id] == r && r.phase.Serving? && r.phase.a.Answered?
    ensures Through(rules, s, [RelayServe(id)] + if Refuses(rules, r.src, r.phase.a) then [RelayRefuse(id)] else [], id,
      if Refuses(rules, r.src, r.phase.a) then ForgottenIn(s.cache, r.pid) else s.cache, r.fetches)
  {
    hide Run, Through, LookupOf, Taught, RecordOf, WalkOf;
    var t := Step(rules, s, RelayServe(id)).value;
    if Refuses(rules, r.src, r.phase.a) {
      var u := Step(rules, t, RelayRefuse(id)).value;
      ThroughDone(rules, u, id);
      ThroughFirst(rules, t, RelayRefuse(id), [], id, u.cache, r.fetches);
      assert [RelayRefuse(id)] + [] == [RelayRefuse(id)];
      ThroughFirst(rules, s, RelayServe(id), [RelayRefuse(id)], id, u.cache, r.fetches);
    } else {
      ThroughDone(rules, t, id);
      ThroughFirst(rules, s, RelayServe(id), [], id, t.cache, r.fetches);
    }
  }

  /** What the walk leaves of the cache. */
  function AfterWalk(rules: Rules, c: Cache, pid: string, src: Source, times: Times, walk: Answer): Cache {
    if walk.Failed? then c
    else
      var taught := Taught(rules, c, pid, src, walk, times.purged, times.recorded);
      if Refuses(rules, src, walk) then ForgottenIn(taught, pid) else taught
  }

  lemma WalkThrough(rules: Rules, s: State, id: nat, r: Relay, times: Times, walk: Answer)
    requires id in s.relays && s.relays[id] == r && r.phase.Walking? && s.clock <= times.recorded && times.purged <= times.recorded
    ensures Through(rules, s, WalkScript(rules, id, r.src, times, walk), id,
      AfterWalk(rules, s.cache, r.pid, r.src, times, walk), r.fetches + 1)
  {
    hide Run, Through, LookupOf, Taught, RecordOf, WalkOf, Refuses;
    var t := Step(rules, s, RelayWalk(id, walk)).value;
    if walk.Failed? {
      ThroughDone(rules, t, id);
      ThroughFirst(rules, s, RelayWalk(id, walk), [], id, t.cache, r.fetches + 1);
    } else {
      var u := Step(rules, t, Tick(times.recorded)).value;
      var v := Step(rules, u, RelayRemember(id, times.purged)).value;
      var c := AfterWalk(rules, s.cache, r.pid, r.src, times, walk);
      var last := [RelayServe(id)] + if Refuses(rules, r.src, walk) then [RelayRefuse(id)] else [];
      ServeThrough(rules, v, id, v.relays[id]);
      ThroughFirst(rules, u, RelayRemember(id, times.purged), last, id, c, r.fetches + 1);
      ThroughFirst(rules, t, Tick(times.recorded), [RelayRemember(id, times.purged)] + last, id, c, r.fetches + 1);
      var rest := [Tick(times.recorded)] + ([RelayRemember(id, times.purged)] + last);
      ThroughFirst(rules, s, RelayWalk(id, walk), rest, id, c, r.fetches + 1);
      assert WalkScript(rules, id, r.src, times, walk) == [RelayWalk(id, walk)] + rest;
    }
  }

  /**
   A request is one relay of the protocol: its steps taken without any other's
   between leave the cache as the request does, after as many fetches.
   */
  lemma RequestIsProtocol(rules: Rules, s: State, id: nat, pid: string, src: Source, times: Times, short: Answer, walk: Answer)
    requires id in s.relays && s.relays[id] == Relay(pid, src, Asking, 0)
    requires s.clock <= times.asked <= times.recorded && times.purged <= times.recorded
    ensures Through(rules, s, Script(rules, s.cache, id, pid, src, times, short, walk), id,
      CacheAfter(rules, s.cache, pid, src, times, short, walk), FetchesOf(rules, s.cache, pid, src, times, short))
  {
    hide Run, Through, LookupOf, Taught, RecordOf, WalkOf, WalkScript, Good, Gated;
    var c, fetches := CacheAfter(rules, s.cache, pid, src, times, short, walk), FetchesOf(rules, s.cache, pid, src, times, short);
    var t := Step(rules, s, Tick(times.asked)).value;
    var u := Step(rules, t, RelayLookup(id)).value;
    var rest;
    if LookupOf(s.cache, pid, src.url, times.asked).Some? {
      var v := Step(rules, u, RelayShortcut(id, short)).value;
      if Good(rules, short, src) {
        GoodAnswers(rules, short, src);
        ServeThrough(rules, v, id, v.relays[id]);
        assert [RelayServe(id)] + [] == [RelayServe(id)];
        rest := [RelayShortcut(id, short)] + [RelayServe(id)];
        ThroughFirst(rules, u, RelayShortcut(id, short), [RelayServe(id)], id, c, fetches);
        assert Script(rules, s.cache, id, pid, src, times, short, walk) == [Tick(times.asked)] + ([RelayLookup(id)] + rest);
      } else {
        var x := Step(rules, v, RelayForget(id)).value;
        var last := WalkScript(rules, id, src, times, walk);
        WalkThrough(rules, x, id, x.relays[id], times, walk);
        ThroughFirst(rules, v, RelayForget(id), last, id, c, fetches);
        rest := [RelayShortcut(id, short)] + ([RelayForget(id)] + last);
        ThroughFirst(rules, u, RelayShortcut(id, short), [RelayForget(id)] + last, id, c, fetches);
        assert Script(rules, s.cache, id, pid, src, times, short, walk) == [Tick(times.asked)] + ([RelayLookup(id)] + rest);
      }
    } else {
      rest := WalkScript(rules, id, src, times, walk);
      WalkThrough(rules, u, id, u.relays[id], times, walk);
      assert Script(rules, s.cache, id, pid, src, times, short, walk) == [Tick(times.asked)] + ([RelayLookup(id)] + rest);
    }
    ThroughFirst(rules, t, RelayLookup(id), rest, id, c, fetches);
    ThroughFirst(rules, s, Tick(times.asked), [RelayLookup(id)] + rest, id, c, fetches);
  }

  lemma RunsOn(rules: Rules, s: State, first: Action, rest: seq<Action>, end: State)
    requires Step(rules, s, first).Some? && Run(rules, Step(rules, s, first).value, rest) == Some(end)
    ensures Run(rules, s, [first] + rest) == Some(end)
  {
    hide Step, Run;
    RunFirst(rules, s, first, rest);
  }

  /** The steps of one warmer from its claim to its release. */
  function WarmScript(id: nat, started: bool, walk: Answer, purged: int, at: int): seq<Action> {
    [WarmClaim(id)] + ([WarmStart(id, started)] + if started then WalkToRelease(id, walk, purged, at) else [WarmRelease(id)])
  }

  function WalkToRelease(id: nat, walk: Answer, purged: int, at: int): seq<Action> {
    [WarmWalk(id, walk)] + if walk.Failed? then [WarmRelease(id)] else [Tick(at)] + ([WarmRemember(id, purged)] + [WarmRelease(id)])
  }

  /**
   A warmer left to itself teaches the cache what a relay's own walk would,
   and leaves no claim; one that is refused its claim, never starts or cannot
   reach the host leaves the cache as it was.
   */
  lemma WarmerTeaches(rules: Rules, s: State, id: nat, pid: string, src: Source, started: bool, walk: Answer, purged: int, at: int)
    requires id in s.warmers && s.warmers[id] == Warmer(pid, src, Wanting, 0, 0)
    requires s.clock <= at && purged <= at
    ensures !Claimable(s.cache, pid, src.url, s.clock) ==>
      Run(rules, s, [WarmClaim(id)]).Some? && Run(rules, s, [WarmClaim(id)]).value.cache == s.cache
    ensures Claimable(s.cache, pid, src.url, s.clock) ==>
      var end := Run(rules, s, WarmScript(id, started, walk, purged, at));
      && end.Some? && id in end.value.warmers && end.value.warmers[id].phase.WarmDone?
      && end.value.cache == if started && walk.Answered? then Taught(rules, s.cache, pid, src, walk, purged, at) else s.cache
  {
    hide Run, LookupOf, Learned, RecordOf, WalkOf, Claimable, RememberedIn;
    var t := Step(rules, s, WarmClaim(id)).value;
    if !Claimable(s.cache, pid, src.url, s.clock) {
      RunNone(rules, t);
      RunsOn(rules, s, WarmClaim(id), [], t);
      assert [WarmClaim(id)] + [] == [WarmClaim(id)];
    } else {
      NotWarmed(s.cache, pid, src.url, s.clock);
      assert t.cache == s.cache.(warming := s.cache.warming + {pid});
      var u := Step(rules, t, WarmStart(id, started)).value;
      WarmRest(rules, u, id, pid, src, walk, purged, at, s.cache);
      var tail := if started then WalkToRelease(id, walk, purged, at) else [WarmRelease(id)];
      var end := Run(rules, u, tail).value;
      RunsOn(rules, t, WarmStart(id, started), tail, end);
      RunsOn(rules, s, WarmClaim(id), [WarmStart(id, started)] + tail, end);
    }
  }

  lemma NotWarmed(c: Cache, pid: string, from: string, now: int)
    requires Claimable(c, pid, from, now)
    ensures pid !in c.warming && c.warming + {pid} - {pid} == c.warming && ClaimedIn(c, pid, from, now) == c.(warming := c.warming + {pid})
  {
  }

  lemma RunNone(rules: Rules, s: State)
    ensures Run(rules, s, []) == Some(s)
  {
  }

  /** From the start of the walk, or from the release where the walk was never started. */
  lemma WarmRest(rules: Rules, s: State, id: nat, pid: string, src: Source, walk: Answer, purged: int, at: int, c: Cache)
    requires id in s.warmers && s.warmers[id] in {Warmer(pid, src, Resolving, 1, 0), Warmer(pid, src, Releasing, 1, 0)}
    requires s.clock <= at && purged <= at
    requires s.cache == c.(warming := c.warming + {pid}) && c.warming + {pid} - {pid} == c.warming
    ensures
      var tail := if s.warmers[id].phase.Resolving? then WalkToRelease(id, walk, purged, at) else [WarmRelease(id)];
      var end := Run(rules, s, tail);
      && end.Some? && id in end.value.warmers && end.value.warmers[id].phase.WarmDone?
      && end.value.cache == if s.warmers[id].phase.Resolving? && walk.Answered? then Taught(rules, c, pid, src, walk, purged, at) else c
  {
    hide Run, LookupOf, Learned, RecordOf, WalkOf, Claimable, MadeRoom;
    if s.warmers[id].phase.Releasing? {
      Released(rules, s, id);
    } else {
      var t := Step(rules, s, WarmWalk(id, walk)).value;
      if walk.Failed? {
        Released(rules, t, id);
        RunsOn(rules, s, WarmWalk(id, walk), [WarmRelease(id)], Run(rules, t, [WarmRelease(id)]).value);
      } else {
        var u := Step(rules, t, Tick(at)).value;
        var v := Step(rules, u, WarmRemember(id, purged)).value;
        Released(rules, v, id);
        var end := Run(rules, v, [WarmRelease(id)]).value;
        RunsOn(rules, u, WarmRemember(id, purged), [WarmRelease(id)], end);
        RunsOn(rules, t, Tick(at), [WarmRemember(id, purged)] + [WarmRelease(id)], end);
        RunsOn(rules, s, WarmWalk(id, walk), [Tick(at)] + ([WarmRemember(id, purged)] + [WarmRelease(id)]), end);
      }
    }
  }

  lemma Released(rules: Rules, s: State, id: nat)
    requires id in s.warmers && s.warmers[id].phase.Releasing?
    ensures
      var end := Run(rules, s, [WarmRelease(id)]);
      && end.Some? && id in end.value.warmers && end.value.warmers[id].phase.WarmDone?
      && end.value.cache == s.cache.(warming := s.cache.warming - {s.warmers[id].pid})
  {
    hide Run;
    var t := Step(rules, s, WarmRelease(id)).value;
    RunNone(rules, t);
    RunsOn(rules, s, WarmRelease(id), [], t);
    assert [WarmRelease(id)] + [] == [WarmRelease(id)];
  }
}
