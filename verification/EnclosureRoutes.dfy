/** The bounded cache of where enclosure chains end, and of the chains being walked ahead of a listener. */
module EnclosureRoutes {
  import opened Common

  const ROUTE_TTL := 300_000_000_000
  const MAX_ROUTES := 1024
  const MAX_WARMS := 16

  /** Times are nanoseconds on one clock. */
  datatype Route = Route(from: string, url: string, expires: int)

  datatype Cache = Cache(entries: map<string, Route>, warming: set<string>)

  // ---------------------------------------------------------------- the cache's values

  function LookupOf(c: Cache, pid: string, from: string, now: int): Option<string> {
    if pid in c.entries && c.entries[pid].from == from && now <= c.entries[pid].expires then Some(c.entries[pid].url) else None
  }

  function Live(entries: map<string, Route>, now: int): map<string, Route> { map k | k in entries && now <= entries[k].expires :: entries[k] }

  /** A full table is cleared of what has expired, and of everything where nothing has. */
  function MadeRoom(entries: map<string, Route>, now: int): map<string, Route> {
    if |entries| < MAX_ROUTES then entries
    else
      var live := Live(entries, now);
      if |live| < MAX_ROUTES then live else map[]
  }

  function RememberedIn(c: Cache, pid: string, from: string, url: string, purged: int, at: int): Cache {
    if from == "" || url == "" then c
    else c.(entries := MadeRoom(c.entries, purged)[pid := Route(from, url, at + ROUTE_TTL)])
  }

  function ForgottenIn(c: Cache, pid: string): Cache { c.(entries := c.entries - {pid}) }

  /** A chain is worth walking ahead unless its end is known, it is being walked, or too many are. */
  predicate Claimable(c: Cache, pid: string, from: string, now: int) {
    && !(pid in c.entries && c.entries[pid].from == from && now < c.entries[pid].expires)
    && pid !in c.warming && |c.warming| < MAX_WARMS
  }

  function ClaimedIn(c: Cache, pid: string, from: string, now: int): Cache {
    if Claimable(c, pid, from, now) then c.(warming := c.warming + {pid}) else c
  }

  function ReleasedIn(c: Cache, pid: string): Cache { c.(warming := c.warming - {pid}) }

  // ------------------------------------------------------------------ the cache itself

  /** Every method runs under the one lock. */
  class Routes {
    var entries: map<string, Route>
    var warming: set<string>

    ghost function Model(): Cache
      reads this
    {
      Cache(entries, warming)
    }

    constructor ()
      ensures Model() == Cache(map[], {})
    {
      entries, warming := map[], {};
    }

    method Lookup(pid: string, from: string, now: int) returns (url: Option<string>)
      ensures url == LookupOf(Model(), pid, from, now)
    {
      if pid !in entries || entries[pid].from != from || now > entries[pid].expires {
        return None;
      }
      return Some(entries[pid].url);
    }

    method Purge(now: int)
      modifies this`entries
      ensures entries == Live(old(entries), now)
    {
      var rest := entries.Keys;
      ghost var live := Live(entries, now);
      while rest != {}
        invariant rest <= old(entries.Keys)
        invariant entries.Keys == live.Keys + rest
        invariant forall k :: k in entries ==> entries[k] == old(entries)[k]
      {
        var key :| key in rest;
        if now > entries[key].expires {
          entries := entries - {key};
        }
        rest := rest - {key};
      }
      assert entries == live;
    }

    /** The clock is read once to purge and once more for the new entry. */
    method Remember(pid: string, from: string, resolved: string, purged: int, at: int)
      modifies this`entries
      ensures Model() == RememberedIn(old(Model()), pid, from, resolved, purged, at)
    {
      if from == "" || resolved == "" {
        return;
      }
      if |entries| >= MAX_ROUTES {
        Purge(purged);
        if |entries| >= MAX_ROUTES {
          entries := map[];
        }
      }
      entries := entries[pid := Route(from, resolved, at + ROUTE_TTL)];
    }

    method Forget(pid: string)
      modifies this`entries
      ensures Model() == ForgottenIn(old(Model()), pid)
    {
      entries := entries - {pid};
    }

    method ClaimWarm(pid: string, from: string, now: int) returns (claimed: bool)
      modifies this`warming
      ensures claimed == old(Claimable(Model(), pid, from, now))
      ensures Model() == ClaimedIn(old(Model()), pid, from, now)
    {
      if pid in entries && entries[pid].from == from && now < entries[pid].expires {
        return false;
      }
      if pid in warming || |warming| >= MAX_WARMS {
        return false;
      }
      warming := warming + {pid};
      return true;
    }

    method ReleaseWarm(pid: string)
      modifies this`warming
      ensures Model() == ReleasedIn(old(Model()), pid)
    {
      warming := warming - {pid};
    }
  }

  // -------------------------------------------------------------------- what stays so

  ghost predicate Bounded(c: Cache) { |c.entries| <= MAX_ROUTES && |c.warming| <= MAX_WARMS }

  lemma GrowsByOne<K, V>(m: map<K, V>, k: K, v: V)
    ensures |m[k := v]| <= |m| + 1
  {
    assert m[k := v].Keys == m.Keys + {k};
    if k in m {
      assert m[k := v].Keys == m.Keys;
    }
  }

  /** No operation takes the cache past its ceilings. */
  lemma StaysBounded(c: Cache, pid: string, from: string, url: string, now: int, at: int)
    requires Bounded(c)
    ensures Bounded(RememberedIn(c, pid, from, url, now, at)) && Bounded(ForgottenIn(c, pid))
    ensures Bounded(ClaimedIn(c, pid, from, now)) && Bounded(ReleasedIn(c, pid))
  {
    GrowsByOne(MadeRoom(c.entries, now), pid, Route(from, url, at + ROUTE_TTL));
    assert (c.entries - {pid}).Keys <= c.entries.Keys;
    Smaller((c.entries - {pid}).Keys, c.entries.Keys);
    Smaller(c.warming - {pid}, c.warming);
  }

  lemma {:induction false} Smaller<T>(a: set<T>, b: set<T>)
    requires a <= b
    ensures |a| <= |b|
  {
    if a != {} {
      var x :| x in a;
      Smaller(a - {x}, b - {x});
    }
  }

  /** What is remembered is looked up until it expires, by the enclosure it was walked from and by no other. */
  lemma RememberedUntil(c: Cache, pid: string, from: string, url: string, purged: int, at: int, asked: string, now: int)
    requires from != "" && url != ""
    ensures LookupOf(RememberedIn(c, pid, from, url, purged, at), pid, asked, now)
      == if asked == from && now <= at + ROUTE_TTL then Some(url) else None
  {
  }

  /**
   Remembering one episode leaves every other lookup as it was, unless the
   table was full of live entries: then no other episode is remembered.
   */
  lemma OthersKept(c: Cache, pid: string, from: string, url: string, purged: int, at: int, other: string, asked: string, now: int)
    requires other != pid && from != "" && url != "" && purged <= now
    ensures LookupOf(RememberedIn(c, pid, from, url, purged, at), other, asked, now)
      == if |c.entries| < MAX_ROUTES || |Live(c.entries, purged)| < MAX_ROUTES then LookupOf(c, other, asked, now) else None
  {
  }

  /**
   A chain is walked ahead only where that is some use: not while its end is
   remembered, which is until the entry expires or is forgotten, not while it
   is being walked, and not past sixteen walks.
   */
  lemma KnownEndsAreNotWalked(c: Cache, pid: string, from: string, url: string, purged: int, at: int, asked: string, now: int)
    requires from != "" && url != ""
    ensures Claimable(RememberedIn(c, pid, from, url, purged, at), pid, asked, now) <==>
      (asked != from || at + 300_000_000_000 <= now) && pid !in c.warming && |c.warming| < 16
    ensures Claimable(ForgottenIn(c, pid), pid, asked, now) <==> pid !in c.warming && |c.warming| < 16
    ensures Claimable(c, pid, asked, now) ==>
      var claimed := ClaimedIn(c, pid, asked, now);
      && !Claimable(claimed, pid, asked, now) && claimed.entries == c.entries && claimed.warming == c.warming + {pid}
      && ReleasedIn(claimed, pid) == c
    ensures !Claimable(c, pid, asked, now) ==> ClaimedIn(c, pid, asked, now) == c
  {
    hide MadeRoom;
    assert pid !in c.warming ==> c.warming + {pid} - {pid} == c.warming;
  }
}
