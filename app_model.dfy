/**
 * The visit-counting engine behind the badges: the shared `Context` that
 * counts page views and referrals per member, suppresses repeat visits from
 * the same address for four hours, turns the counts into a level from 1 to
 * 10, and, every five minutes, writes the changed counts to the daily
 * statistics table and starts afresh when the day changes.
 *
 * Time is seconds since the epoch, passed in as `now`; a day is the
 * timestamp of its midnight, passed in as `day`.
 */
module AppModel {
  import opened Wrappers
  import opened Strings
  import opened MembershipModel
  import opened StatisticsModel
  import opened BoringFaceModel

  /** `VistorType`: what kind of request reached the member's counter. */
  datatype VisitorType = Referrer | Badge | Icon

  /** How long a visitor key suppresses counting: four hours, in seconds. */
  const VisitorTtl: int := 60 * 60 * 4

  // ---------------------------------------------------------------------------
  // Counters and the visitor cache
  // ---------------------------------------------------------------------------

  /** `map.get(id).unwrap_or(&0)`: a missing counter reads as 0. */
  function Get(m: map<int, int>, id: int): int {
    if id in m then m[id] else 0
  }

  /** `format!("{}_{}", ip, id)`: the key a visit is remembered under; no visit type in it. */
  function VisitorKey(ip: string, id: int): string {
    ip + "_" + IntToString(id)
  }

  /** In `a + "_" + s` with no `_` in `s`, every underscore lies at or before the joining one. */
  lemma UnderscoreBeforeJoin(a: string, s: string, i: nat)
    requires '_' !in s && i < |a + "_" + s| && (a + "_" + s)[i] == '_'
    ensures i <= |a|
  {
  }

  /** Two texts joined by `_` split back apart when the right part holds no `_`. */
  lemma SplitAtLastUnderscore(a: string, s: string, b: string, t: string)
    requires '_' !in s && '_' !in t && a + "_" + s == b + "_" + t
    ensures a == b && s == t
  {
    var x := a + "_" + s;
    assert x[|b|] == '_';
    UnderscoreBeforeJoin(a, s, |b|);
    assert x[|a|] == '_';
    UnderscoreBeforeJoin(b, t, |a|);
    assert a == x[..|a|] && b == x[..|b|];
    assert s == x[|a| + 1..] && t == x[|b| + 1..];
  }

  /** Visits from different addresses, or to different members, never share a key. */
  lemma VisitorKeyInjective(ip1: string, id1: int, ip2: string, id2: int)
    requires VisitorKey(ip1, id1) == VisitorKey(ip2, id2)
    ensures ip1 == ip2 && id1 == id2
  {
    SplitAtLastUnderscore(ip1, IntToString(id1), ip2, IntToString(id2));
    IntToStringInjective(id1, id2);
  }

  /**
   * The visitor cache maps a key to the second its entry expires; a lookup
   * finds the key while `now` is before that second.
   */
  predicate IsCached(cache: map<string, int>, key: string, now: int) {
    key in cache && now < cache[key]
  }

  // ---------------------------------------------------------------------------
  // The level
  // ---------------------------------------------------------------------------

  function Abs(x: int): nat {
    if x < 0 then -x else x
  }

  lemma DivBounds(n: nat, d: nat)
    requires d > 0
    ensures (n / d) * d <= n < (n / d + 1) * d
    ensures n == 0 ==> n / d == 0
  {
    var q := n / d;
    assert n == q * d + n % d;
    assert (q + 1) * d == q * d + d;
  }

  /** Rust's `/` on `i64`: the quotient rounded toward zero. */
  function TruncDiv(a: int, b: int): int
    requires b != 0
  {
    var m := Abs(a) / Abs(b);
    if (a < 0) == (b < 0) then m else -m
  }

  /** The quotient's magnitude is the largest multiple of the divisor within the dividend's, and its sign is the product of signs. */
  lemma TruncDivBounds(a: int, b: int)
    requires b != 0
    ensures var q := TruncDiv(a, b);
      && Abs(q) * Abs(b) <= Abs(a) < (Abs(q) + 1) * Abs(b)
      && (q != 0 ==> ((q < 0) <==> ((a < 0) != (b < 0))))
  {
    var n, d := Abs(a), Abs(b);
    var m: int := n / d;
    DivBounds(n, d);
    var q := TruncDiv(a, b);
    assert q == (if (a < 0) == (b < 0) then m else -m);
    assert Abs(q) == m;
  }

  /**
   * The level shown on a badge: `(r + pv / 5) / rank_svg`, both divisions
   * truncating, clamped to 1..10.
   */
  function Level(pv: int, r: int, rankSvg: int): (lv: int)
    requires rankSvg != 0
    ensures 1 <= lv <= 10
    ensures var t := TruncDiv(r + TruncDiv(pv, 5), rankSvg);
      && (1 <= t <= 10 ==> lv == t)
      && (t > 10 <==> lv == 10 && t != 10)
      && (t < 1 <==> lv == 1 && t != 1)
  {
    var t := TruncDiv(r + TruncDiv(pv, 5), rankSvg);
    if t > 10 then 10 else if t < 1 then 1 else t
  }

  lemma MulLessCancel(x: int, y: int, k: int)
    requires k > 0 && x * k < y * k
    ensures x < y
  {
    assert y * k - x * k == (y - x) * k;
  }

  /** For a positive divisor and non-negative operands, truncating division is monotone. */
  lemma TruncDivMonotone(a: int, b: int, k: int)
    requires 0 <= a <= b && k > 0
    ensures TruncDiv(a, k) <= TruncDiv(b, k)
  {
    var qa, qb := TruncDiv(a, k), TruncDiv(b, k);
    TruncDivBounds(a, k);
    TruncDivBounds(b, k);
    assert qa >= 0 && qb >= 0;
    assert qa * k <= a <= b < (qb + 1) * k;
    MulLessCancel(qa, qb + 1, k);
  }

  /** More visits never lower the level. */
  lemma LevelMonotone(pv: int, r: int, pv2: int, r2: int, rankSvg: int)
    requires 0 <= pv <= pv2 && 0 <= r <= r2 && rankSvg > 0
    ensures Level(pv, r, rankSvg) <= Level(pv2, r2, rankSvg)
  {
    TruncDivMonotone(pv, pv2, 5);
    var a, b := r + TruncDiv(pv, 5), r2 + TruncDiv(pv2, 5);
    TruncDivMonotone(a, b, rankSvg);
  }

  // ---------------------------------------------------------------------------
  // Recording a visit
  // ---------------------------------------------------------------------------

  /** What a recorded visit reports: the member's name, the counts after the visit and the level. */
  datatype Visit = Visit(name: string, pageView: int, referrer: int, level: int, notify: bool)

  /** The part of `Context` a visit changes. */
  datatype Counters = Counters(pageView: map<int, int>, referrer: map<int, int>, cache: map<string, int>)

  /** Whether the visit is counted: its key is not cached, and it is of the counted type. */
  predicate Counted(s: Counters, ip: string, id: int, now: int, vt: VisitorType, counter: VisitorType) {
    vt == counter && !IsCached(s.cache, VisitorKey(ip, id), now)
  }

  /**
   * `Context::boring_vistor` as a function of the state before the call:
   * the new counters and cache, and the call's result.
   */
  function RecordVisit(s: Counters, domain2id: map<string, int>, id2member: map<int, Membership>,
                       rankSvg: int, vt: VisitorType, domain: string, ip: string, now: int)
    : (res: (Counters, Result<Visit, string>))
    requires domain in domain2id ==> domain2id[domain] in id2member && rankSvg != 0
    // an unknown domain is refused and changes nothing
    ensures domain !in domain2id ==> res == (s, Err("not a member"))
    // a member's visit is described by `RecordVisitEffect`
  {
    if domain !in domain2id then (s, Err("not a member"))
    else
      var id := domain2id[domain];
      var key := VisitorKey(ip, id);
      var cached := IsCached(s.cache, key, now);
      var r := Get(s.referrer, id) + (if vt == Referrer && !cached then 1 else 0);
      var referrer := if vt == Referrer && !cached then s.referrer[id := r] else s.referrer;
      var pv := Get(s.pageView, id) + (if vt == Badge && !cached then 1 else 0);
      var pageView := if vt == Badge && !cached then s.pageView[id := pv] else s.pageView;
      (Counters(pageView, referrer, s.cache[key := now + VisitorTtl]),
       Ok(Visit(id2member[id].name, pv, r, Level(pv, r, rankSvg), vt == Badge)))
  }

  /** What a visit to a member's domain does to the counters, the cache and the reply. */
  lemma RecordVisitEffect(s: Counters, domain2id: map<string, int>, id2member: map<int, Membership>,
                          rankSvg: int, vt: VisitorType, domain: string, ip: string, now: int)
    requires domain in domain2id && domain2id[domain] in id2member && rankSvg != 0
    ensures var res := RecordVisit(s, domain2id, id2member, rankSvg, vt, domain, ip, now);
      var id, s' := domain2id[domain], res.0;
      var key := VisitorKey(ip, id);
      // the key is (re)written with a fresh four-hour expiry, and no other key changes
      && s'.cache == s.cache[key := now + VisitorTtl]
      // each counter rises by one exactly when the visit is counted for it ...
      && Get(s'.referrer, id) == Get(s.referrer, id) + (if Counted(s, ip, id, now, vt, Referrer) then 1 else 0)
      && Get(s'.pageView, id) == Get(s.pageView, id) + (if Counted(s, ip, id, now, vt, Badge) then 1 else 0)
      // ... and is otherwise left exactly as it was, other members included
      && (!Counted(s, ip, id, now, vt, Referrer) ==> s'.referrer == s.referrer)
      && (!Counted(s, ip, id, now, vt, Badge) ==> s'.pageView == s.pageView)
      && (forall j :: j != id ==> (j in s'.referrer <==> j in s.referrer) && (j in s'.pageView <==> j in s.pageView))
      && (forall j :: j != id && j in s.referrer ==> s'.referrer[j] == s.referrer[j])
      && (forall j :: j != id && j in s.pageView ==> s'.pageView[j] == s.pageView[j])
      // the reply carries the counts after the visit, the level, and a notification for badges
      && res.1 == Ok(Visit(id2member[id].name, Get(s'.pageView, id), Get(s'.referrer, id),
                         Level(Get(s'.pageView, id), Get(s'.referrer, id), rankSvg), vt == Badge))
  {
  }

  /** An icon request is never counted, whatever the cache holds. */
  lemma IconNeverCounts(s: Counters, domain2id: map<string, int>, id2member: map<int, Membership>,
                        rankSvg: int, domain: string, ip: string, now: int)
    requires domain in domain2id ==> domain2id[domain] in id2member && rankSvg != 0
    ensures var s' := RecordVisit(s, domain2id, id2member, rankSvg, Icon, domain, ip, now).0;
      s'.pageView == s.pageView && s'.referrer == s.referrer
  {
  }

  /**
   * A visit of any type starts a four-hour window in which no later visit
   * from the same address to the same member is counted, of any type.
   */
  lemma RepeatWithinTtlNotCounted(s: Counters, domain2id: map<string, int>, id2member: map<int, Membership>,
                                  rankSvg: int, vt1: VisitorType, vt2: VisitorType,
                                  domain: string, ip: string, now1: int, now2: int)
    requires domain in domain2id && domain2id[domain] in id2member && rankSvg != 0
    requires now1 <= now2 < now1 + VisitorTtl
    ensures var s1 := RecordVisit(s, domain2id, id2member, rankSvg, vt1, domain, ip, now1).0;
      var s2 := RecordVisit(s1, domain2id, id2member, rankSvg, vt2, domain, ip, now2).0;
      s2.pageView == s1.pageView && s2.referrer == s1.referrer
  {
    var id := domain2id[domain];
    var s1 := RecordVisit(s, domain2id, id2member, rankSvg, vt1, domain, ip, now1).0;
    assert IsCached(s1.cache, VisitorKey(ip, id), now2);
  }

  /**
   * Visits to other members, or from other addresses, leave the suppression
   * state of an (address, member) pair as it was.
   */
  lemma OtherVisitsKeepSuppression(s: Counters, domain2id: map<string, int>, id2member: map<int, Membership>,
                                   rankSvg: int, vt: VisitorType, domain: string, ip: string, now: int,
                                   otherIp: string, otherId: int, later: int)
    requires domain in domain2id && domain2id[domain] in id2member && rankSvg != 0
    requires otherIp != ip || otherId != domain2id[domain]
    ensures var s' := RecordVisit(s, domain2id, id2member, rankSvg, vt, domain, ip, now).0;
      IsCached(s'.cache, VisitorKey(otherIp, otherId), later) == IsCached(s.cache, VisitorKey(otherIp, otherId), later)
  {
    var id := domain2id[domain];
    if VisitorKey(otherIp, otherId) == VisitorKey(ip, id) {
      VisitorKeyInjective(otherIp, otherId, ip, id);
    }
  }

  // ---------------------------------------------------------------------------
  // Startup: counters from today's rows, and the domain index
  // ---------------------------------------------------------------------------

  /** Which count of a row seeds which counter map. */
  datatype Column = PageViewColumn | ReferrerColumn

  function ColumnOf(s: Statistics, c: Column): int {
    match c
    case PageViewColumn => s.pageView
    case ReferrerColumn => s.referrer
  }

  /** The counter map after inserting each row's count in order: a later row for a member wins. */
  function CountsOf(rows: seq<Statistics>, c: Column): (m: map<int, int>)
    ensures m.Keys == set s | s in rows :: s.membershipId
    decreases |rows|
  {
    if |rows| == 0 then map[]
    else
      var last := rows[|rows| - 1];
      var rest := rows[..|rows| - 1];
      assert rows == rest + [last];
      CountsOf(rest, c)[last.membershipId := ColumnOf(last, c)]
  }

  /** With at most one row per member, each member's counter holds that row's count. */
  lemma {:induction false} CountsOfUniqueRows(rows: seq<Statistics>, c: Column, i: nat)
    requires i < |rows|
    requires forall j, k :: 0 <= j < k < |rows| ==> rows[j].membershipId != rows[k].membershipId
    ensures CountsOf(rows, c)[rows[i].membershipId] == ColumnOf(rows[i], c)
    decreases |rows|
  {
    if i < |rows| - 1 {
      CountsOfUniqueRows(rows[..|rows| - 1], c, i);
    }
  }

  /** Today's rows hold one row per member, so the seeded counters are exactly their counts. */
  lemma SeededFromToday(rows: seq<Statistics>, day: int, c: Column, i: nat)
    requires KeysUnique(rows) && i < |RowsCreatedAt(rows, day)|
    ensures var today := RowsCreatedAt(rows, day);
      CountsOf(today, c)[today[i].membershipId] == ColumnOf(today[i], c)
  {
    var today := RowsCreatedAt(rows, day);
    forall j, k | 0 <= j < k < |today|
      ensures today[j].membershipId != today[k].membershipId
    {
      OneRowPerMemberADay(rows, day, j, k);
    }
    CountsOfUniqueRows(today, c, i);
  }

  /** The `for_each` over today's rows in `Context::default`. */
  method SeedCounters(rows: seq<Statistics>) returns (pageView: map<int, int>, referrer: map<int, int>)
    ensures pageView == CountsOf(rows, PageViewColumn)
    ensures referrer == CountsOf(rows, ReferrerColumn)
  {
    pageView, referrer := map[], map[];
    for i := 0 to |rows|
      invariant pageView == CountsOf(rows[..i], PageViewColumn)
      invariant referrer == CountsOf(rows[..i], ReferrerColumn)
    {
      assert rows[..i + 1][..i] == rows[..i];
      pageView := pageView[rows[i].membershipId := rows[i].pageView];
      referrer := referrer[rows[i].membershipId := rows[i].referrer];
    }
    assert rows[..|rows|] == rows;
  }

  /** `domain2id` points each indexed domain at a member that has that domain. */
  predicate IndexesDomains(domain2id: map<string, int>, id2member: map<int, Membership>) {
    && (forall d :: d in domain2id ==> domain2id[d] in id2member && id2member[domain2id[d]].domain == d)
    && (forall k :: k in id2member ==> id2member[k].domain in domain2id)
  }

  /**
   * The inversion of the member map in `Context::default`. The map is walked
   * in no fixed order, so when two members share a domain either may win.
   */
  method IndexDomains(id2member: map<int, Membership>) returns (domain2id: map<string, int>)
    ensures IndexesDomains(domain2id, id2member)
  {
    domain2id := map[];
    var rest := id2member.Keys;
    while rest != {}
      invariant rest <= id2member.Keys
      invariant forall d :: d in domain2id ==> domain2id[d] in id2member && id2member[domain2id[d]].domain == d
      invariant forall k :: k in id2member && k !in rest ==> id2member[k].domain in domain2id
      decreases rest
    {
      NonEmptyHasMember(rest);
      var k :| k in rest;
      domain2id := domain2id[id2member[k].domain := k];
      rest := rest - {k};
    }
  }

  /** `Vec::from_iter(map.keys())`: every key once, in no fixed order. */
  method KeysInSomeOrder(id2member: map<int, Membership>) returns (ids: seq<int>)
    ensures Distinct(ids)
    ensures forall id :: id in ids <==> id in id2member
  {
    ids := [];
    var rest := id2member.Keys;
    while rest != {}
      invariant rest <= id2member.Keys
      invariant Distinct(ids)
      invariant forall id :: id in ids <==> id in id2member && id !in rest
      decreases rest
    {
      NonEmptyHasMember(rest);
      var k :| k in rest;
      ids := ids + [k];
      rest := rest - {k};
    }
  }

  /** A non-empty set has an element to pick. */
  lemma NonEmptyHasMember(rest: set<int>)
    requires rest != {}
    ensures exists k :: k in rest
  {
    var empty: set<int> := {};
    assert (forall k :: k !in rest) ==> rest == empty;
  }

  predicate Distinct(ids: seq<int>) {
    forall i, j :: 0 <= i < j < |ids| ==> ids[i] != ids[j]
  }

  // ---------------------------------------------------------------------------
  // The five-minute tick: diff, flush, rollover
  // ---------------------------------------------------------------------------

  /** Whether a member's live counts differ from the last flushed ones (missing reads as 0). */
  predicate Changed(pv: map<int, int>, r: map<int, int>, pvSnap: map<int, int>, rSnap: map<int, int>, id: int) {
    Get(pv, id) != Get(pvSnap, id) || Get(r, id) != Get(rSnap, id)
  }

  /** `changed_list` after the diff: the ids whose counts moved, in the order of `ids`. */
  function ChangedIds(ids: seq<int>, pv: map<int, int>, r: map<int, int>,
                      pvSnap: map<int, int>, rSnap: map<int, int>): (c: seq<int>)
    ensures |c| <= |ids|
    decreases |ids|
  {
    if |ids| == 0 then []
    else
      var rest := ChangedIds(ids[..|ids| - 1], pv, r, pvSnap, rSnap);
      var id := ids[|ids| - 1];
      if Changed(pv, r, pvSnap, rSnap, id) then rest + [id] else rest
  }

  /** `changed_list` holds exactly the listed ids whose counts moved. */
  lemma {:induction false} ChangedIdsExactly(ids: seq<int>, pv: map<int, int>, r: map<int, int>,
                                             pvSnap: map<int, int>, rSnap: map<int, int>)
    ensures forall id :: id in ChangedIds(ids, pv, r, pvSnap, rSnap) <==> id in ids && Changed(pv, r, pvSnap, rSnap, id)
    decreases |ids|
  {
    if |ids| > 0 {
      var prefix := ids[..|ids| - 1];
      ChangedIdsExactly(prefix, pv, r, pvSnap, rSnap);
      assert ids == prefix + [ids[|ids| - 1]];
    }
  }

  /** `changed_list` never holds an id twice when `id_list` does not. */
  lemma {:induction false} ChangedIdsDistinct(ids: seq<int>, pv: map<int, int>, r: map<int, int>,
                                              pvSnap: map<int, int>, rSnap: map<int, int>)
    requires Distinct(ids)
    ensures Distinct(ChangedIds(ids, pv, r, pvSnap, rSnap))
    decreases |ids|
  {
    if |ids| > 0 {
      var prefix, id := ids[..|ids| - 1], ids[|ids| - 1];
      NextInList(ids, |ids| - 1);
      ChangedIdsDistinct(prefix, pv, r, pvSnap, rSnap);
      ChangedIdsExactly(prefix, pv, r, pvSnap, rSnap);
      var rest := ChangedIds(prefix, pv, r, pvSnap, rSnap);
      if Changed(pv, r, pvSnap, rSnap, id) {
        var c := rest + [id];
        forall i, j | 0 <= i < j < |c| ensures c[i] != c[j] {
          if j == |rest| {
            assert c[i] in rest;
          } else {
            assert c[i] == rest[i] && c[j] == rest[j];
          }
        }
      }
    }
  }

  /** A snapshot after the diff has copied the live value of every id that differed. */
  function Synced(snap: map<int, int>, live: map<int, int>, ids: seq<int>): (m: map<int, int>)
    decreases |ids|
  {
    if |ids| == 0 then snap
    else
      var m := Synced(snap, live, ids[..|ids| - 1]);
      var id := ids[|ids| - 1];
      if Get(m, id) != Get(live, id) then m[id := Get(live, id)] else m
  }

  /** After the diff every listed id's snapshot equals its live count; other ids keep theirs. */
  lemma {:induction false} SyncedCopiesLive(snap: map<int, int>, live: map<int, int>, ids: seq<int>)
    ensures var m := Synced(snap, live, ids);
      && (forall id :: id in ids ==> Get(m, id) == Get(live, id))
      && (forall id :: id !in ids ==> (id in m <==> id in snap))
      && (forall id :: id !in ids && id in snap ==> m[id] == snap[id])
    decreases |ids|
  {
    if |ids| > 0 {
      var prefix := ids[..|ids| - 1];
      SyncedCopiesLive(snap, live, prefix);
      assert ids == prefix + [ids[|ids| - 1]];
    }
  }

  /** Once the snapshots are synced, a diff against unchanged live counts finds nothing. */
  lemma NothingChangedAfterSync(ids: seq<int>, pv: map<int, int>, r: map<int, int>,
                                pvSnap: map<int, int>, rSnap: map<int, int>)
    ensures ChangedIds(ids, pv, r, Synced(pvSnap, pv, ids), Synced(rSnap, r, ids)) == []
  {
    SyncedCopiesLive(pvSnap, pv, ids);
    SyncedCopiesLive(rSnap, r, ids);
    NoChangeWhenAgreeing(ids, pv, r, Synced(pvSnap, pv, ids), Synced(rSnap, r, ids));
  }

  lemma {:induction false} NoChangeWhenAgreeing(ids: seq<int>, pv: map<int, int>, r: map<int, int>,
                                                 pvSnap: map<int, int>, rSnap: map<int, int>)
    requires forall id :: id in ids ==> Get(pvSnap, id) == Get(pv, id) && Get(rSnap, id) == Get(r, id)
    ensures ChangedIds(ids, pv, r, pvSnap, rSnap) == []
    decreases |ids|
  {
    if |ids| > 0 {
      var prefix := ids[..|ids| - 1];
      assert forall id :: id in prefix ==> id in ids;
      NoChangeWhenAgreeing(prefix, pv, r, pvSnap, rSnap);
      assert ids[|ids| - 1] in ids;
    }
  }

  /** The row the flush upserts for a member: the day's midnight and the snapshot counts. */
  function SnapshotRow(id: int, day: int, now: int, pvSnap: map<int, int>, rSnap: map<int, int>): Statistics {
    Statistics(0, day, now, id, Get(pvSnap, id), Get(rSnap, id))
  }

  /** The table after one upsert per id, in order. */
  function FlushRows(rows: seq<Statistics>, ids: seq<int>, day: int, now: int,
                     pvSnap: map<int, int>, rSnap: map<int, int>): seq<Statistics>
    decreases |ids|
  {
    if |ids| == 0 then rows
    else Upserted(FlushRows(rows, ids[..|ids| - 1], day, now, pvSnap, rSnap),
                  SnapshotRow(ids[|ids| - 1], day, now, pvSnap, rSnap))
  }

  lemma InPrefix(ids: seq<int>, x: int)
    requires |ids| > 0 && x in ids && x != ids[|ids| - 1]
    ensures x in ids[..|ids| - 1]
  {
    assert ids == ids[..|ids| - 1] + [ids[|ids| - 1]];
  }

  lemma NotInPrefix(ids: seq<int>, x: int)
    requires |ids| > 0 && x !in ids
    ensures x !in ids[..|ids| - 1] && x != ids[|ids| - 1]
  {
  }

  /** After the flush each flushed member has a row for the day holding its snapshot counts. */
  lemma {:induction false} FlushStoresSnapshots(rows: seq<Statistics>, ids: seq<int>, day: int, now: int,
                                                 pvSnap: map<int, int>, rSnap: map<int, int>)
    ensures var t := FlushRows(rows, ids, day, now, pvSnap, rSnap);
      forall id :: id in ids ==>
        && Find(t, (id, day)).Some?
        && Find(t, (id, day)).value.pageView == Get(pvSnap, id)
        && Find(t, (id, day)).value.referrer == Get(rSnap, id)
    decreases |ids|
  {
    if |ids| > 0 {
      var prefix, id := ids[..|ids| - 1], ids[|ids| - 1];
      var row := SnapshotRow(id, day, now, pvSnap, rSnap);
      var t0 := FlushRows(rows, prefix, day, now, pvSnap, rSnap);
      var t := FlushRows(rows, ids, day, now, pvSnap, rSnap);
      assert t == Upserted(t0, row);
      FlushStoresSnapshots(rows, prefix, day, now, pvSnap, rSnap);
      forall j | j in ids
        ensures Find(t, (j, day)).Some?
        ensures Find(t, (j, day)).value.pageView == Get(pvSnap, j)
        ensures Find(t, (j, day)).value.referrer == Get(rSnap, j)
      {
        if j != id {
          InPrefix(ids, j);
          assert Find(t, (j, day)) == Find(t0, (j, day));
        }
      }
    }
  }

  /** The flush leaves the rows of other members and other days as they were, and keeps keys and ids unique. */
  lemma {:induction false} FlushKeepsOtherRows(rows: seq<Statistics>, ids: seq<int>, day: int, now: int,
                                                pvSnap: map<int, int>, rSnap: map<int, int>)
    ensures var t := FlushRows(rows, ids, day, now, pvSnap, rSnap);
      && (forall k: (int, int) :: k.1 != day || k.0 !in ids ==> Find(t, k) == Find(rows, k))
      && (KeysUnique(rows) ==> KeysUnique(t))
      && (IdsUnique(rows) ==> IdsUnique(t))
    decreases |ids|
  {
    if |ids| > 0 {
      var prefix, id := ids[..|ids| - 1], ids[|ids| - 1];
      var row := SnapshotRow(id, day, now, pvSnap, rSnap);
      var t0 := FlushRows(rows, prefix, day, now, pvSnap, rSnap);
      var t := FlushRows(rows, ids, day, now, pvSnap, rSnap);
      assert t == Upserted(t0, row);
      FlushKeepsOtherRows(rows, prefix, day, now, pvSnap, rSnap);
      forall k: (int, int) | k.1 != day || k.0 !in ids ensures Find(t, k) == Find(rows, k) {
        if k.0 !in ids {
          NotInPrefix(ids, k.0);
        }
        assert k != KeyOf(row);
      }
    }
  }

  /**
   * The tick after a rollover, on a later day. The rollover emptied the
   * counters and the snapshots, so the live counts are what arrived since, and
   * every member with any of them is flushed under the stale start day: its
   * row for that day is overwritten with those counts. No row is ever written
   * for the later day.
   */
  lemma StaleDayTickOverwrites(rows: seq<Statistics>, ids: seq<int>, pv: map<int, int>, r: map<int, int>,
                               startDay: int, laterDay: int, now: int)
    requires laterDay != startDay
    ensures var t := FlushRows(rows, ChangedIds(ids, pv, r, map[], map[]), startDay, now,
                               Synced(map[], pv, ids), Synced(map[], r, ids));
      && (forall id :: id in ids && (Get(pv, id) != 0 || Get(r, id) != 0) ==>
            && Find(t, (id, startDay)).Some?
            && Find(t, (id, startDay)).value.pageView == Get(pv, id)
            && Find(t, (id, startDay)).value.referrer == Get(r, id))
      && (forall m :: Find(t, (m, laterDay)) == Find(rows, (m, laterDay)))
  {
    var changed := ChangedIds(ids, pv, r, map[], map[]);
    var pvSnap, rSnap := Synced(map[], pv, ids), Synced(map[], r, ids);
    ChangedIdsExactly(ids, pv, r, map[], map[]);
    SyncedCopiesLive(map[], pv, ids);
    SyncedCopiesLive(map[], r, ids);
    FlushStoresSnapshots(rows, changed, startDay, now, pvSnap, rSnap);
    FlushKeepsOtherRows(rows, changed, startDay, now, pvSnap, rSnap);
  }

  // ---------------------------------------------------------------------------
  // The shared context
  // ---------------------------------------------------------------------------

  /** The badge, favicon and icon faces. */
  const BadgeFace := BoringFace("#d0273e", "#f5acb9", true)
  const FaviconFace := BoringFace("#f5acb9", "#d0273e", false)
  const IconFace := BoringFace("#d0273e", "#f5acb9", false)

  /** The three SVG endpoints, each with its own face and its own render cache. */
  datatype SvgKind = BadgeSvg | FaviconSvg | IconSvg

  /** `Context`: the counters, the member indexes, the visitor cache and the rendered SVGs. */
  class Context {
    const badge: BoringFace
    const favicon: BoringFace
    const icon: BoringFace
    const db: StatisticsTable
    var pageView: map<int, int>
    var referrer: map<int, int>
    var rankSvg: int
    const domain2id: map<string, int>
    const id2member: map<int, Membership>
    var cache: map<string, int>
    var badgeRenderCache: map<int, string>
    var faviconRenderCache: map<int, string>
    var iconRenderCache: map<int, string>

    ghost predicate Valid()
      reads this, db
    {
      IndexesDomains(domain2id, id2member) && db.Valid()
    }

    function State(): Counters
      reads this
    {
      Counters(pageView, referrer, cache)
    }

    function Face(kind: SvgKind): BoringFace {
      match kind
      case BadgeSvg => badge
      case FaviconSvg => favicon
      case IconSvg => icon
    }

    function RenderCache(kind: SvgKind): map<int, string>
      reads this
    {
      match kind
      case BadgeSvg => badgeRenderCache
      case FaviconSvg => faviconRenderCache
      case IconSvg => iconRenderCache
    }

    /** `*_render_cache.write().insert(key, svg)` on the cache of one endpoint. */
    method StoreRender(kind: SvgKind, key: int, svg: string)
      requires Valid()
      modifies this
      ensures Valid()
      ensures RenderCache(kind) == old(RenderCache(kind))[key := svg]
      ensures forall k :: k != kind ==> RenderCache(k) == old(RenderCache(k))
      ensures State() == old(State()) && rankSvg == old(rankSvg)
    {
      match kind
      case BadgeSvg => badgeRenderCache := badgeRenderCache[key := svg];
      case FaviconSvg => faviconRenderCache := faviconRenderCache[key := svg];
      case IconSvg => iconRenderCache := iconRenderCache[key := svg];
    }

    /**
     * `Context::default`: counters seeded from the rows the table holds for
     * `day`, the domain index built from the member list, an empty visitor
     * cache and `rank_svg` set to the previous day's average.
     */
    constructor(table: StatisticsTable, day: int, members: map<int, Membership>, prevDayRankAvg: int)
      requires table.Valid()
      ensures Valid() && db == table && id2member == members
      ensures pageView == CountsOf(table.Today(day), PageViewColumn)
      ensures referrer == CountsOf(table.Today(day), ReferrerColumn)
      ensures rankSvg == prevDayRankAvg && cache == map[]
      ensures badge == BadgeFace && favicon == FaviconFace && icon == IconFace
      ensures badgeRenderCache == map[] && faviconRenderCache == map[] && iconRenderCache == map[]
    {
      var rows := table.Today(day);
      var pv, r := SeedCounters(rows);
      var index := IndexDomains(members);
      badge, favicon, icon := BadgeFace, FaviconFace, IconFace;
      db := table;
      pageView, referrer, rankSvg := pv, r, prevDayRankAvg;
      domain2id, id2member := index, members;
      cache := map[];
      badgeRenderCache, faviconRenderCache, iconRenderCache := map[], map[], map[];
    }

    /** `Context::boring_vistor`, with the client address passed in. */
    method BoringVisitor(vt: VisitorType, domain: string, ip: string, now: int) returns (res: Result<Visit, string>)
      requires Valid()
      requires domain in domain2id ==> rankSvg != 0
      modifies this
      ensures Valid() && rankSvg == old(rankSvg)
      ensures State() == RecordVisit(old(State()), domain2id, id2member, rankSvg, vt, domain, ip, now).0
      ensures res == RecordVisit(old(State()), domain2id, id2member, rankSvg, vt, domain, ip, now).1
      ensures badgeRenderCache == old(badgeRenderCache) && faviconRenderCache == old(faviconRenderCache)
      ensures iconRenderCache == old(iconRenderCache)
    {
      if domain in domain2id {
        var id := domain2id[domain];
        var key := VisitorKey(ip, id);
        var cached := IsCached(cache, key, now);
        cache := cache[key := now + VisitorTtl];

        var distR := Get(referrer, id);
        var notification := false;
        if vt == Referrer && !cached {
          distR := distR + 1;
          referrer := referrer[id := distR];
        }

        var distPv := Get(pageView, id);
        if vt == Badge {
          if !cached {
            distPv := distPv + 1;
            pageView := pageView[id := distPv];
          }
          notification := true;
        }

        var tend := TruncDiv(distR + TruncDiv(distPv, 5), rankSvg);
        if tend > 10 {
          tend := 10;
        } else if tend < 1 {
          tend := 1;
        }
        res := Ok(Visit(id2member[id].name, distPv, distR, tend, notification));
      } else {
        res := Err("not a member");
      }
    }
  }

  /**
   * The state `save_per_5_minutes` keeps between ticks: the day fixed when
   * the loop started, the member ids, and the counts last flushed.
   */
  class Scheduler {
    const ctx: Context
    const today: int
    const idList: seq<int>
    var pageViewCache: map<int, int>
    var referrerCache: map<int, int>
    var changedList: seq<int>

    ghost predicate Valid()
      reads this, ctx, ctx.db
    {
      ctx.Valid() && Distinct(idList) && (forall id :: id in idList <==> id in ctx.id2member)
    }

    /** The locals set up before the loop; `day` is the midnight when it starts. */
    constructor(context: Context, day: int)
      requires context.Valid()
      ensures Valid() && ctx == context && today == day
      ensures pageViewCache == map[] && referrerCache == map[] && changedList == []
    {
      var ids := KeysInSomeOrder(context.id2member);
      ctx, today, idList := context, day, ids;
      pageViewCache, referrerCache, changedList := map[], map[], [];
    }

    /**
     * One pass of the loop body: diff the live counters against the
     * snapshots, upsert one row per changed member, and, if `currentDay` is
     * not the day the loop started, clear counters and snapshots and reload
     * `rank_svg`. `today` never moves, so once the day has changed every
     * later tick clears again.
     */
    method Tick(currentDay: int, now: int, prevDayRankAvg: int)
      requires Valid()
      modifies this, ctx, ctx.db
      ensures Valid()
      ensures changedList == ChangedIds(idList, old(ctx.pageView), old(ctx.referrer),
                                        old(pageViewCache), old(referrerCache))
      ensures ctx.db.rows == FlushRows(old(ctx.db.rows), changedList, today, now,
                                       Synced(old(pageViewCache), old(ctx.pageView), idList),
                                       Synced(old(referrerCache), old(ctx.referrer), idList))
      ensures currentDay == today ==>
        && pageViewCache == Synced(old(pageViewCache), old(ctx.pageView), idList)
        && referrerCache == Synced(old(referrerCache), old(ctx.referrer), idList)
        && ctx.pageView == old(ctx.pageView) && ctx.referrer == old(ctx.referrer)
        && ctx.rankSvg == old(ctx.rankSvg)
      ensures currentDay != today ==>
        && pageViewCache == map[] && referrerCache == map[]
        && ctx.pageView == map[] && ctx.referrer == map[]
        && ctx.rankSvg == prevDayRankAvg
      ensures ctx.cache == old(ctx.cache)
      ensures ctx.badgeRenderCache == old(ctx.badgeRenderCache)
      ensures ctx.faviconRenderCache == old(ctx.faviconRenderCache)
      ensures ctx.iconRenderCache == old(ctx.iconRenderCache)
    {
      Diff();
      Flush(now);
      if currentDay != today {
        ctx.pageView := map[];
        ctx.referrer := map[];
        pageViewCache := map[];
        referrerCache := map[];
        ctx.rankSvg := prevDayRankAvg;
      }
    }

    /** The `for_each` over `id_list` that fills `changed_list` and brings the snapshots up to date. */
    method Diff()
      requires Valid()
      modifies this
      ensures Valid()
      ensures changedList == ChangedIds(idList, ctx.pageView, ctx.referrer, old(pageViewCache), old(referrerCache))
      ensures pageViewCache == Synced(old(pageViewCache), ctx.pageView, idList)
      ensures referrerCache == Synced(old(referrerCache), ctx.referrer, idList)
    {
      changedList, pageViewCache, referrerCache :=
        DiffCounts(idList, ctx.pageView, ctx.referrer, pageViewCache, referrerCache);
    }

    /** The `for_each` over `changed_list` that upserts each changed member's row for `today`. */
    method Flush(now: int)
      requires Valid()
      modifies ctx.db
      ensures Valid()
      ensures ctx.db.rows == FlushRows(old(ctx.db.rows), changedList, today, now, pageViewCache, referrerCache)
    {
      ghost var rows0 := ctx.db.rows;
      for j := 0 to |changedList|
        invariant ctx.db.Valid()
        invariant ctx.db.rows == FlushRows(rows0, changedList[..j], today, now, pageViewCache, referrerCache)
      {
        assert changedList[..j + 1][..j] == changedList[..j];
        var id := changedList[j];
        var _ := ctx.db.InsertOrUpdate(SnapshotRow(id, today, now, pageViewCache, referrerCache));
      }
      assert changedList[..|changedList|] == changedList;
    }
  }

  /**
   * The `for_each` over `id_list` of one tick: an id whose page views differ
   * from the snapshot is recorded in both, one whose referrals differ is too,
   * and `changed_list` gets each such id once.
   */
  method DiffCounts(ids: seq<int>, pvLive: map<int, int>, rLive: map<int, int>,
                    pvSnap0: map<int, int>, rSnap0: map<int, int>)
    returns (changed: seq<int>, pvSnap: map<int, int>, rSnap: map<int, int>)
    requires Distinct(ids)
    ensures changed == ChangedIds(ids, pvLive, rLive, pvSnap0, rSnap0)
    ensures pvSnap == Synced(pvSnap0, pvLive, ids)
    ensures rSnap == Synced(rSnap0, rLive, ids)
  {
    changed, pvSnap, rSnap := [], pvSnap0, rSnap0;
    for i := 0 to |ids|
      invariant changed == ChangedIds(ids[..i], pvLive, rLive, pvSnap0, rSnap0)
      invariant pvSnap == Synced(pvSnap0, pvLive, ids[..i])
      invariant rSnap == Synced(rSnap0, rLive, ids[..i])
    {
      var id := ids[i];
      DiffStepAt(pvSnap0, rSnap0, pvLive, rLive, ids, i);
      changed, pvSnap, rSnap := DiffOne(id, pvLive, rLive, changed, pvSnap, rSnap);
    }
    assert ids[..|ids|] == ids;
  }

  /** The body of the diff loop for one id not yet in `changed`. */
  method DiffOne(id: int, pvLive: map<int, int>, rLive: map<int, int>,
                 changed0: seq<int>, pvSnap0: map<int, int>, rSnap0: map<int, int>)
    returns (changed: seq<int>, pvSnap: map<int, int>, rSnap: map<int, int>)
    requires id !in changed0
    ensures changed == changed0 + (if Changed(pvLive, rLive, pvSnap0, rSnap0, id) then [id] else [])
    ensures pvSnap == if Get(pvSnap0, id) != Get(pvLive, id) then pvSnap0[id := Get(pvLive, id)] else pvSnap0
    ensures rSnap == if Get(rSnap0, id) != Get(rLive, id) then rSnap0[id := Get(rLive, id)] else rSnap0
  {
    changed, pvSnap, rSnap := changed0, pvSnap0, rSnap0;
    var pv := Get(pvSnap, id);
    var newPv := Get(pvLive, id);
    if pv != newPv {
      pvSnap := pvSnap[id := newPv];
      changed := changed + [id];
    }
    var r := Get(rSnap, id);
    var newR := Get(rLive, id);
    if r != newR {
      rSnap := rSnap[id := newR];
      if id !in changed {
        changed := changed + [id];
      }
    }
  }

  /** `DiffStep` for the i-th id of a list without repeats. */
  lemma DiffStepAt(pvSnap: map<int, int>, rSnap: map<int, int>, pv: map<int, int>, r: map<int, int>,
                   ids: seq<int>, i: nat)
    requires Distinct(ids) && i < |ids|
    ensures ids[i] !in ChangedIds(ids[..i], pv, r, pvSnap, rSnap)
    ensures ChangedIds(ids[..i + 1], pv, r, pvSnap, rSnap)
         == ChangedIds(ids[..i], pv, r, pvSnap, rSnap) + (if Changed(pv, r, pvSnap, rSnap, ids[i]) then [ids[i]] else [])
    ensures var m := Synced(pvSnap, pv, ids[..i]);
      Synced(pvSnap, pv, ids[..i + 1]) == if Get(m, ids[i]) != Get(pv, ids[i]) then m[ids[i] := Get(pv, ids[i])] else m
    ensures var m := Synced(rSnap, r, ids[..i]);
      Synced(rSnap, r, ids[..i + 1]) == if Get(m, ids[i]) != Get(r, ids[i]) then m[ids[i] := Get(r, ids[i])] else m
    ensures Get(Synced(pvSnap, pv, ids[..i]), ids[i]) == Get(pvSnap, ids[i])
    ensures Get(Synced(rSnap, r, ids[..i]), ids[i]) == Get(rSnap, ids[i])
  {
    NextInList(ids, i);
    DiffStep(pvSnap, rSnap, pv, r, ids[..i], ids[i]);
  }

  /** Walking a list without repeats, the next id extends the prefix and is not in it yet. */
  lemma NextInList(ids: seq<int>, i: nat)
    requires Distinct(ids) && i < |ids|
    ensures ids[..i + 1] == ids[..i] + [ids[i]]
    ensures ids[i] !in ids[..i]
  {
    assert forall j :: 0 <= j < i ==> ids[..i][j] == ids[j];
  }

  /** One step of the diff loop, for an id not seen before in the list. */
  lemma DiffStep(pvSnap: map<int, int>, rSnap: map<int, int>, pv: map<int, int>, r: map<int, int>,
                 prefix: seq<int>, id: int)
    requires id !in prefix
    ensures Get(Synced(pvSnap, pv, prefix), id) == Get(pvSnap, id)
    ensures Get(Synced(rSnap, r, prefix), id) == Get(rSnap, id)
    ensures id !in ChangedIds(prefix, pv, r, pvSnap, rSnap)
    ensures ChangedIds(prefix + [id], pv, r, pvSnap, rSnap)
         == ChangedIds(prefix, pv, r, pvSnap, rSnap) + (if Changed(pv, r, pvSnap, rSnap, id) then [id] else [])
    ensures Synced(pvSnap, pv, prefix + [id])
         == var m := Synced(pvSnap, pv, prefix); if Get(m, id) != Get(pv, id) then m[id := Get(pv, id)] else m
    ensures Synced(rSnap, r, prefix + [id])
         == var m := Synced(rSnap, r, prefix); if Get(m, id) != Get(r, id) then m[id := Get(r, id)] else m
  {
    SyncedCopiesLive(pvSnap, pv, prefix);
    SyncedCopiesLive(rSnap, r, prefix);
    ChangedIdsExactly(prefix, pv, r, pvSnap, rSnap);
    assert (prefix + [id])[..|prefix|] == prefix;
  }
}
