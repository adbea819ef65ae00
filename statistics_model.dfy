/**
 * The daily `statistics` table: one row per member and day, keyed by
 * `(membership_id, created_at)`, where `created_at` is the day's midnight.
 * Timestamps are seconds since the epoch. The table is a sequence of rows in
 * storage order; `insert_or_update` is an upsert on the key and `today` and
 * `all` are read-only filters over it.
 */
module StatisticsModel {
  import opened Wrappers

  /** A row of the table. */
  datatype Statistics = Statistics(
    id: int,
    createdAt: int,
    updatedAt: int,
    membershipId: int,
    pageView: int,
    referrer: int)

  /** The conflict key of the upsert. */
  function KeyOf(s: Statistics): (int, int) {
    (s.membershipId, s.createdAt)
  }

  predicate KeysUnique(rows: seq<Statistics>) {
    forall i, j :: 0 <= i < j < |rows| ==> KeyOf(rows[i]) != KeyOf(rows[j])
  }

  predicate IdsUnique(rows: seq<Statistics>) {
    forall i, j :: 0 <= i < j < |rows| ==> rows[i].id != rows[j].id
  }

  /** The largest row id, or 0 for an empty table. */
  function MaxId(rows: seq<Statistics>): (m: int)
    ensures m >= 0
    ensures forall i :: 0 <= i < |rows| ==> rows[i].id <= m
    decreases |rows|
  {
    if |rows| == 0 then 0
    else
      var rest := MaxId(rows[..|rows| - 1]);
      if rows[|rows| - 1].id > rest then rows[|rows| - 1].id else rest
  }

  /** The id the store gives a newly inserted row: one above every id in use. */
  function NextId(rows: seq<Statistics>): (n: int)
    ensures n >= 1
    ensures forall i :: 0 <= i < |rows| ==> rows[i].id < n
  {
    MaxId(rows) + 1
  }

  /** The position of the first row with the given key. */
  function IndexOf(rows: seq<Statistics>, key: (int, int)): (r: Option<nat>)
    ensures r.None? <==> forall i :: 0 <= i < |rows| ==> KeyOf(rows[i]) != key
    ensures r.Some? ==> r.value < |rows| && KeyOf(rows[r.value]) == key
    ensures r.Some? ==> forall i :: 0 <= i < r.value ==> KeyOf(rows[i]) != key
    decreases |rows|
  {
    if |rows| == 0 then None
    else if KeyOf(rows[0]) == key then Some(0)
    else
      match IndexOf(rows[1..], key)
      case None => None
      case Some(i) => Some(i + 1)
  }

  /** The row stored under a key, if any. */
  function Find(rows: seq<Statistics>, key: (int, int)): (r: Option<Statistics>)
    ensures r.None? <==> forall i :: 0 <= i < |rows| ==> KeyOf(rows[i]) != key
    ensures r.Some? ==> r.value in rows && KeyOf(r.value) == key
  {
    match IndexOf(rows, key)
    case None => None
    case Some(i) => Some(rows[i])
  }

  lemma FindUnique(rows: seq<Statistics>, i: nat)
    requires KeysUnique(rows) && i < |rows|
    ensures Find(rows, KeyOf(rows[i])) == Some(rows[i])
  {
  }

  /** The `DO UPDATE SET` clause: counts and `updated_at` come from the new values. */
  function Merged(existing: Statistics, stat: Statistics): Statistics {
    existing.(updatedAt := stat.updatedAt, pageView := stat.pageView, referrer := stat.referrer)
  }

  /**
   * The table after `INSERT ... ON CONFLICT (membership_id, created_at) DO UPDATE`.
   * The inserted columns are the two timestamps, the member id and the two
   * counts; `stat.id` is not written, the store picks a fresh id.
   */
  function Upserted(rows: seq<Statistics>, stat: Statistics): (r: seq<Statistics>)
    // a fresh key adds exactly one row, carrying the given timestamps and counts
    ensures IndexOf(rows, KeyOf(stat)).None? ==>
      && |r| == |rows| + 1 && r[..|rows|] == rows
      && var added := r[|rows|];
         added.createdAt == stat.createdAt && added.updatedAt == stat.updatedAt
         && added.membershipId == stat.membershipId
         && added.pageView == stat.pageView && added.referrer == stat.referrer
         && forall i :: 0 <= i < |rows| ==> rows[i].id != added.id
    // a conflict rewrites the counts and updated_at, and keeps id, member and day
    ensures IndexOf(rows, KeyOf(stat)).Some? ==>
      && |r| == |rows|
      && var i := IndexOf(rows, KeyOf(stat)).value;
         r[i].id == rows[i].id && KeyOf(r[i]) == KeyOf(rows[i])
         && r[i].updatedAt == stat.updatedAt
         && r[i].pageView == stat.pageView && r[i].referrer == stat.referrer
         && forall j :: 0 <= j < |rows| && j != i ==> r[j] == rows[j]
    // afterwards the key holds exactly the given counts
    ensures Find(r, KeyOf(stat)).Some?
    ensures Find(r, KeyOf(stat)).value.pageView == stat.pageView
    ensures Find(r, KeyOf(stat)).value.referrer == stat.referrer
    ensures Find(r, KeyOf(stat)).value.updatedAt == stat.updatedAt
    // rows under any other key are untouched
    ensures forall k :: k != KeyOf(stat) ==> Find(r, k) == Find(rows, k)
    ensures KeysUnique(rows) ==> KeysUnique(r)
    ensures IdsUnique(rows) ==> IdsUnique(r)
  {
    match IndexOf(rows, KeyOf(stat))
    case None =>
      var r := rows + [stat.(id := NextId(rows))];
      assert r[..|rows|] == rows;
      assert forall k :: k != KeyOf(stat) ==> Find(r, k) == Find(rows, k) by {
        forall k | k != KeyOf(stat)
          ensures Find(r, k) == Find(rows, k)
        {
          FindAppend(rows, stat.(id := NextId(rows)), k);
        }
      }
      r
    case Some(i) =>
      var r := rows[i := Merged(rows[i], stat)];
      assert forall k :: k != KeyOf(stat) ==> Find(r, k) == Find(rows, k) by {
        forall k | k != KeyOf(stat)
          ensures Find(r, k) == Find(rows, k)
        {
          FindOtherKey(rows, i, Merged(rows[i], stat), k);
        }
      }
      r
  }

  lemma {:induction false} FindAppend(rows: seq<Statistics>, s: Statistics, k: (int, int))
    requires k != KeyOf(s)
    ensures Find(rows + [s], k) == Find(rows, k)
    decreases |rows|
  {
    if |rows| > 0 && KeyOf(rows[0]) != k {
      assert (rows + [s])[1..] == rows[1..] + [s];
      FindAppend(rows[1..], s, k);
      assert IndexOf(rows + [s], k) == (match IndexOf(rows[1..] + [s], k)
        case None => None case Some(i) => Some(i + 1));
    }
  }

  lemma {:induction false} FindOtherKey(rows: seq<Statistics>, i: nat, s: Statistics, k: (int, int))
    requires i < |rows| && KeyOf(s) == KeyOf(rows[i]) && k != KeyOf(s)
    ensures Find(rows[i := s], k) == Find(rows, k)
    decreases |rows|
  {
    if KeyOf(rows[0]) != k && i > 0 {
      assert rows[i := s][1..] == rows[1..][i - 1 := s];
      FindOtherKey(rows[1..], i - 1, s, k);
    }
  }

  /** Two upserts on one key leave a single row for it, holding the second call's counts. */
  lemma UpsertTwice(rows: seq<Statistics>, s1: Statistics, s2: Statistics)
    requires KeyOf(s1) == KeyOf(s2)
    ensures var r := Upserted(Upserted(rows, s1), s2);
      && |r| == |rows| + (if IndexOf(rows, KeyOf(s1)).None? then 1 else 0)
      && Find(r, KeyOf(s2)).Some?
      && Find(r, KeyOf(s2)).value.pageView == s2.pageView
      && Find(r, KeyOf(s2)).value.referrer == s2.referrer
  {
    var r1 := Upserted(rows, s1);
    assert IndexOf(r1, KeyOf(s2)).Some?;
  }

  /** The rows created at the given midnight, in storage order. */
  function RowsCreatedAt(rows: seq<Statistics>, day: int): (r: seq<Statistics>)
    ensures forall s :: s in r <==> s in rows && s.createdAt == day
    ensures |r| <= |rows|
    ensures KeysUnique(rows) ==> KeysUnique(r)
    decreases |rows|
  {
    if |rows| == 0 then []
    else
      var rest := RowsCreatedAt(rows[1..], day);
      if rows[0].createdAt == day then
        assert KeysUnique(rows) ==> forall s :: s in rest ==> KeyOf(s) != KeyOf(rows[0]);
        [rows[0]] + rest
      else rest
  }

  /** One row per member at most, once the keys are unique: the table `today` reads. */
  lemma OneRowPerMemberADay(rows: seq<Statistics>, day: int, i: nat, j: nat)
    requires KeysUnique(rows)
    requires i < |RowsCreatedAt(rows, day)| && j < |RowsCreatedAt(rows, day)| && i != j
    ensures RowsCreatedAt(rows, day)[i].membershipId != RowsCreatedAt(rows, day)[j].membershipId
  {
    var r := RowsCreatedAt(rows, day);
    assert r[i] in r && r[j] in r;
    if i < j {
      assert KeyOf(r[i]) != KeyOf(r[j]);
    } else {
      assert KeyOf(r[j]) != KeyOf(r[i]);
    }
  }

  /** The statistics table, updated in place. */
  class StatisticsTable {
    var rows: seq<Statistics>

    ghost predicate Valid()
      reads this
    {
      KeysUnique(rows) && IdsUnique(rows)
    }

    constructor()
      ensures rows == [] && Valid()
    {
      rows := [];
    }

    /** `Statistics::insert_or_update`: upserts one row; the store reports one affected row. */
    method InsertOrUpdate(stat: Statistics) returns (affected: nat)
      requires Valid()
      modifies this
      ensures rows == Upserted(old(rows), stat) && Valid()
      ensures affected == 1
    {
      rows := Upserted(rows, stat);
      affected := 1;
    }

    /** `Statistics::today`: the rows whose `created_at` is the given midnight. */
    function Today(day: int): (r: seq<Statistics>)
      reads this
      ensures forall s :: s in r <==> s in rows && s.createdAt == day
      ensures Valid() ==> KeysUnique(r)
    {
      RowsCreatedAt(rows, day)
    }

    /** `Statistics::all`: every row, in storage order. */
    function All(): (r: seq<Statistics>)
      reads this
      ensures |r| == |rows| && forall i :: 0 <= i < |r| ==> r[i] == rows[i]
    {
      rows
    }
  }
}
