/**
 * The HTTP handlers of `app_router.rs`, reduced to what they decide: which
 * visits they record, what they answer, how the render caches fill, and how
 * the home page ranks the members.
 */
module AppRouter {
  import opened Wrappers
  import opened MembershipModel
  import opened BoringFaceModel
  import opened AppModel

  // ---------------------------------------------------------------------------
  // The Referer header
  // ---------------------------------------------------------------------------

  /** What the handler asks of a parsed URL: its domain, when it has one. */
  datatype Url = Url(domain: Option<string>)

  /**
   * `get_domain_from_headers`: the Referer header's bytes, decoded as UTF-8,
   * parsed as a URL, and that URL's domain. UTF-8 decoding and URL parsing
   * are passed in as partial functions.
   */
  function DomainFromReferer(referer: Option<seq<bv8>>, decodeUtf8: seq<bv8> -> Option<string>,
                             parseUrl: string -> Option<Url>): (r: Result<string, string>)
    // a domain comes back exactly when every stage succeeds, and it is the URL's domain
    ensures r.Ok? <==>
      && referer.Some?
      && decodeUtf8(referer.value).Some?
      && parseUrl(decodeUtf8(referer.value).value).Some?
      && parseUrl(decodeUtf8(referer.value).value).value.domain.Some?
    ensures r.Ok? ==> Some(r.value) == parseUrl(decodeUtf8(referer.value).value).value.domain
    // each failing stage has its own message
    ensures referer.None? ==> r == Err("no referrer header")
    ensures referer.Some? && decodeUtf8(referer.value).None? ==>
      r == Err("referrer header is not valid utf-8 string")
    ensures referer.Some? && decodeUtf8(referer.value).Some? && parseUrl(decodeUtf8(referer.value).value).None? ==>
      r == Err("referrer header is not valid URL")
    ensures referer.Some? && decodeUtf8(referer.value).Some? && parseUrl(decodeUtf8(referer.value).value).Some?
            && parseUrl(decodeUtf8(referer.value).value).value.domain.None? ==>
      r == Err("referrer header doesn't contains a valid domain")
  {
    if referer.None? then Err("no referrer header")
    else
      var text := decodeUtf8(referer.value);
      if text.None? then Err("referrer header is not valid utf-8 string")
      else
        var url := parseUrl(text.value);
        if url.None? then Err("referrer header is not valid URL")
        else if url.value.domain.None? then Err("referrer header doesn't contains a valid domain")
        else Ok(url.value.domain.value)
  }

  // ---------------------------------------------------------------------------
  // Ranking
  // ---------------------------------------------------------------------------

  /** A member's score: five points per referral, one per page view, missing counts as 0. */
  function Score(referrer: map<int, int>, pageView: map<int, int>, id: int): int {
    Get(referrer, id) * 5 + Get(pageView, id)
  }

  /** `(id, score)` pairs in non-increasing score order. */
  predicate ScoresNonIncreasing(s: seq<(int, int)>) {
    forall i, j :: 0 <= i < j < |s| ==> s[i].1 >= s[j].1
  }

  /** No id occurs in two pairs. */
  predicate DistinctIds(s: seq<(int, int)>) {
    forall i, j :: 0 <= i < j < |s| ==> s[i].0 != s[j].0
  }

  /** The ids the pairs rank. */
  function IdsOf(s: seq<(int, int)>): set<int> {
    set p | p in s :: p.0
  }

  /** Every pair carries its id's score. */
  predicate ScoredBy(s: seq<(int, int)>, referrer: map<int, int>, pageView: map<int, int>) {
    forall p :: p in s ==> p.1 == Score(referrer, pageView, p.0)
  }

  /** Inserts `x` after every pair scoring at least as much. */
  function InsertByScore(x: (int, int), s: seq<(int, int)>): (r: seq<(int, int)>)
    ensures multiset(r) == multiset(s) + multiset{x}
  {
    if |s| == 0 || x.1 > s[0].1 then [x] + s
    else
      assert s == [s[0]] + s[1..];
      [s[0]] + InsertByScore(x, s[1..])
  }

  /** `rank_vec.sort_by(|a, b| b.1.cmp(&a.1))`, as an insertion sort on values. */
  function SortByScore(s: seq<(int, int)>): (r: seq<(int, int)>)
    ensures multiset(r) == multiset(s)
  {
    if |s| == 0 then []
    else
      assert s == s[..|s| - 1] + [s[|s| - 1]];
      assert multiset(s) == multiset(s[..|s| - 1]) + multiset{s[|s| - 1]};
      InsertByScore(s[|s| - 1], SortByScore(s[..|s| - 1]))
  }

  lemma {:induction false} InsertKeepsOrder(x: (int, int), s: seq<(int, int)>)
    requires ScoresNonIncreasing(s)
    ensures ScoresNonIncreasing(InsertByScore(x, s))
  {
    if |s| > 0 && x.1 <= s[0].1 {
      var tail := InsertByScore(x, s[1..]);
      InsertKeepsOrder(x, s[1..]);
      // the tail starts with x or with s[1], and neither outscores s[0]
      assert tail[0].1 <= s[0].1 by {
        if |s| > 1 && x.1 <= s[1].1 {
          assert tail[0] == s[1];
        }
      }
      var r := [s[0]] + tail;
      forall i, j | 0 <= i < j < |r| ensures r[i].1 >= r[j].1 {
        if i > 0 {
          assert r[i] == tail[i - 1] && r[j] == tail[j - 1];
        } else {
          assert r[j] == tail[j - 1];
        }
      }
    }
  }

  lemma {:induction false} InsertKeepsIdsDistinct(x: (int, int), s: seq<(int, int)>)
    requires DistinctIds(s) && x.0 !in IdsOf(s)
    ensures DistinctIds(InsertByScore(x, s))
  {
    if |s| > 0 && x.1 <= s[0].1 {
      var tail := InsertByScore(x, s[1..]);
      assert DistinctIds(s[1..]) by {
        forall i, j | 0 <= i < j < |s[1..]| ensures s[1..][i].0 != s[1..][j].0 {
          assert s[1..][i] == s[i + 1] && s[1..][j] == s[j + 1];
        }
      }
      assert x.0 !in IdsOf(s[1..]) by {
        forall p | p in s[1..] ensures p.0 != x.0 {
          assert p in s;
        }
      }
      InsertKeepsIdsDistinct(x, s[1..]);
      forall p | p in tail ensures p.0 != s[0].0 {
        assert p in multiset(s[1..]) + multiset{x};
        if p in s[1..] {
          var k :| 0 <= k < |s[1..]| && s[1..][k] == p;
          assert s[k + 1] == p;
        } else {
          assert s[0] in s;
        }
      }
      var r := [s[0]] + tail;
      forall i, j | 0 <= i < j < |r| ensures r[i].0 != r[j].0 {
        if i > 0 {
          assert r[i] == tail[i - 1] && r[j] == tail[j - 1];
        } else {
          assert r[j] in tail;
        }
      }
    }
  }

  /** The sort leaves its pairs in non-increasing score order. */
  lemma {:induction false} SortedByScore(s: seq<(int, int)>)
    ensures ScoresNonIncreasing(SortByScore(s))
  {
    if |s| > 0 {
      SortedByScore(s[..|s| - 1]);
      InsertKeepsOrder(s[|s| - 1], SortByScore(s[..|s| - 1]));
    }
  }

  /** The sort is a permutation, so pairs with distinct ids stay distinct. */
  lemma {:induction false} SortKeepsIdsDistinct(s: seq<(int, int)>)
    requires DistinctIds(s)
    ensures DistinctIds(SortByScore(s))
  {
    if |s| > 0 {
      var prefix, last := s[..|s| - 1], s[|s| - 1];
      assert DistinctIds(prefix) by {
        forall i, j | 0 <= i < j < |prefix| ensures prefix[i].0 != prefix[j].0 {
          assert prefix[i] == s[i] && prefix[j] == s[j];
        }
      }
      SortKeepsIdsDistinct(prefix);
      var sorted := SortByScore(prefix);
      forall p | p in sorted ensures p.0 != last.0 {
        assert p in multiset(prefix);
        var k :| 0 <= k < |prefix| && prefix[k] == p;
        assert s[k] == p;
      }
      InsertKeepsIdsDistinct(last, sorted);
    }
  }

  /** The pairs `home_page` pushes, one per member id, in the keys' order. */
  function ScoredIds(ids: seq<int>, referrer: map<int, int>, pageView: map<int, int>): (s: seq<(int, int)>)
    ensures |s| == |ids|
    ensures forall i :: 0 <= i < |ids| ==> s[i] == (ids[i], Score(referrer, pageView, ids[i]))
  {
    if |ids| == 0 then []
    else ScoredIds(ids[..|ids| - 1], referrer, pageView) + [(ids[|ids| - 1], Score(referrer, pageView, ids[|ids| - 1]))]
  }

  /** Scoring distinct ids gives one correctly scored pair per id. */
  lemma ScoredIdsFacts(ids: seq<int>, referrer: map<int, int>, pageView: map<int, int>)
    requires Distinct(ids)
    ensures var s := ScoredIds(ids, referrer, pageView);
      DistinctIds(s) && ScoredBy(s, referrer, pageView) && IdsOf(s) == set id | id in ids
  {
    var s := ScoredIds(ids, referrer, pageView);
    forall i, j | 0 <= i < j < |s| ensures s[i].0 != s[j].0 {
      assert s[i].0 == ids[i] && s[j].0 == ids[j];
    }
    forall id | id in ids ensures id in IdsOf(s) {
      var k :| 0 <= k < |ids| && ids[k] == id;
      assert s[k] in s;
    }
  }

  /** A sequence without repeats is as long as the set of its elements. */
  lemma {:induction false} DistinctLength(ids: seq<int>)
    requires Distinct(ids)
    ensures |set id | id in ids| == |ids|
  {
    if |ids| > 0 {
      var prefix, last := ids[..|ids| - 1], ids[|ids| - 1];
      assert Distinct(prefix) by {
        forall i, j | 0 <= i < j < |prefix| ensures prefix[i] != prefix[j] {
          assert prefix[i] == ids[i] && prefix[j] == ids[j];
        }
      }
      DistinctLength(prefix);
      forall i | 0 <= i < |prefix| ensures prefix[i] != last {
        assert prefix[i] == ids[i];
      }
      assert (set id | id in ids) == (set id | id in prefix) + {last} by {
        assert ids == prefix + [last];
      }
    }
  }

  /**
   * The ranking half of `home_page`: one `(id, score)` pair per member, in
   * some order of the member map's keys, then sorted by non-increasing score.
   */
  method RankMembers(id2member: map<int, Membership>, referrer: map<int, int>, pageView: map<int, int>)
    returns (rankVec: seq<(int, int)>)
    // every member appears exactly once ...
    ensures |rankVec| == |id2member|
    ensures DistinctIds(rankVec) && IdsOf(rankVec) == id2member.Keys
    // ... with its score, best first
    ensures ScoredBy(rankVec, referrer, pageView)
    ensures ScoresNonIncreasing(rankVec)
  {
    var ids := KeysInSomeOrder(id2member);
    rankVec := [];
    for i := 0 to |ids|
      invariant rankVec == ScoredIds(ids[..i], referrer, pageView)
    {
      assert ids[..i + 1][..i] == ids[..i];
      rankVec := rankVec + [(ids[i], Score(referrer, pageView, ids[i]))];
    }
    assert ids[..|ids|] == ids;
    ScoredIdsFacts(ids, referrer, pageView);
    KeysCounted(ids, id2member);
    var scored := rankVec;
    rankVec := SortByScore(scored);
    SortedByScore(scored);
    SortKeepsIdsDistinct(scored);
    SortKeepsIds(scored, rankVec, referrer, pageView);
  }

  /** Listing every key once takes as many entries as the map has. */
  lemma KeysCounted(ids: seq<int>, id2member: map<int, Membership>)
    requires Distinct(ids)
    requires forall id :: id in ids <==> id in id2member
    ensures (set id | id in ids) == id2member.Keys
    ensures |ids| == |id2member|
  {
    DistinctLength(ids);
    assert (set id | id in ids) == id2member.Keys;
  }

  /** A permutation keeps the ranked ids and their scores. */
  lemma SortKeepsIds(s: seq<(int, int)>, r: seq<(int, int)>, referrer: map<int, int>, pageView: map<int, int>)
    requires multiset(r) == multiset(s)
    ensures IdsOf(r) == IdsOf(s) && |r| == |s|
    ensures ScoredBy(s, referrer, pageView) ==> ScoredBy(r, referrer, pageView)
  {
    assert |r| == |multiset(r)| == |multiset(s)| == |s|;
    assert forall p :: p in r <==> p in s by {
      forall p ensures p in r <==> p in s {
        assert p in r <==> p in multiset(r);
      }
    }
  }

  /**
   * `home_page`: a Referrer visit is recorded when the Referer header names a
   * domain, and the page lists every member ranked by score.
   */
  method HomePage(ctx: Context, referer: Option<seq<bv8>>, decodeUtf8: seq<bv8> -> Option<string>,
                  parseUrl: string -> Option<Url>, ip: string, now: int)
    returns (membership: seq<Membership>)
    requires ctx.Valid()
    requires var d := DomainFromReferer(referer, decodeUtf8, parseUrl);
      d.Ok? && d.value in ctx.domain2id ==> ctx.rankSvg != 0
    modifies ctx
    ensures ctx.Valid() && ctx.rankSvg == old(ctx.rankSvg)
    // the visit is recorded exactly when the header yields a domain; otherwise nothing changes
    ensures var d := DomainFromReferer(referer, decodeUtf8, parseUrl);
      && (d.Ok? ==> ctx.State() == RecordVisit(old(ctx.State()), ctx.domain2id, ctx.id2member,
                                               ctx.rankSvg, Referrer, d.value, ip, now).0)
      && (d.Err? ==> ctx.State() == old(ctx.State()))
    // the page never touches the rendered SVGs
    ensures forall k :: ctx.RenderCache(k) == old(ctx.RenderCache(k))
    // every member is listed once, best score first, scored on the counts after the visit
    ensures |membership| == |ctx.id2member|
    ensures exists rankVec: seq<(int, int)> ::
      && |rankVec| == |membership|
      && DistinctIds(rankVec) && IdsOf(rankVec) == ctx.id2member.Keys
      && ScoredBy(rankVec, ctx.referrer, ctx.pageView) && ScoresNonIncreasing(rankVec)
      && (forall i :: 0 <= i < |rankVec| ==> ListedAs(ctx.id2member, rankVec[i], membership[i]))
  {
    var domain := DomainFromReferer(referer, decodeUtf8, parseUrl);
    if domain.Ok? {
      var _ := ctx.BoringVisitor(Referrer, domain.value, ip, now);
    }
    var rankVec := RankMembers(ctx.id2member, ctx.referrer, ctx.pageView);
    membership := MembersInOrder(ctx.id2member, rankVec);
  }

  /** `membership.push(ctx.id2member.get(&v.0).unwrap())` for each ranked pair in turn. */
  method MembersInOrder(id2member: map<int, Membership>, rankVec: seq<(int, int)>) returns (membership: seq<Membership>)
    requires IdsOf(rankVec) <= id2member.Keys
    ensures |membership| == |rankVec|
    ensures forall i :: 0 <= i < |rankVec| ==> ListedAs(id2member, rankVec[i], membership[i])
  {
    membership := [];
    for i := 0 to |rankVec|
      invariant |membership| == i
      invariant forall j :: 0 <= j < i ==> ListedAs(id2member, rankVec[j], membership[j])
    {
      assert rankVec[i].0 in IdsOf(rankVec);
      membership := membership + [id2member[rankVec[i].0]];
    }
  }

  /** The page shows, for a ranked pair, that id's member. */
  predicate ListedAs(id2member: map<int, Membership>, p: (int, int), m: Membership) {
    p.0 in id2member && m == id2member[p.0]
  }

  // ---------------------------------------------------------------------------
  // The SVG handlers
  // ---------------------------------------------------------------------------

  /** Every render is stored and looked up under this one key. */
  const RenderCacheKey: int := 10

  /**
   * The read-through render cache: the stored SVG when there is one,
   * otherwise the fresh render, which is then stored.
   */
  function ReadThrough(cache: map<int, string>, rendered: string): (r: (string, map<int, string>))
    // the answer is always what the cache now holds under the key
    ensures RenderCacheKey in r.1 && r.0 == r.1[RenderCacheKey]
    // a stored render is never replaced; a miss answers with the fresh render
    ensures RenderCacheKey in cache ==> r.1 == cache
    ensures RenderCacheKey !in cache ==> r.0 == rendered
    // no other key is ever written
    ensures forall k :: k != RenderCacheKey ==> (k in r.1 <==> k in cache) && (k in r.1 ==> r.1[k] == cache[k])
  {
    if RenderCacheKey in cache then (cache[RenderCacheKey], cache)
    else (rendered, cache[RenderCacheKey := rendered])
  }

  /** Once a render is stored, every later request gets it back, whatever it would render now. */
  lemma FirstRenderSticks(cache: map<int, string>, renders: seq<string>, i: nat)
    requires i < |renders|
    ensures ReadThroughAll(cache, renders)[i] == ReadThroughAll(cache, renders)[0]
  {
    if i > 0 {
      StoredRenderKept(ReadThrough(cache, renders[0]).1, renders[1..], i - 1);
    }
  }

  /** The answers to a run of requests, each with what it would render. */
  function ReadThroughAll(cache: map<int, string>, renders: seq<string>): (r: seq<string>)
    ensures |r| == |renders|
    decreases |renders|
  {
    if |renders| == 0 then []
    else
      var step := ReadThrough(cache, renders[0]);
      [step.0] + ReadThroughAll(step.1, renders[1..])
  }

  lemma {:induction false} StoredRenderKept(cache: map<int, string>, renders: seq<string>, i: nat)
    requires RenderCacheKey in cache && i < |renders|
    ensures ReadThroughAll(cache, renders)[i] == cache[RenderCacheKey]
  {
    if i > 0 {
      StoredRenderKept(cache, renders[1..], i - 1);
    }
  }

  /** An HTTP answer: status, content type and body. */
  datatype Response = Response(status: int, contentType: string, body: string)

  function VisitorTypeOf(kind: SvgKind): VisitorType {
    if kind == BadgeSvg then Badge else Icon
  }

  /**
   * The read-through lookup shared by the three handlers: the stored SVG,
   * or a fresh render of the visit that is then stored.
   */
  method CachedSvg(ctx: Context, kind: SvgKind, v: Visit) returns (content: string)
    requires ctx.Valid() && 1 <= v.level <= 10
    modifies ctx
    ensures ctx.Valid()
    ensures (content, ctx.RenderCache(kind)) ==
      ReadThrough(old(ctx.RenderCache(kind)), RenderedSvg(ctx.Face(kind), v.name, v.pageView, v.referrer, v.level))
    ensures forall k :: k != kind ==> ctx.RenderCache(k) == old(ctx.RenderCache(k))
    ensures ctx.State() == old(ctx.State()) && ctx.rankSvg == old(ctx.rankSvg)
  {
    var cache := ctx.RenderCache(kind);
    if RenderCacheKey in cache {
      content := cache[RenderCacheKey];
    } else {
      content := RenderSvg(ctx.Face(kind), v.name, v.pageView, v.referrer, v.level);
      ctx.StoreRender(kind, RenderCacheKey, content);
    }
  }

  /**
   * `show_badge`, `show_favicon` and `show_icon`: record the visit; a
   * non-member gets 404 with the error text, a member gets the cached SVG,
   * rendered from the visit's counts and level on a cache miss.
   */
  method ShowSvg(ctx: Context, kind: SvgKind, domain: string, ip: string, now: int) returns (resp: Response)
    requires ctx.Valid()
    requires domain in ctx.domain2id ==> ctx.rankSvg != 0
    modifies ctx
    ensures ctx.Valid() && ctx.rankSvg == old(ctx.rankSvg)
    ensures var (s, res) := RecordVisit(old(ctx.State()), ctx.domain2id, ctx.id2member, ctx.rankSvg,
                                        VisitorTypeOf(kind), domain, ip, now);
      && ctx.State() == s
      && (res.Err? ==> resp == Response(404, "text/plain", res.error))
      && (res.Err? ==> ctx.RenderCache(kind) == old(ctx.RenderCache(kind)))
      && (res.Ok? ==>
            var v := res.value;
            && 1 <= v.level <= 10
            && (resp.body, ctx.RenderCache(kind)) ==
               ReadThrough(old(ctx.RenderCache(kind)), RenderedSvg(ctx.Face(kind), v.name, v.pageView, v.referrer, v.level))
            && resp.status == 200 && resp.contentType == "image/svg+xml")
    // the other two render caches are untouched
    ensures forall k :: k != kind ==> ctx.RenderCache(k) == old(ctx.RenderCache(k))
  {
    var tend := ctx.BoringVisitor(VisitorTypeOf(kind), domain, ip, now);
    if tend.Err? {
      return Response(404, "text/plain", tend.error);
    }
    var content := CachedSvg(ctx, kind, tend.value);
    resp := Response(200, "image/svg+xml", content);
  }
}
