/** Ranking of video feeds: the quality score, the worst-first order, and the list of the worst peers. */
module Ranking {
  import opened Basics
  import opened Arith
  import opened Query

  /** The video statistics the score looks at. */
  datatype VideoStats = VideoStats(sequencePackets: u64, missingPackets: u64, jitterEwmaMs: u64, ratePerSec: u32,
                                   lastAtMs: u64)

  const NO_STATS := VideoStats(0, 0, 0, 0, 0)

  function FlowAgeMs(stats: VideoStats, nowMs: u64): u64
  {
    if stats.lastAtMs == 0 then U64_MAX else SatU64(nowMs - stats.lastAtMs)
  }

  function LossPenalty(received: u64, missing: u64): nat
  {
    var total := SatU64(received + missing);
    if total < 8 then 0 else
      var lossPct := SatU64(missing * 100) / total;
      if lossPct > 20 then 3 else if lossPct > 10 then 2 else if lossPct > 4 then 1 else 0
  }

  function JitterPenalty(stats: VideoStats): nat
  {
    if stats.sequencePackets < 8 then 0 else
      (if stats.jitterEwmaMs > 260 then 2 else if stats.jitterEwmaMs > 140 then 1 else 0)
      + (if stats.ratePerSec < 2 then 1 else 0)
  }

  /** The quality score of a participant, from 0 to 5. */
  function Score(nowMs: u64, stats: VideoStats, frameAgeMs: u64): (score: nat)
    ensures score <= 5
  {
    var agePenalty := (if frameAgeMs > 1_200 then 2 else 0) + (if frameAgeMs > 2_400 then 2 else 0);
    var stalePenalty := if FlowAgeMs(stats, nowMs) > 2_000 then 2 else 0;
    var lossPenalty := LossPenalty(stats.sequencePackets, stats.missingPackets);
    Max(0, Min(5, 5 - agePenalty - lossPenalty - JitterPenalty(stats) - stalePenalty))
  }

  /**
   Of two feeds with equally many packets, one no older, with no more loss, no more jitter, no lower rate and no staler
   flow, never scores lower, as long as the percentage of the loss can be computed without saturation.
   */
  lemma ScoreIsMonotone(nowMs: u64, better: VideoStats, worse: VideoStats, ageBetter: u64, ageWorse: u64)
    requires ageBetter <= ageWorse
    requires better.sequencePackets == worse.sequencePackets
    requires better.missingPackets <= worse.missingPackets && 100 * worse.missingPackets <= U64_MAX
    requires better.jitterEwmaMs <= worse.jitterEwmaMs && better.ratePerSec >= worse.ratePerSec
    requires FlowAgeMs(better, nowMs) <= FlowAgeMs(worse, nowMs)
    ensures Score(nowMs, better, ageBetter) >= Score(nowMs, worse, ageWorse)
  {
    PenaltyGrows(better.sequencePackets, better.missingPackets, worse.missingPackets);
  }

  /** The loss costs one, two or three points from 5, 11 and 21 percent on, with at least eight packets. */
  lemma LossBands(received: u64, missing: u64)
    requires received + missing <= U64_MAX && 100 * missing <= U64_MAX
    ensures var total, penalty := received + missing, LossPenalty(received, missing);
            && penalty <= 3
            && (penalty >= 1 <==> total >= 8 && 100 * missing >= 5 * total)
            && (penalty >= 2 <==> total >= 8 && 100 * missing >= 11 * total)
            && (penalty >= 3 <==> total >= 8 && 100 * missing >= 21 * total)
  {
    var total := received + missing;
    if total >= 8 {
      QuotientReaches(missing * 100, total, 5);
      QuotientReaches(missing * 100, total, 11);
      QuotientReaches(missing * 100, total, 21);
    }
  }

  lemma QuotientReaches(a: nat, b: nat, k: nat)
    requires b > 0
    ensures a / b >= k <==> a >= k * b
  {
    Quotient(a, b);
    if a >= k * b {
      QuotientIsLargest(a, b, k);
    } else if a / b >= k {
      MulMono(k, a / b, b);
    }
  }

  /**
   What the other measures cost: points for the age of the frame, for a stale flow, for the jitter and for a low rate.
   */
  function OtherPenalties(nowMs: u64, stats: VideoStats, frameAgeMs: u64): (points: nat)
  {
    var measured := stats.sequencePackets >= 8;
    Points(frameAgeMs > 1_200, 2) + Points(frameAgeMs > 2_400, 2)
    + Points(stats.lastAtMs == 0 || nowMs > stats.lastAtMs + 2_000, 2)
    + Points(measured && stats.jitterEwmaMs > 140, 1) + Points(measured && stats.jitterEwmaMs > 260, 1)
    + Points(measured && stats.ratePerSec < 2, 1)
  }

  function Points(fault: bool, points: nat): nat
  {
    if fault then points else 0
  }

  /** The score is five points less all penalties, and never negative. */
  lemma ScoreExactly(nowMs: u64, stats: VideoStats, frameAgeMs: u64)
    ensures var penalties := OtherPenalties(nowMs, stats, frameAgeMs)
            + LossPenalty(stats.sequencePackets, stats.missingPackets);
            Score(nowMs, stats, frameAgeMs) == if penalties >= 5 then 0 else 5 - penalties
  {
  }

  lemma PenaltyGrows(received: u64, fewer: u64, more: u64)
    requires fewer <= more && 100 * more <= U64_MAX
    ensures LossPenalty(received, fewer) <= LossPenalty(received, more)
  {
    if received + more <= U64_MAX && received + fewer > 0 {
      LossGrows(fewer, more, received);
    } else if received + more > U64_MAX && received + fewer >= 8 {
      SmallLoss(SatU64(received + fewer), 100 * fewer);
    }
  }

  /** Among so many packets that their number saturates, a loss that can be computed is too small to count. */
  lemma SmallLoss(total: nat, scaled: nat)
    requires scaled <= U64_MAX && 2 * total > U64_MAX
    ensures scaled / total <= 1
  {
    Quotient(scaled, total);
    if scaled / total > 1 {
      MulMono(2, scaled / total, total);
    }
  }

  /**
   The guard is sharp: more loss never means a lower penalty, up to some loss, exactly if that loss in percent fits 64
   bits.
   */
  lemma LossPenaltyHeadroom(most: u64)
    ensures (forall received: u64, fewer: u64, more: u64 :: fewer <= more <= most ==>
               LossPenalty(received, fewer) <= LossPenalty(received, more))
            <==> 100 * most <= U64_MAX
  {
    if 100 * most <= U64_MAX {
      forall received: u64, fewer: u64, more: u64 | fewer <= more <= most
        ensures LossPenalty(received, fewer) <= LossPenalty(received, more)
      {
        PenaltyGrows(received, fewer, more);
      }
    } else {
      var fewer: u64 := U64_MAX / 100;
      var more: u64, received: u64 := fewer + 1, U64_MAX / 21 - fewer;
      assert LossPenalty(received, fewer) == 3 && LossPenalty(received, more) == 2;
      assert fewer <= more <= most;
    }
  }

  lemma LossGrows(m: nat, n: nat, s: nat)
    requires m <= n && s + m > 0
    ensures m * 100 / (s + m) <= n * 100 / (s + n)
  {
    var p := m * 100 / (s + m);
    Quotient(m * 100, s + m);
    if p > 100 {
      MulMono(101, p, s + m);
      assert false;
    }
    MulMono(p, 100, n - m);
    Distribute(p, s + m, n - m);
    QuotientIsLargest(n * 100, s + n, p);
  }

  // ----- Order -----

  /** `str` comparison: lexicographic by code point. */
  predicate IdBefore(a: string, b: string)
  {
    if b == "" then false
    else if a == "" then true
    else a[0] < b[0] || (a[0] == b[0] && IdBefore(a[1..], b[1..]))
  }

  lemma {:induction false} IdTotal(a: string, b: string)
    ensures IdBefore(a, b) || a == b || IdBefore(b, a)
    ensures !(IdBefore(a, b) && IdBefore(b, a)) && (a == b ==> !IdBefore(a, b))
  {
    if a != "" && b != "" {
      IdTotal(a[1..], b[1..]);
      assert a == [a[0]] + a[1..] && b == [b[0]] + b[1..];
    }
  }

  lemma {:induction false} IdTransitive(a: string, b: string, c: string)
    requires IdBefore(a, b) && IdBefore(b, c)
    ensures IdBefore(a, c)
  {
    if a != "" && b != "" && c != "" && a[0] == b[0] == c[0] {
      IdTransitive(a[1..], b[1..], c[1..]);
    }
  }

  /** A string comes before another if it is its beginning, or smaller where they first differ. */
  ghost predicate Precedes(a: string, b: string)
  {
    exists k: nat :: DifferAt(a, b, k)
  }

  predicate DifferAt(a: string, b: string, k: nat)
  {
    && k <= |a| && k < |b| && (forall i :: 0 <= i < k ==> a[i] == b[i])
    && (k == |a| || a[k] < b[k])
  }

  lemma {:induction false} IdBeforeExactly(a: string, b: string)
    ensures IdBefore(a, b) <==> Precedes(a, b)
  {
    if a == "" && b != "" {
      assert DifferAt(a, b, 0);
    } else if a != "" && b != "" {
      var s, t := a[1..], b[1..];
      IdBeforeExactly(s, t);
      if a[0] < b[0] {
        assert DifferAt(a, b, 0);
      } else if a[0] == b[0] {
        if k: nat :| DifferAt(s, t, k) {
          assert forall i :: 1 <= i <= k ==> a[i] == s[i - 1] && b[i] == t[i - 1];
          assert DifferAt(a, b, k + 1);
        }
        if k: nat :| DifferAt(a, b, k) {
          assert forall i :: 0 <= i < k - 1 ==> s[i] == a[i + 1] && t[i] == b[i + 1];
          assert DifferAt(s, t, k - 1);
        }
      }
    }
  }

  /** One row of the ranking. */
  datatype Row = Row(score: nat, age: u64, id: string)

  /** Worse rows come first: lower score, then greater age, then smaller id. */
  predicate Before(a: Row, b: Row)
  {
    a.score < b.score || (a.score == b.score && (a.age > b.age || (a.age == b.age && IdBefore(a.id, b.id))))
  }

  lemma BeforeIsStrictTotal(a: Row, b: Row, c: Row)
    ensures a != b ==> Before(a, b) || Before(b, a)
    ensures !(Before(a, b) && Before(b, a)) && !Before(a, a)
    ensures Before(a, b) && Before(b, c) ==> Before(a, c)
  {
    IdTotal(a.id, b.id);
    IdTotal(a.id, a.id);
    if Before(a, b) && Before(b, c) && IdBefore(a.id, b.id) && IdBefore(b.id, c.id) {
      IdTransitive(a.id, b.id, c.id);
    }
  }

  // ----- Sorting -----

  function Insert(row: Row, rows: seq<Row>): (r: seq<Row>)
    ensures |r| == |rows| + 1
  {
    if rows == [] || Before(row, rows[0]) then [row] + rows else [rows[0]] + Insert(row, rows[1..])
  }

  /** The standard library's sort, as a function of the order. */
  function Sort(rows: seq<Row>): (r: seq<Row>)
    ensures |r| == |rows|
  {
    if rows == [] then [] else Insert(rows[0], Sort(rows[1..]))
  }

  ghost predicate Ranked(rows: seq<Row>)
  {
    forall i, j :: 0 <= i < j < |rows| ==> Before(rows[i], rows[j])
  }

  ghost predicate Distinct(rows: seq<Row>)
  {
    forall i, j :: 0 <= i < j < |rows| ==> rows[i] != rows[j]
  }

  lemma {:induction false} InsertRanks(row: Row, rows: seq<Row>)
    requires Ranked(rows) && row !in rows
    ensures Ranked(Insert(row, rows))
    ensures forall r :: r in Insert(row, rows) <==> r == row || r in rows
  {
    if rows != [] {
      assert rows == [rows[0]] + rows[1..];
      BeforeIsStrictTotal(row, rows[0], rows[0]);
      if Before(row, rows[0]) {
        forall j | 0 <= j < |rows| ensures Before(row, rows[j]) {
          BeforeIsStrictTotal(row, rows[0], rows[j]);
        }
      } else {
        InsertRanks(row, rows[1..]);
        var tail := Insert(row, rows[1..]);
        forall j | 0 <= j < |tail| ensures Before(rows[0], tail[j]) {
          assert tail[j] == row || tail[j] in rows[1..];
        }
      }
    }
  }

  /** Sorting rows that differ ranks them and keeps each of them. */
  lemma {:induction false} SortRanks(rows: seq<Row>)
    requires Distinct(rows)
    ensures Ranked(Sort(rows))
    ensures forall row :: row in Sort(rows) <==> row in rows
  {
    if rows != [] {
      assert rows == [rows[0]] + rows[1..];
      SortRanks(rows[1..]);
      assert forall k :: 0 < k < |rows| ==> rows[k] != rows[0];
      InsertRanks(rows[0], Sort(rows[1..]));
    }
  }

  /** There is only one ranking of a collection of rows, whatever algorithm produced it. */
  lemma {:induction false} RankingIsUnique(a: seq<Row>, b: seq<Row>)
    requires Ranked(a) && Ranked(b) && |a| == |b|
    requires forall row :: row in a <==> row in b
    ensures a == b
  {
    if a != [] {
      assert a[0] in b && b[0] in a;
      BeforeIsStrictTotal(a[0], b[0], a[0]);
      assert a[0] == b[0];
      forall row ensures row in a[1..] <==> row in b[1..] {
        TailOfRanked(a, row);
        TailOfRanked(b, row);
      }
      RankingIsUnique(a[1..], b[1..]);
    }
  }

  lemma TailOfRanked(rows: seq<Row>, row: Row)
    requires rows != [] && Ranked(rows)
    ensures row in rows[1..] <==> row in rows && row != rows[0]
  {
    assert rows == [rows[0]] + rows[1..];
    if row in rows[1..] {
      var k :| 0 <= k < |rows[1..]| && rows[1..][k] == row;
      assert Before(rows[0], rows[k + 1]);
      BeforeIsStrictTotal(rows[0], rows[0], rows[0]);
    }
  }

  // ----- Feeds -----

  /** The frames by participant with their update times, and the statistics by participant. */
  datatype Feeds = Feeds(updatedAtMs: map<string, u64>, stats: map<string, VideoStats>)

  function RowOf(feeds: Feeds, id: string, nowMs: u64): Row
    requires id in feeds.updatedAtMs
  {
    var age := SatU64(nowMs - feeds.updatedAtMs[id]);
    var stats := if id in feeds.stats then feeds.stats[id] else NO_STATS;
    Row(Score(nowMs, stats, age), age, id)
  }

  /** An enumeration of the frame keys, in whatever order the hash map yields them. */
  ghost predicate Enumerates(keys: seq<string>, feeds: Feeds)
  {
    && (forall i, j :: 0 <= i < j < |keys| ==> keys[i] != keys[j])
    && (forall id :: id in keys <==> id in feeds.updatedAtMs)
  }

  function Rows(feeds: Feeds, keys: seq<string>, nowMs: u64): (rows: seq<Row>)
    requires forall id <- keys :: id in feeds.updatedAtMs
    ensures |rows| == |keys|
    ensures forall i :: 0 <= i < |rows| ==> rows[i] == RowOf(feeds, keys[i], nowMs)
  {
    seq(|keys|, i requires 0 <= i < |keys| => RowOf(feeds, keys[i], nowMs))
  }

  function PlainRows(keys: seq<string>): (rows: seq<Row>)
    ensures |rows| == |keys|
    ensures forall i :: 0 <= i < |rows| ==> rows[i] == Row(0, 0, keys[i])
  {
    seq(|keys|, i requires 0 <= i < |keys| => Row(0, 0, keys[i]))
  }

  function Ids(rows: seq<Row>): (ids: seq<string>)
    ensures |ids| == |rows|
    ensures forall i :: 0 <= i < |ids| ==> ids[i] == rows[i].id
  {
    seq(|rows|, i requires 0 <= i < |rows| => rows[i].id)
  }

  /** The feed ids: the worst first, or in the order of the ids. */
  function SortedFeedIds(feeds: Feeds, keys: seq<string>, worstFirst: bool, nowMs: u64): (ids: seq<string>)
    requires forall id <- keys :: id in feeds.updatedAtMs
    ensures |ids| == |keys|
  {
    Ids(Sort(if worstFirst then Rows(feeds, keys, nowMs) else PlainRows(keys)))
  }

  function QualityLabel(score: nat): string
  {
    if score >= 4 then "NEON" else if score == 3 then "WARM" else if score == 2 then "NOISY" else "BAD"
  }

  function Labelled(rows: seq<Row>): (words: seq<string>)
    ensures |words| == |rows|
    ensures forall i :: 0 <= i < |words| ==> words[i] == rows[i].id + ":" + QualityLabel(rows[i].score)
  {
    seq(|rows|, i requires 0 <= i < |rows| => rows[i].id + ":" + QualityLabel(rows[i].score))
  }

  /** The ids and labels of the worst feeds, at most `limit` of them. */
  method TopWorstPeers(feeds: Feeds, keys: seq<string>, nowMs: u64, limit: nat) returns (text: string)
    requires Enumerates(keys, feeds)
    ensures text == if limit == 0 || keys == [] then "--"
                    else Join(Labelled(Sort(Rows(feeds, keys, nowMs))[..Min(limit, |keys|)]), ' ')
  {
    if limit == 0 || keys == [] {
      return "--";
    }
    var rows := CollectRows(feeds, keys, nowMs);
    rows := Sort(rows)[..Min(limit, |rows|)];
    var out: seq<string> := [];
    for i := 0 to |rows|
      invariant out == Labelled(rows)[..i]
    {
      out := out + [rows[i].id + ":" + QualityLabel(rows[i].score)];
    }
    assert out == Labelled(rows);
    return Join(out, ' ');
  }

  method CollectRows(feeds: Feeds, keys: seq<string>, nowMs: u64) returns (rows: seq<Row>)
    requires Enumerates(keys, feeds)
    ensures rows == Rows(feeds, keys, nowMs)
  {
    rows := [];
    for i := 0 to |keys|
      invariant rows == Rows(feeds, keys, nowMs)[..i]
    {
      rows := rows + [RowOf(feeds, keys[i], nowMs)];
    }
    assert rows == Rows(feeds, keys, nowMs);
  }

  // ----- What the two rankings say -----

  lemma RowsDistinct(feeds: Feeds, keys: seq<string>, nowMs: u64)
    requires Enumerates(keys, feeds)
    ensures Distinct(Rows(feeds, keys, nowMs)) && Distinct(PlainRows(keys))
  {
    var rows := Rows(feeds, keys, nowMs);
    assert forall i :: 0 <= i < |rows| ==> rows[i].id == keys[i] && PlainRows(keys)[i].id == keys[i];
  }

  /** A row is in the table exactly when it is the row of a frame. */
  lemma RowsAreTheFrames(feeds: Feeds, keys: seq<string>, nowMs: u64, row: Row)
    requires Enumerates(keys, feeds)
    ensures row in Rows(feeds, keys, nowMs) <==> row.id in feeds.updatedAtMs && row == RowOf(feeds, row.id, nowMs)
    ensures row in PlainRows(keys) <==> row.id in feeds.updatedAtMs && row == Row(0, 0, row.id)
  {
    var rows := Rows(feeds, keys, nowMs);
    if row.id in keys {
      var k :| 0 <= k < |keys| && keys[k] == row.id;
      assert rows[k] == RowOf(feeds, row.id, nowMs);
      assert PlainRows(keys)[k] == Row(0, 0, row.id);
    }
    if row in rows {
      var k :| 0 <= k < |rows| && rows[k] == row;
      assert keys[k] in keys;
    }
    if row in PlainRows(keys) {
      var k :| 0 <= k < |keys| && PlainRows(keys)[k] == row;
      assert keys[k] in keys;
    }
  }

  /**
   Worst-first, the feed ids are the frame keys, each once, strictly ordered by score, then age downwards, then id;
   otherwise they are the frame keys strictly ordered by id.
   */
  lemma SortedFeedIdsRanked(feeds: Feeds, keys: seq<string>, worstFirst: bool, nowMs: u64)
    requires Enumerates(keys, feeds)
    ensures var ids := SortedFeedIds(feeds, keys, worstFirst, nowMs);
            && (forall id :: id in ids <==> id in feeds.updatedAtMs)
            && (forall i, j :: 0 <= i < j < |ids| ==>
                  if worstFirst then Before(RowOf(feeds, ids[i], nowMs), RowOf(feeds, ids[j], nowMs))
                  else IdBefore(ids[i], ids[j]))
  {
    var rows := if worstFirst then Rows(feeds, keys, nowMs) else PlainRows(keys);
    var sorted := Sort(rows);
    RowsDistinct(feeds, keys, nowMs);
    SortRanks(rows);
    forall i | 0 <= i < |sorted|
      ensures sorted[i].id in feeds.updatedAtMs
      ensures sorted[i] == if worstFirst then RowOf(feeds, sorted[i].id, nowMs) else Row(0, 0, sorted[i].id)
    {
      assert sorted[i] in sorted;
      RowsAreTheFrames(feeds, keys, nowMs, sorted[i]);
    }
    forall id | id in feeds.updatedAtMs ensures id in Ids(sorted) {
      var row := if worstFirst then RowOf(feeds, id, nowMs) else Row(0, 0, id);
      RowsAreTheFrames(feeds, keys, nowMs, row);
      var k :| 0 <= k < |sorted| && sorted[k] == row;
      assert Ids(sorted)[k] == id;
    }
  }

  lemma {:induction false} SameSize(keys: seq<string>, others: seq<string>)
    requires forall i, j :: 0 <= i < j < |keys| ==> keys[i] != keys[j]
    requires forall i, j :: 0 <= i < j < |others| ==> others[i] != others[j]
    requires forall id :: id in keys <==> id in others
    ensures |keys| == |others|
  {
    CountIds(keys);
    CountIds(others);
    assert (set id | id in keys) == (set id | id in others);
  }

  lemma {:induction false} CountIds(keys: seq<string>)
    requires forall i, j :: 0 <= i < j < |keys| ==> keys[i] != keys[j]
    ensures |set id | id in keys| == |keys|
  {
    if keys == [] {
      assert (set id | id in keys) == {};
    } else {
      var n := |keys| - 1;
      CountIds(keys[..n]);
      assert keys[n] !in keys[..n];
      assert keys == keys[..n] + [keys[n]];
      assert (set id | id in keys) == (set id | id in keys[..n]) + {keys[n]};
    }
  }

  /** The order in which a hash map yields its keys does not show in the ranking. */
  lemma RankingIgnoresKeyOrder(feeds: Feeds, keys: seq<string>, others: seq<string>, nowMs: u64)
    requires Enumerates(keys, feeds) && Enumerates(others, feeds)
    ensures |keys| == |others|
    ensures Sort(Rows(feeds, keys, nowMs)) == Sort(Rows(feeds, others, nowMs))
  {
    var a, b := Sort(Rows(feeds, keys, nowMs)), Sort(Rows(feeds, others, nowMs));
    RowsDistinct(feeds, keys, nowMs);
    RowsDistinct(feeds, others, nowMs);
    SortRanks(Rows(feeds, keys, nowMs));
    SortRanks(Rows(feeds, others, nowMs));
    forall row ensures row in a <==> row in b {
      RowsAreTheFrames(feeds, keys, nowMs, row);
      RowsAreTheFrames(feeds, others, nowMs, row);
    }
    SameSize(keys, others);
    RankingIsUnique(a, b);
  }

  /**
   The worst peers named are the first ids of the worst-first list, in the same order, each with the label of its score.
   */
  lemma WorstPeersLeadTheList(feeds: Feeds, keys: seq<string>, others: seq<string>, nowMs: u64, limit: nat)
    requires Enumerates(keys, feeds) && Enumerates(others, feeds)
    ensures var named := Labelled(Sort(Rows(feeds, keys, nowMs))[..Min(limit, |keys|)]);
            var ids := SortedFeedIds(feeds, others, true, nowMs);
            && |named| == Min(limit, |ids|)
            && forall i :: 0 <= i < |named| ==>
                 ids[i] in feeds.updatedAtMs
                 && named[i] == ids[i] + ":" + QualityLabel(RowOf(feeds, ids[i], nowMs).score)
  {
    var sorted := Sort(Rows(feeds, keys, nowMs));
    RankingIgnoresKeyOrder(feeds, keys, others, nowMs);
    RowsDistinct(feeds, keys, nowMs);
    SortRanks(Rows(feeds, keys, nowMs));
    forall i | 0 <= i < |sorted|
      ensures sorted[i].id in feeds.updatedAtMs && sorted[i] == RowOf(feeds, sorted[i].id, nowMs)
    {
      assert sorted[i] in sorted;
      RowsAreTheFrames(feeds, keys, nowMs, sorted[i]);
    }
  }

  // ----- The order of the feeds, spelled out -----

  function AgeOf(feeds: Feeds, id: string, nowMs: u64): nat
    requires id in feeds.updatedAtMs
  {
    if nowMs > feeds.updatedAtMs[id] then nowMs - feeds.updatedAtMs[id] else 0
  }

  /** The score of a feed; one without statistics counts as stale and otherwise faultless. */
  function ScoreOf(feeds: Feeds, id: string, nowMs: u64): nat
    requires id in feeds.updatedAtMs
  {
    var age := AgeOf(feeds, id, nowMs);
    if id in feeds.stats then Score(nowMs, feeds.stats[id], age)
    else if age > 2_400 then 0 else if age > 1_200 then 1 else 3
  }

  lemma RowExactly(feeds: Feeds, id: string, nowMs: u64)
    requires id in feeds.updatedAtMs
    ensures RowOf(feeds, id, nowMs) == Row(ScoreOf(feeds, id, nowMs), AgeOf(feeds, id, nowMs), id)
  {
  }

  /** A feed is worse than another: its score is lower, or as low and it is older, or as old and its id comes first. */
  ghost predicate Worse(feeds: Feeds, a: string, b: string, nowMs: u64)
    requires a in feeds.updatedAtMs && b in feeds.updatedAtMs
  {
    var scoreA, scoreB := ScoreOf(feeds, a, nowMs), ScoreOf(feeds, b, nowMs);
    var ageA, ageB := AgeOf(feeds, a, nowMs), AgeOf(feeds, b, nowMs);
    || scoreA < scoreB
    || (scoreA == scoreB && ageA > ageB)
    || (scoreA == scoreB && ageA == ageB && Precedes(a, b))
  }

  /** Worst-first, each feed is worse than all that follow; otherwise the ids are in the order of their characters. */
  lemma WorstComeFirst(feeds: Feeds, keys: seq<string>, worstFirst: bool, nowMs: u64)
    requires Enumerates(keys, feeds)
    ensures var ids := SortedFeedIds(feeds, keys, worstFirst, nowMs);
            && (forall i :: 0 <= i < |ids| ==> ids[i] in feeds.updatedAtMs)
            && (forall i, j :: 0 <= i < j < |ids| ==>
                  if worstFirst then Worse(feeds, ids[i], ids[j], nowMs) else Precedes(ids[i], ids[j]))
  {
    var ids := SortedFeedIds(feeds, keys, worstFirst, nowMs);
    SortedFeedIdsRanked(feeds, keys, worstFirst, nowMs);
    assert forall i :: 0 <= i < |ids| ==> ids[i] in ids;
    forall i, j | 0 <= i < j < |ids|
      ensures if worstFirst then Worse(feeds, ids[i], ids[j], nowMs) else Precedes(ids[i], ids[j])
    {
      IdBeforeExactly(ids[i], ids[j]);
      RowExactly(feeds, ids[i], nowMs);
      RowExactly(feeds, ids[j], nowMs);
    }
  }

  /** The labels: from four points on, three points, two points, and below. */
  lemma LabelsExactly(score: nat)
    ensures QualityLabel(score) == "NEON" <==> 4 <= score
    ensures QualityLabel(score) == "WARM" <==> score == 3
    ensures QualityLabel(score) == "NOISY" <==> score == 2
    ensures QualityLabel(score) == "BAD" <==> score <= 1
  {
    assert "NEON"[0] == 'N' && "NOISY"[1] == 'O' && "NEON"[1] == 'E' && "WARM"[0] == 'W' && "BAD"[0] == 'B';
  }
}
