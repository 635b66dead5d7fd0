/**
 * One detection cycle of the meme-coin detector: merge the fetched pairs, then for each
 * merged pair in dictionary order record its observation in the history, look up its
 * baseline and decide whether it is reported.
 */
module Detector {
  import opened Wrappers
  import opened VolumeHistory
  import opened Surge
  import opened PairMerge

  /** Every one of `keys` has an entry. */
  predicate Covers(keys: seq<PairKey>, entries: map<PairKey, PairSnapshot>) {
    forall i :: 0 <= i < |keys| ==> keys[i] in entries
  }

  /** The store after recording the first `n` of `keys`, in order, into `buffers`. */
  function RecordPairs(buffers: map<PairKey, seq<Observation>>, keys: seq<PairKey>,
                       entries: map<PairKey, PairSnapshot>, now: int, n: nat): (recorded: map<PairKey, seq<Observation>>)
    requires n <= |keys| && Covers(keys, entries)
  {
    if n == 0 then buffers
    else Recorded(RecordPairs(buffers, keys, entries, now, n - 1), keys[n - 1], entries[keys[n - 1]].h1Volume, now)
  }

  /** The outcome for pair `k`: judged on its buffer in `buffers` with this cycle's observation added. */
  function Outcome(buffers: map<PairKey, seq<Observation>>, k: PairKey,
                   entries: map<PairKey, PairSnapshot>, now: int): (outcome: Option<Report>)
    requires k in entries
  {
    Assess(entries[k], Observe(BufferOf(buffers, k), entries[k].h1Volume, now), now)
  }

  /**
   * The outcomes of all pairs `keys`, in order. Each pair is judged on its own buffer in
   * the store as it was before the cycle, with only its own new observation: with
   * distinct keys, recording the other pairs never touches it.
   */
  function Outcomes(buffers: map<PairKey, seq<Observation>>, keys: seq<PairKey>,
                    entries: map<PairKey, PairSnapshot>, now: int): (r: seq<Option<Report>>)
    requires Covers(keys, entries)
    ensures |r| == |keys|
    ensures forall i :: 0 <= i < |keys| ==> r[i] == Outcome(buffers, keys[i], entries, now)
  {
    seq(|keys|, i requires 0 <= i < |keys| => Outcome(buffers, keys[i], entries, now))
  }

  /** The report list built from the first `n` outcomes: their reports, in order. */
  function Kept(outcomes: seq<Option<Report>>, n: nat): (reports: seq<Report>)
    requires n <= |outcomes|
  {
    if n == 0 then [] else Kept(outcomes, n - 1) + outcomes[n - 1].ToSeq()
  }

  /** The number of outcomes among the first `n` that carry a report. */
  function CountReported(outcomes: seq<Option<Report>>, n: nat): (count: nat)
    requires n <= |outcomes|
  {
    if n == 0 then 0 else CountReported(outcomes, n - 1) + (if outcomes[n - 1].Some? then 1 else 0)
  }

  /** The report list has one entry per outcome that carries a report. */
  lemma {:induction false} KeptSize(outcomes: seq<Option<Report>>, n: nat)
    requires n <= |outcomes|
    ensures |Kept(outcomes, n)| == CountReported(outcomes, n) <= n
  {
    if n > 0 {
      KeptSize(outcomes, n - 1);
    }
  }

  /** Entry `j` of `reports` is the report of one of the first `n` outcomes at or after position `j`. */
  predicate SourcedAt(outcomes: seq<Option<Report>>, reports: seq<Report>, n: nat, j: nat)
    requires n <= |outcomes| && j < |reports|
  {
    exists i :: j <= i < n && outcomes[i] == Some(reports[j])
  }

  /** Each of `reports` is the report of one of the first `n` outcomes at or after its own position. */
  predicate Sourced(outcomes: seq<Option<Report>>, reports: seq<Report>, n: nat)
    requires n <= |outcomes|
  {
    forall j :: 0 <= j < |reports| ==> SourcedAt(outcomes, reports, n, j)
  }

  /** Each entry of the report list is the report of an outcome at or after its own position. */
  lemma {:induction false} KeptSources(outcomes: seq<Option<Report>>, n: nat)
    requires n <= |outcomes|
    ensures Sourced(outcomes, Kept(outcomes, n), n)
  {
    if n > 0 {
      KeptSources(outcomes, n - 1);
      var front := Kept(outcomes, n - 1);
      assert Sourced(outcomes, front, n - 1);
      var all := Kept(outcomes, n);
      assert all == front + outcomes[n - 1].ToSeq();
      forall j | 0 <= j < |all| ensures SourcedAt(outcomes, all, n, j) {
        if j < |front| {
          assert all[j] == front[j];
          assert SourcedAt(outcomes, front, n - 1, j);
          var i :| j <= i < n - 1 && outcomes[i] == Some(front[j]);
          assert j <= i < n && outcomes[i] == Some(all[j]);
        } else {
          var rest := outcomes[n - 1].ToSeq();
          assert all[j] == rest[j - |front|];
          KeptSize(outcomes, n - 1);
          assert j <= n - 1 && outcomes[n - 1] == Some(all[j]);
        }
      }
      assert Sourced(outcomes, all, n);
    } else {
      assert Kept(outcomes, n) == [];
    }
  }

  /** If outcome `i` carries a report, it sits in `reports` at the number of reports before it. */
  predicate PlacedAt(outcomes: seq<Option<Report>>, reports: seq<Report>, i: nat)
    requires i < |outcomes|
  {
    outcomes[i].Some? ==>
      CountReported(outcomes, i) < |reports| && reports[CountReported(outcomes, i)] == outcomes[i].value
  }

  /** The report of outcome `i` sits at position `CountReported(outcomes, i)`, after the reports before it. */
  lemma {:induction false} KeptPositions(outcomes: seq<Option<Report>>, n: nat)
    requires n <= |outcomes|
    ensures forall i :: 0 <= i < n ==> PlacedAt(outcomes, Kept(outcomes, n), i)
  {
    if n > 0 {
      var front := Kept(outcomes, n - 1);
      var all := Kept(outcomes, n);
      assert forall i :: 0 <= i < n - 1 ==> PlacedAt(outcomes, front, i) by {
        KeptPositions(outcomes, n - 1);
      }
      assert |front| == CountReported(outcomes, n - 1) by {
        KeptSize(outcomes, n - 1);
      }
      assert all == front + outcomes[n - 1].ToSeq();
      forall i | 0 <= i < n ensures PlacedAt(outcomes, all, i) {
        if i < n - 1 {
          assert PlacedAt(outcomes, front, i);
          if outcomes[i].Some? {
            assert all[CountReported(outcomes, i)] == front[CountReported(outcomes, i)];
          }
        }
      }
    }
  }

  /**
   * The report list holds exactly one entry per outcome that carries a report: each of
   * its entries is the report of an outcome at or after its own position, and the report
   * of outcome `i` sits at position `CountReported(outcomes, i)`, the number of reports
   * before it.
   */
  lemma KeptReports(outcomes: seq<Option<Report>>, n: nat)
    requires n <= |outcomes|
    ensures |Kept(outcomes, n)| == CountReported(outcomes, n) <= n
    ensures Sourced(outcomes, Kept(outcomes, n), n)
    ensures forall i :: 0 <= i < n ==> PlacedAt(outcomes, Kept(outcomes, n), i)
  {
    KeptSize(outcomes, n);
    KeptSources(outcomes, n);
    KeptPositions(outcomes, n);
  }

  /** A report comes before every later outcome's position: positions grow with the index. */
  lemma {:induction false} CountReportedGrows(outcomes: seq<Option<Report>>, i: nat, j: nat)
    requires i < j <= |outcomes| && outcomes[i].Some?
    ensures CountReported(outcomes, i) < CountReported(outcomes, j)
    decreases j
  {
    if j > i + 1 {
      CountReportedGrows(outcomes, i, j - 1);
    }
  }

  /** Recording some pairs leaves the buffer of every other pair as it was, present or not. */
  lemma {:induction false} RecordOthers(buffers: map<PairKey, seq<Observation>>, keys: seq<PairKey>,
                                        entries: map<PairKey, PairSnapshot>, now: int, n: nat, k: PairKey)
    requires n <= |keys| && Covers(keys, entries)
    requires forall i :: 0 <= i < n ==> keys[i] != k
    ensures k in RecordPairs(buffers, keys, entries, now, n) <==> k in buffers
    ensures BufferOf(RecordPairs(buffers, keys, entries, now, n), k) == BufferOf(buffers, k)
  {
    if n > 0 {
      RecordOthers(buffers, keys, entries, now, n - 1, k);
    }
  }

  /** The first `n` keys are pairwise distinct, as the keys of a dictionary are. */
  predicate DistinctPrefix(keys: seq<PairKey>, n: nat)
    requires n <= |keys|
  {
    forall a, b :: 0 <= a < b < n ==> keys[a] != keys[b]
  }

  /**
   * In store `recorded`, each of the first `n` pairs has the buffer it had in `start`
   * with only its own observation of this cycle added.
   */
  predicate ObservedOnce(start: map<PairKey, seq<Observation>>, keys: seq<PairKey>,
                         entries: map<PairKey, PairSnapshot>, now: int, n: nat,
                         recorded: map<PairKey, seq<Observation>>)
    requires n <= |keys| && Covers(keys, entries)
  {
    forall i :: 0 <= i < n ==>
      BufferOf(recorded, keys[i]) == Observe(BufferOf(start, keys[i]), entries[keys[i]].h1Volume, now)
  }

  /** Recording pair `n - 1`, untouched so far and distinct from the others, extends `ObservedOnce` by one pair. */
  lemma ObservedOnceStep(start: map<PairKey, seq<Observation>>, keys: seq<PairKey>,
                         entries: map<PairKey, PairSnapshot>, now: int, n: nat,
                         before: map<PairKey, seq<Observation>>, after: map<PairKey, seq<Observation>>)
    requires 0 < n <= |keys| && Covers(keys, entries) && DistinctPrefix(keys, n)
    requires ObservedOnce(start, keys, entries, now, n - 1, before)
    requires BufferOf(before, keys[n - 1]) == BufferOf(start, keys[n - 1])
    requires after == Recorded(before, keys[n - 1], entries[keys[n - 1]].h1Volume, now)
    ensures ObservedOnce(start, keys, entries, now, n, after)
  {
    forall i | 0 <= i < n
      ensures BufferOf(after, keys[i]) == Observe(BufferOf(start, keys[i]), entries[keys[i]].h1Volume, now)
    {
      RecordedBufferOf(before, keys[n - 1], entries[keys[n - 1]].h1Volume, now, keys[i]);
      if i < n - 1 {
        assert keys[i] != keys[n - 1];
      }
    }
  }

  /**
   * With distinct keys, recording the first `n` of them gives each recorded pair the
   * buffer it had before the cycle with only its own observation of this cycle added.
   */
  lemma {:induction false} RecordPairsObserved(buffers: map<PairKey, seq<Observation>>, keys: seq<PairKey>,
                                               entries: map<PairKey, PairSnapshot>, now: int, n: nat)
    requires n <= |keys| && Covers(keys, entries) && DistinctPrefix(keys, n)
    ensures ObservedOnce(buffers, keys, entries, now, n, RecordPairs(buffers, keys, entries, now, n))
  {
    if n > 0 {
      assert DistinctPrefix(keys, n - 1);
      RecordPairsObserved(buffers, keys, entries, now, n - 1);
      RecordOthers(buffers, keys, entries, now, n - 1, keys[n - 1]);
      ObservedOnceStep(buffers, keys, entries, now, n, RecordPairs(buffers, keys, entries, now, n - 1),
                       RecordPairs(buffers, keys, entries, now, n));
    }
  }

  /** After a cycle, each merged pair's buffer is its buffer before the cycle with only its own observation added. */
  lemma RecordPairsAt(buffers: map<PairKey, seq<Observation>>, keys: seq<PairKey>,
                      entries: map<PairKey, PairSnapshot>, now: int, i: nat)
    requires Covers(keys, entries) && DistinctPrefix(keys, |keys|) && i < |keys|
    ensures BufferOf(RecordPairs(buffers, keys, entries, now, |keys|), keys[i]) ==
            Observe(BufferOf(buffers, keys[i]), entries[keys[i]].h1Volume, now)
  {
    RecordPairsObserved(buffers, keys, entries, now, |keys|);
    assert ObservedOnce(buffers, keys, entries, now, |keys|, RecordPairs(buffers, keys, entries, now, |keys|));
  }

  /** After a cycle every merged pair has a buffer, and no other key was added. */
  lemma {:induction false} RecordKeys(buffers: map<PairKey, seq<Observation>>, keys: seq<PairKey>,
                                      entries: map<PairKey, PairSnapshot>, now: int, n: nat)
    requires n <= |keys| && Covers(keys, entries)
    ensures forall k :: k in RecordPairs(buffers, keys, entries, now, n) <==> k in buffers || k in keys[..n]
  {
    if n > 0 {
      RecordKeys(buffers, keys, entries, now, n - 1);
      assert keys[..n] == keys[..n - 1] + [keys[n - 1]];
    }
  }

  /** A cycle keeps every buffer within capacity. */
  lemma {:induction false} RecordBounded(buffers: map<PairKey, seq<Observation>>, keys: seq<PairKey>,
                                         entries: map<PairKey, PairSnapshot>, now: int, n: nat)
    requires n <= |keys| && Covers(keys, entries)
    requires Bounded(buffers)
    ensures Bounded(RecordPairs(buffers, keys, entries, now, n))
  {
    if n > 0 {
      RecordBounded(buffers, keys, entries, now, n - 1);
      RecordedBounded(RecordPairs(buffers, keys, entries, now, n - 1), keys[n - 1], entries[keys[n - 1]].h1Volume, now);
    }
  }

  /**
   * Cycles run at non-decreasing times keep every buffer in time order, so each lookback
   * finds the oldest retained observation.
   */
  lemma {:induction false} RecordChronological(buffers: map<PairKey, seq<Observation>>, keys: seq<PairKey>,
                                               entries: map<PairKey, PairSnapshot>, since: int, now: int, n: nat)
    requires n <= |keys| && Covers(keys, entries)
    requires Chronological(buffers, since) && since <= now
    ensures Chronological(RecordPairs(buffers, keys, entries, now, n), now)
  {
    if n == 0 {
      forall k | k in buffers ensures NotAfter(buffers[k], now) {
        assert NotAfter(buffers[k], since);
      }
    } else {
      RecordChronological(buffers, keys, entries, since, now, n - 1);
      RecordedChronological(RecordPairs(buffers, keys, entries, now, n - 1), keys[n - 1],
                            entries[keys[n - 1]].h1Volume, now, now);
    }
  }

  /** A pair yields a report exactly when its core condition holds, at high severity exactly when the auxiliary one holds too. */
  lemma OutcomeCore(buffers: map<PairKey, seq<Observation>>, k: PairKey,
                    entries: map<PairKey, PairSnapshot>, now: int)
    requires k in entries
    ensures var v := Evaluate(entries[k], Observe(BufferOf(buffers, k), entries[k].h1Volume, now), now);
            (Outcome(buffers, k, entries, now).Some? <==> v.core) &&
            (Outcome(buffers, k, entries, now).Some? ==> (Outcome(buffers, k, entries, now).value.severity == High <==> v.aux))
  {
  }

  /**
   * The reports of a cycle are exactly those of the merged pairs, in dictionary order:
   * the outcome of pair `i` is its report when judged on its own buffer with this cycle's
   * observation added; every report in the list is the outcome of a merged pair at or
   * after its position; the report of every pair that has one is in the list, at the
   * number of reports before it; and a pair's report precedes those of later pairs. By
   * `OutcomeCore`, the reported pairs are those that met the core condition.
   */
  lemma CycleReports(start: map<PairKey, seq<Observation>>, keys: seq<PairKey>,
                     entries: map<PairKey, PairSnapshot>, now: int)
    requires Covers(keys, entries)
    ensures var outcomes := Outcomes(start, keys, entries, now);
            |outcomes| == |keys| &&
            forall i :: 0 <= i < |keys| ==> outcomes[i] == Outcome(start, keys[i], entries, now)
    ensures var outcomes := Outcomes(start, keys, entries, now);
            Sourced(outcomes, Kept(outcomes, |outcomes|), |outcomes|)
    ensures var outcomes := Outcomes(start, keys, entries, now);
            forall i :: 0 <= i < |outcomes| ==> PlacedAt(outcomes, Kept(outcomes, |outcomes|), i)
    ensures var outcomes := Outcomes(start, keys, entries, now);
            forall i, j :: 0 <= i < j <= |outcomes| && outcomes[i].Some? ==>
              CountReported(outcomes, i) < CountReported(outcomes, j)
  {
    var outcomes := Outcomes(start, keys, entries, now);
    KeptReports(outcomes, |outcomes|);
    forall i, j | 0 <= i < j <= |outcomes| && outcomes[i].Some?
      ensures CountReported(outcomes, i) < CountReported(outcomes, j)
    {
      CountReportedGrows(outcomes, i, j);
    }
  }

  /**
   * One more turn of the loop over the merged pairs: the pair at index `i` has not been
   * recorded before in this cycle, so its buffer is still the one from before the cycle,
   * and recording it extends the fold by one pair.
   */
  lemma AnalyseStep(start: map<PairKey, seq<Observation>>, keys: seq<PairKey>, entries: map<PairKey, PairSnapshot>,
                    now: int, i: nat, before: map<PairKey, seq<Observation>>)
    requires i < |keys| && Covers(keys, entries)
    requires forall j :: 0 <= j < i ==> keys[j] != keys[i]
    requires before == RecordPairs(start, keys, entries, now, i)
    ensures Recorded(before, keys[i], entries[keys[i]].h1Volume, now) == RecordPairs(start, keys, entries, now, i + 1)
    ensures BufferOf(before, keys[i]) == BufferOf(start, keys[i])
  {
    RecordOthers(start, keys, entries, now, i, keys[i]);
  }

  /** A pair judged on a buffer equal to its buffer in `start` has the outcome it has there. */
  lemma SameBufferSameOutcome(start: map<PairKey, seq<Observation>>, before: map<PairKey, seq<Observation>>,
                              k: PairKey, entries: map<PairKey, PairSnapshot>, now: int)
    requires k in entries && BufferOf(before, k) == BufferOf(start, k)
    ensures Assess(entries[k], Observe(BufferOf(before, k), entries[k].h1Volume, now), now) == Outcome(start, k, entries, now)
  {
  }

  /** Appending the report of outcome `i`, if it has one, extends the report list by that outcome. */
  lemma KeptStep(outcomes: seq<Option<Report>>, i: nat, reports: seq<Report>)
    requires i < |outcomes| && reports == Kept(outcomes, i)
    ensures (if outcomes[i].Some? then reports + [outcomes[i].value] else reports) == Kept(outcomes, i + 1)
  {
  }

  /**
   * One merged pair's turn in the cycle: record its observation, look up its baseline in
   * its own buffer, judge it, and return its report entry if it has one.
   */
  method AnalysePair(history: History, key: PairKey, pair: PairSnapshot, now: int) returns (entry: Option<Report>)
    requires history.Valid()
    modifies history
    ensures history.Valid()
    ensures history.buffers == Recorded(old(history.buffers), key, pair.h1Volume, now)
    ensures entry == Assess(pair, Observe(BufferOf(old(history.buffers), key), pair.h1Volume, now), now)
  {
    history.Record(key, pair.h1Volume, now);
    var baseline := history.Baseline(key, now);
    var verdict := Judge(pair, baseline, now);
    entry := ReportFor(pair, verdict);
  }

  /**
   * One call of the detection function: merge the searches' results and the direct
   * lookup's, stop at once when nothing was found, and otherwise record and judge every
   * merged pair in dictionary order, collecting the reports.
   */
  method DetectCycle(history: History, batches: seq<seq<PairSnapshot>>, fetched: seq<PairSnapshot>, now: int)
    returns (reports: seq<Report>, queried: bool)
    requires history.Valid()
    modifies history
    ensures history.Valid()
    ensures queried == UserPairQueried(batches)
    ensures var t := Merged(batches, fetched);
            history.buffers == RecordPairs(old(history.buffers), t.order, t.entries, now, |t.order|) &&
            reports == Kept(Outcomes(old(history.buffers), t.order, t.entries, now), |t.order|)
    ensures Merged(batches, fetched).order == [] ==> history.buffers == old(history.buffers) && reports == []
  {
    var t;
    t, queried := MergePairs(batches, fetched);
    reports := [];
    if |t.order| == 0 {
      return;
    }
    reports := AnalysePairs(history, t, now);
  }

  /**
   * The loop over the merged pairs has handled the first `i` of them: the store holds what
   * recording them into `start` gives, and `reports` holds their reports in order.
   */
  ghost predicate Handled(start: map<PairKey, seq<Observation>>, buffers: map<PairKey, seq<Observation>>,
                          reports: seq<Report>, t: PairTable, now: int, i: nat)
  {
    Valid(t) && i <= |t.order| &&
    buffers == RecordPairs(start, t.order, t.entries, now, i) &&
    reports == Kept(Outcomes(start, t.order, t.entries, now), i)
  }

  /**
   * The turn of the merged pair at index `i`: record and judge it, and append its report,
   * if it has one, to the reports of the pairs before it.
   */
  method AnalyseNext(history: History, t: PairTable, now: int, i: nat,
                     ghost start: map<PairKey, seq<Observation>>, reports: seq<Report>)
    returns (extended: seq<Report>)
    requires i < |t.order| && history.Valid() && Handled(start, history.buffers, reports, t, now, i)
    modifies history
    ensures history.Valid() && Handled(start, history.buffers, extended, t, now, i + 1)
  {
    var key := t.order[i];
    ghost var before := history.buffers;
    var entry := AnalysePair(history, key, t.entries[key], now);
    AnalyseStep(start, t.order, t.entries, now, i, before);
    SameBufferSameOutcome(start, before, key, t.entries, now);
    KeptStep(Outcomes(start, t.order, t.entries, now), i, reports);
    extended := reports;
    if entry.Some? {
      extended := extended + [entry.value];
    }
  }

  /** The loop over the merged pairs in dictionary order, collecting the report list. */
  method AnalysePairs(history: History, t: PairTable, now: int) returns (reports: seq<Report>)
    requires history.Valid() && Valid(t)
    modifies history
    ensures history.Valid() && Handled(old(history.buffers), history.buffers, reports, t, now, |t.order|)
  {
    reports := [];
    ghost var start := history.buffers;
    for i := 0 to |t.order|
      invariant history.Valid() && Handled(start, history.buffers, reports, t, now, i)
    {
      reports := AnalyseNext(history, t, now, i, start, reports);
    }
  }
}
