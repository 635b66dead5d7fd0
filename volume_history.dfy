/**
 * The process-wide store of one-hour volume observations that the surge detector keeps
 * between polling cycles: one bounded FIFO buffer per pair address, and the five-minute
 * lookback that picks a baseline out of a buffer.
 */
module VolumeHistory {
  import opened Wrappers
  import opened Numbers

  /** `deque(maxlen=20)`: a pair's buffer never holds more than this many observations. */
  const Capacity: nat := 20

  /** Five minutes in milliseconds, the age a baseline observation must at least have. */
  const LookbackMs: int := 300000

  /** One sample: when it was taken (milliseconds) and the one-hour volume then reported. */
  datatype Observation = Observation(ts: int, volume: real)

  /**
   * The key of a pair in the store. A pair merged in from the direct lookup may lack
   * an address, and the store then keys it by the missing value.
   */
  type PairKey = Option<string>

  /** Timestamps never decrease from the oldest observation to the newest. */
  predicate Ordered(buf: seq<Observation>) {
    forall i, j :: 0 <= i < j < |buf| ==> buf[i].ts <= buf[j].ts
  }

  /** No observation was taken after `now`. */
  predicate NotAfter(buf: seq<Observation>, now: int) {
    forall i :: 0 <= i < |buf| ==> buf[i].ts <= now
  }

  /**
   * `buf.append(o)` on a deque bounded by `Capacity`: the new observation goes last and,
   * when the buffer would overflow, the oldest entries fall off the front.
   */
  function Append(buf: seq<Observation>, o: Observation): (r: seq<Observation>)
    ensures |r| == if |buf| + 1 <= Capacity then |buf| + 1 else Capacity
    ensures r[|r| - 1] == o
    ensures r[..|r| - 1] == buf[|buf| + 1 - |r|..]
  {
    var s := buf + [o];
    if |s| <= Capacity then s else s[|s| - Capacity..]
  }

  /** Below capacity, appending only adds the observation at the end. */
  lemma AppendBelowCapacity(buf: seq<Observation>, o: Observation)
    requires |buf| < Capacity
    ensures Append(buf, o) == buf + [o]
  {
  }

  /** On a full buffer, appending drops exactly the oldest entry and shifts the rest forward. */
  lemma AppendAtCapacity(buf: seq<Observation>, o: Observation)
    requires |buf| == Capacity
    ensures Append(buf, o) == buf[1..] + [o]
    ensures forall i :: 0 <= i < Capacity - 1 ==> Append(buf, o)[i] == buf[i + 1]
  {
    assert Append(buf, o) == (buf + [o])[1..];
  }

  /** Appending an observation taken no earlier than the newest one keeps the buffer ordered. */
  lemma AppendOrdered(buf: seq<Observation>, o: Observation)
    requires Ordered(buf) && NotAfter(buf, o.ts)
    ensures Ordered(Append(buf, o)) && NotAfter(Append(buf, o), o.ts)
  {
    var s := buf + [o];
    assert Ordered(s);
  }

  /**
   * The lookback: the volume of the FIRST observation in buffer order that was taken at
   * or before `cutoff`, and `None` when there is none. It is the first match, not the
   * observation nearest to the cutoff.
   */
  function VolumeAsOf(buf: seq<Observation>, cutoff: int): (r: Option<real>)
    ensures r.None? <==> forall i :: 0 <= i < |buf| ==> buf[i].ts > cutoff
    ensures r.Some? ==> exists i :: 0 <= i < |buf| && buf[i].ts <= cutoff && r.value == buf[i].volume
                                    && forall j :: 0 <= j < i ==> buf[j].ts > cutoff
  {
    if buf == [] then None
    else if buf[0].ts <= cutoff then Some(buf[0].volume)
    else
      var r := VolumeAsOf(buf[1..], cutoff);
      assert r.Some? ==> exists i :: 0 < i < |buf| && buf[i].ts <= cutoff && r.value == buf[i].volume
                                     && forall j :: 0 <= j < i ==> buf[j].ts > cutoff by {
        if r.Some? {
          var k :| 0 <= k < |buf| - 1 && buf[1..][k].ts <= cutoff && r.value == buf[1..][k].volume
                   && forall j :: 0 <= j < k ==> buf[1..][j].ts > cutoff;
          assert forall j :: 0 <= j < k + 1 ==> buf[j].ts > cutoff by {
            forall j | 0 < j < k + 1 ensures buf[j].ts > cutoff {
              assert buf[j] == buf[1..][j - 1];
            }
          }
        }
      }
      r
  }

  /** The scan of the lookback: walk the buffer oldest first and stop at the first match. */
  method FindVolumeAsOf(buf: seq<Observation>, cutoff: int) returns (r: Option<real>)
    ensures r == VolumeAsOf(buf, cutoff)
  {
    r := None;
    var i := 0;
    while i < |buf|
      invariant 0 <= i <= |buf|
      invariant VolumeAsOf(buf[i..], cutoff) == VolumeAsOf(buf, cutoff)
      invariant r.None?
    {
      if buf[i].ts <= cutoff {
        r := Some(buf[i].volume);
        break;
      }
      assert buf[i..][1..] == buf[i + 1..];
      i := i + 1;
    }
  }

  /**
   * With ordered timestamps the first match is the oldest observation: the lookback yields
   * the oldest entry's volume exactly when that entry is old enough, and nothing otherwise.
   */
  lemma OrderedLookback(buf: seq<Observation>, cutoff: int)
    requires Ordered(buf) && buf != []
    ensures VolumeAsOf(buf, cutoff) == if buf[0].ts <= cutoff then Some(buf[0].volume) else None
  {
    if buf[0].ts > cutoff {
      assert forall i :: 0 <= i < |buf| ==> buf[i].ts > cutoff by {
        forall i | 0 <= i < |buf| ensures buf[i].ts > cutoff {
          assert buf[0].ts <= buf[i].ts || i == 0;
        }
      }
    }
  }

  /**
   * Observations of volume 100, 200 and 300 taken at minutes 0, 2 and 4, looked up at
   * minute 9 (cutoff minute 4): the scan stops at the first entry, minute 0, although the
   * entry at minute 4 is the one nearest to the cutoff.
   */
  lemma FirstMatchNotNearest()
    ensures VolumeAsOf([Observation(0, 100.0), Observation(120000, 200.0), Observation(240000, 300.0)],
                       540000 - LookbackMs) == Some(100.0)
  {
  }

  /**
   * The observation appended at `now` is never chosen as the baseline of the same cycle:
   * with a positive lookback, the result is what the older entries alone give.
   */
  lemma {:induction false} NewestNeverChosen(buf: seq<Observation>, now: int, v: real)
    ensures VolumeAsOf(buf + [Observation(now, v)], now - LookbackMs) == VolumeAsOf(buf, now - LookbackMs)
  {
    if buf != [] {
      assert (buf + [Observation(now, v)])[1..] == buf[1..] + [Observation(now, v)];
      NewestNeverChosen(buf[1..], now, v);
    }
  }

  /** The same holds after an append that evicted: the newest entry is still never the baseline. */
  lemma NewestNeverChosenAfterAppend(buf: seq<Observation>, now: int, v: real)
    requires |buf| <= Capacity
    ensures var r := Append(buf, Observation(now, v));
            VolumeAsOf(r, now - LookbackMs) == VolumeAsOf(r[..|r| - 1], now - LookbackMs)
  {
    var r := Append(buf, Observation(now, v));
    assert r == r[..|r| - 1] + [Observation(now, v)];
    NewestNeverChosen(r[..|r| - 1], now, v);
  }

  /**
   * What one cycle does to one pair's buffer: an observation at `now` is appended exactly
   * when the one-hour volume is present and `float()` accepts it.
   */
  function Observe(buf: seq<Observation>, h1: Option<Scalar>, now: int): (r: seq<Observation>)
    ensures |buf| <= Capacity ==> |r| <= Capacity
    ensures !(h1.Some? && Float(h1.value).Some?) ==> r == buf
    ensures h1.Some? && Float(h1.value).Some? ==>
              0 < |r| <= |buf| + 1 && r[|r| - 1] == Observation(now, Float(h1.value).value) && r[..|r| - 1] == buf[|buf| + 1 - |r|..]
  {
    if h1.Some? && Float(h1.value).Some? then Append(buf, Observation(now, Float(h1.value).value)) else buf
  }

  /** The buffer stored under `key`, empty when none was created yet. */
  function BufferOf(buffers: map<PairKey, seq<Observation>>, key: PairKey): (buf: seq<Observation>) {
    if key in buffers then buffers[key] else []
  }

  /** Every buffer is within capacity. */
  predicate Bounded(buffers: map<PairKey, seq<Observation>>) {
    forall k :: k in buffers ==> |buffers[k]| <= Capacity
  }

  /** Every buffer is ordered and holds no observation later than `now`. */
  predicate Chronological(buffers: map<PairKey, seq<Observation>>, now: int) {
    forall k :: k in buffers ==> Ordered(buffers[k]) && NotAfter(buffers[k], now)
  }

  /** Recording a pair at `now` in the store, as a function of the store's contents. */
  function Recorded(buffers: map<PairKey, seq<Observation>>, key: PairKey, h1: Option<Scalar>, now: int)
    : (r: map<PairKey, seq<Observation>>)
    ensures r.Keys == buffers.Keys + {key}
    ensures forall k :: k in buffers && k != key ==> r[k] == buffers[k]
  {
    buffers[key := Observe(BufferOf(buffers, key), h1, now)]
  }

  /**
   * Seen through `BufferOf`, recording under `key` gives that pair its buffer with the
   * observation added, and leaves every other pair's buffer, present or not, as it was.
   */
  lemma RecordedBufferOf(buffers: map<PairKey, seq<Observation>>, key: PairKey, h1: Option<Scalar>, now: int, k: PairKey)
    ensures BufferOf(Recorded(buffers, key, h1, now), k) ==
            if k == key then Observe(BufferOf(buffers, key), h1, now) else BufferOf(buffers, k)
  {
  }

  /** Recording keeps every buffer within capacity. */
  lemma RecordedBounded(buffers: map<PairKey, seq<Observation>>, key: PairKey, h1: Option<Scalar>, now: int)
    requires Bounded(buffers)
    ensures Bounded(Recorded(buffers, key, h1, now))
  {
  }

  /** Observing at a time no earlier than any buffered observation keeps the buffer in time order. */
  lemma ObserveOrdered(buf: seq<Observation>, h1: Option<Scalar>, now: int)
    requires Ordered(buf) && NotAfter(buf, now)
    ensures Ordered(Observe(buf, h1, now)) && NotAfter(Observe(buf, h1, now), now)
  {
    if h1.Some? && Float(h1.value).Some? {
      AppendOrdered(buf, Observation(now, Float(h1.value).value));
    }
  }

  /** A buffer with nothing later than `since` has nothing later than any `now` after it. */
  lemma NotAfterLater(buf: seq<Observation>, since: int, now: int)
    requires NotAfter(buf, since) && since <= now
    ensures NotAfter(buf, now)
  {
  }

  /** Recording at a time no earlier than any stored observation keeps every buffer in time order. */
  lemma RecordedChronological(buffers: map<PairKey, seq<Observation>>, key: PairKey, h1: Option<Scalar>,
                              since: int, now: int)
    requires Chronological(buffers, since) && since <= now
    ensures Chronological(Recorded(buffers, key, h1, now), now)
  {
    var r := Recorded(buffers, key, h1, now);
    forall k | k in r ensures Ordered(r[k]) && NotAfter(r[k], now) {
      if k == key {
        var b := BufferOf(buffers, key);
        if key in buffers {
          NotAfterLater(b, since, now);
        }
        ObserveOrdered(b, h1, now);
      } else {
        NotAfterLater(buffers[k], since, now);
      }
    }
  }

  /** The store itself: the map from pair key to buffer that lives across cycles. */
  class History {
    var buffers: map<PairKey, seq<Observation>>

    ghost predicate Valid()
      reads this
    {
      Bounded(buffers)
    }

    /** The store starts empty. */
    constructor ()
      ensures Valid() && buffers == map[]
    {
      buffers := map[];
    }

    /** The buffer of `key`, empty when the pair was never seen. */
    function Buffer(key: PairKey): (buf: seq<Observation>)
      reads this
    {
      BufferOf(buffers, key)
    }

    /**
     * One pair's turn in a cycle: its buffer is created if missing, and the observation
     * `(now, float(h1))` is appended when the volume is present and parses. No other
     * pair's buffer changes.
     */
    method Record(key: PairKey, h1: Option<Scalar>, now: int)
      requires Valid()
      modifies this
      ensures Valid()
      ensures buffers == Recorded(old(buffers), key, h1, now)
      ensures key in buffers && buffers[key] == Observe(old(Buffer(key)), h1, now)
      ensures forall k :: k != key ==> (k in buffers <==> k in old(buffers))
      ensures forall k :: k in old(buffers) && k != key ==> buffers[k] == old(buffers)[k]
    {
      RecordedBounded(buffers, key, h1, now);
      var buf := Buffer(key);
      if h1.Some? {
        var v := Float(h1.value);
        if v.Some? {
          buf := Append(buf, Observation(now, v.value));
        }
      }
      buffers := buffers[key := buf];
    }

    /** The baseline of this cycle: the lookback over `key`'s buffer, five minutes before `now`. */
    method Baseline(key: PairKey, now: int) returns (r: Option<real>)
      ensures r == VolumeAsOf(Buffer(key), now - LookbackMs)
    {
      r := FindVolumeAsOf(Buffer(key), now - LookbackMs);
    }
  }
}
