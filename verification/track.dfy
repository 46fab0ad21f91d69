/** A muon track: a particle moving in a straight line that loses energy on
    the way. The constructor records checkpoints, where the absolute energy
    is known, and running sums of the stochastic losses between them;
    `GetEnergy`, `GetPos` and `GetTime` read the track at a down-track
    distance. Distances and energies are reals, and a query distance is an
    `Option<Ext>` so that NaN and the infinities can be passed to the range
    guard. */
module Track {
  import opened Wrappers
  import opened Vectors
  import opened Extended

  /** A point at which the absolute energy is known; `offset` is the index
      of the first loss record after it. */
  datatype Checkpoint = Checkpoint(length: real, energy: real, offset: nat)

  /** The sum of stochastic losses since the last checkpoint, up to `length`. */
  datatype LossSum = LossSum(length: real, energy: real)

  /** A daughter of the track in the MC tree, placed by its down-track
      distance. */
  datatype Secondary = Secondary(length: real, energy: real)

  /** What the constructor reads from the MMC record: the energies at the
      entry to and exit from the propagation volume (zero when the track
      did not cross that boundary) and the down-track distances of those
      two points. */
  datatype Crossing = Crossing(ei: real, entryLength: real, ef: real, exitLength: real)

  datatype Track = Track(
    pos: Vec3, dir: Vec3, time: real, speed: real,
    length: real, energy: real,
    checkpoints: seq<Checkpoint>,
    losses: seq<LossSum>)

  /** Total energy of a list of secondaries. */
  function Total(secs: seq<Secondary>): real {
    if |secs| == 0 then 0.0 else Total(secs[..|secs| - 1]) + secs[|secs| - 1].energy
  }

  /** One loss record per secondary, at its distance, holding the energy
      lost to it and to every secondary before it. */
  function RunningSums(secs: seq<Secondary>): (r: seq<LossSum>)
    ensures |r| == |secs|
  {
    if |secs| == 0 then []
    else RunningSums(secs[..|secs| - 1]) + [LossSum(secs[|secs| - 1].length, Total(secs))]
  }

  /** Record `i` sits at secondary `i` and holds the total of secondaries
      `0..i`. */
  lemma {:induction false} RunningSumsAt(secs: seq<Secondary>, i: nat)
    requires i < |secs|
    ensures RunningSums(secs)[i] == LossSum(secs[i].length, Total(secs[..i + 1]))
  {
    var n := |secs|;
    if i < n - 1 {
      RunningSumsAt(secs[..n - 1], i);
      assert secs[..n - 1][..i + 1] == secs[..i + 1];
    } else {
      assert secs[..i + 1] == secs;
    }
  }

  /** With non-negative secondary energies the running sums never decrease. */
  lemma {:induction false} RunningSumsIncrease(secs: seq<Secondary>, i: nat, j: nat)
    requires i <= j < |secs|
    requires forall k :: 0 <= k < |secs| ==> secs[k].energy >= 0.0
    ensures RunningSums(secs)[i].energy <= RunningSums(secs)[j].energy
  {
    var upToJ := secs[..j + 1];
    assert upToJ[..i + 1] == secs[..i + 1];
    TotalGrows(upToJ, i + 1);
    RunningSumsAt(secs, i);
    RunningSumsAt(secs, j);
  }

  lemma {:induction false} TotalGrows(secs: seq<Secondary>, m: nat)
    requires m <= |secs|
    requires forall k :: 0 <= k < |secs| ==> secs[k].energy >= 0.0
    ensures Total(secs[..m]) <= Total(secs)
  {
    if m < |secs| {
      var n := |secs|;
      assert secs[..n - 1][..m] == secs[..m];
      assert secs[n - 1].energy >= 0.0;
      TotalGrows(secs[..n - 1], m);
    } else {
      assert secs[..m] == secs;
    }
  }

  /** The loop of the constructor over the secondaries: it accumulates the
      lost energy and appends one running-sum record per secondary. */
  method CollectLosses(secs: seq<Secondary>) returns (records: seq<LossSum>, elost: real)
    ensures records == RunningSums(secs)
    ensures elost == Total(secs)
  {
    records, elost := [], 0.0;
    var i := 0;
    while i < |secs|
      invariant 0 <= i <= |secs|
      invariant records == RunningSums(secs[..i]) && elost == Total(secs[..i])
    {
      elost := elost + secs[i].energy;
      records := records + [LossSum(secs[i].length, elost)];
      assert secs[..i + 1][..i] == secs[..i];
      i := i + 1;
    }
    assert secs[..i] == secs;
  }

  function Last<T>(s: seq<T>): T
    requires |s| > 0
  {
    s[|s| - 1]
  }

  /** The constructor. The first checkpoint is the vertex with the initial
      energy. A positive entry energy adds an entry checkpoint preceded by
      an empty loss record at the vertex; the secondaries follow as running
      sums; a positive exit energy adds a loss record with the total at the
      last checkpoint's distance and an exit checkpoint, after which the sum
      restarts at zero. A final loss record and a final checkpoint with no
      energy close the track at its length. */
  function Build(pos: Vec3, dir: Vec3, time: real, speed: real, length: real, energy: real,
                 mmc: Crossing, secs: seq<Secondary>): (t: Track)
    ensures var entry, exit := (if mmc.ei > 0.0 then 1 else 0), (if mmc.ef > 0.0 then 1 else 0);
      && |t.checkpoints| == 2 + entry + exit
      && |t.losses| == entry + |secs| + exit + 1
    ensures t.checkpoints[0] == Checkpoint(0.0, energy, 0)
    ensures Last(t.checkpoints) == Checkpoint(length, 0.0, |t.losses|)
    ensures t.length == length && t.energy == energy
    ensures Last(t.losses).length == length
    ensures mmc.ef > 0.0 ==> Last(t.losses).energy == 0.0 && t.losses[|t.losses| - 2].energy == Total(secs)
    ensures mmc.ef <= 0.0 ==> Last(t.losses).energy == Total(secs)
  {
    var cps := [Checkpoint(0.0, energy, 0)] + (if mmc.ei > 0.0 then [Checkpoint(mmc.entryLength, mmc.ei, 1)] else []);
    var losses := (if mmc.ei > 0.0 then [LossSum(0.0, 0.0)] else []) + RunningSums(secs);
    var elost := Total(secs);
    var exitLoss := if mmc.ef > 0.0 then [LossSum(Last(cps).length, elost)] else [];
    var exitCp := if mmc.ef > 0.0 then [Checkpoint(mmc.exitLength, mmc.ef, |losses| + 1)] else [];
    var all := losses + exitLoss + [LossSum(length, if mmc.ef > 0.0 then 0.0 else elost)];
    Track(pos, dir, time, speed, length, energy, cps + exitCp + [Checkpoint(length, 0.0, |all|)], all)
  }

  /** The shape the constructor guarantees: checkpoints from distance 0 to
      the track length, the first at loss 0 and the last after every loss
      record, offsets non-decreasing, every checkpoint but the last followed
      by at least one loss record, and the final loss record at the track
      length. */
  predicate Layout(t: Track) {
    var cps, n := t.checkpoints, |t.checkpoints|;
    && n >= 2 && |t.losses| >= 1
    && cps[0].length == 0.0 && cps[0].offset == 0
    && cps[n - 1].length == t.length && cps[n - 1].offset == |t.losses|
    && Last(t.losses).length == t.length
    && (forall i :: 0 <= i < n - 1 ==> cps[i].offset < |t.losses|)
    && (forall i :: 0 < i < n ==> cps[i].offset >= 1)
    && (forall i :: 0 <= i < n - 1 ==> cps[i].offset <= cps[i + 1].offset)
  }

  /** Every track the constructor builds has the layout. */
  lemma BuildLayout(pos: Vec3, dir: Vec3, time: real, speed: real, length: real, energy: real,
                    mmc: Crossing, secs: seq<Secondary>)
    ensures Layout(Build(pos, dir, time, speed, length, energy, mmc, secs))
  {
    var t := Build(pos, dir, time, speed, length, energy, mmc, secs);
  }

  /** `length` is a number in `[0, GetLength())`. */
  predicate InRange(t: Track, length: Option<Ext>) {
    IsFinite(length) && 0.0 <= length.value.v < t.length
  }

  /** `std::lower_bound` on the checkpoints from `k`: the first with
      distance at least `x`, or the end. */
  function LowerBound(cps: seq<Checkpoint>, x: real, k: nat): (j: nat)
    requires k <= |cps|
    ensures k <= j <= |cps|
    ensures forall i :: k <= i < j ==> cps[i].length < x
    ensures j < |cps| ==> cps[j].length >= x
    decreases |cps| - k
  {
    if k == |cps| || cps[k].length >= x then k else LowerBound(cps, x, k + 1)
  }

  /** `std::upper_bound` on the checkpoints from `k`: the first with
      distance above `x`, or the end. */
  function UpperBound(cps: seq<Checkpoint>, x: real, k: nat): (j: nat)
    requires k <= |cps|
    ensures k <= j <= |cps|
    ensures forall i :: k <= i < j ==> cps[i].length <= x
    ensures j < |cps| ==> cps[j].length > x
    decreases |cps| - k
  {
    if k == |cps| || cps[k].length > x then k else UpperBound(cps, x, k + 1)
  }

  /** `std::lower_bound` on the loss records `[lo, hi)`: the first with
      distance at least `x`, or `hi`. */
  function LossLowerBound(ls: seq<LossSum>, x: real, lo: nat, hi: nat): (j: nat)
    requires lo <= hi <= |ls|
    ensures lo <= j <= hi
    ensures forall i :: lo <= i < j ==> ls[i].length < x
    ensures j < hi ==> ls[j].length >= x
    decreases hi - lo
  {
    if lo == hi || ls[lo].length >= x then lo else LossLowerBound(ls, x, lo + 1, hi)
  }

  /** `std::upper_bound` on the loss records `[lo, hi)`: the first with
      distance above `x`, or `hi`. */
  function LossUpperBound(ls: seq<LossSum>, x: real, lo: nat, hi: nat): (j: nat)
    requires lo <= hi <= |ls|
    ensures lo <= j <= hi
    ensures forall i :: lo <= i < j ==> ls[i].length <= x
    ensures j < hi ==> ls[j].length > x
    decreases hi - lo
  {
    if lo == hi || ls[lo].length > x then lo else LossUpperBound(ls, x, lo + 1, hi)
  }

  /** The loss read of `GetEnergy` as written: the running sum of the first
      record at or beyond the query (`lower_bound`), which already counts a
      loss that lies further down the track. `None` when that record is past
      the end of the loss vector. */
  function LossSoFarAsWritten(ls: seq<LossSum>, x: real, lo: nat, hi: nat): (r: Option<real>)
    requires lo <= hi <= |ls|
    ensures r.None? <==> LossLowerBound(ls, x, lo, hi) == |ls|
    ensures lo < hi && ls[lo].length >= x ==> r == Some(ls[lo].energy)
  {
    var j := LossLowerBound(ls, x, lo, hi);
    if j < |ls| then Some(ls[j].energy) else None
  }

  /** Record `j` of `[lo, hi)` is the last of a run of records at or
      before `x` that starts at `lo`. */
  predicate LastAtOrBefore(ls: seq<LossSum>, x: real, lo: nat, hi: nat, j: nat)
    requires hi <= |ls|
  {
    && lo <= j < hi
    && (forall i :: lo <= i <= j ==> ls[i].length <= x)
    && (j + 1 == hi || ls[j + 1].length > x)
  }

  /** The running sum at the query: that of the last record of `[lo, hi)` at
      or before it (`upper_bound` minus one), or 0 when the first record is
      already beyond it. */
  function LossSoFar(ls: seq<LossSum>, x: real, lo: nat, hi: nat): (r: real)
    requires lo <= hi <= |ls|
    ensures lo == hi || ls[lo].length > x ==> r == 0.0
    ensures forall j: nat :: LastAtOrBefore(ls, x, lo, hi, j) ==> r == ls[j].energy
  {
    var j := LossUpperBound(ls, x, lo, hi);
    if j == lo then 0.0 else ls[j - 1].energy
  }

  /** What `GetEnergy` reads once it has chosen a checkpoint: that
      checkpoint, the next one, the total stochastic loss of the segment
      between them (`l2 - 1`) and the running sum found for the query
      (`ls`). */
  datatype Segment = Segment(start: Checkpoint, next: Checkpoint, segmentLoss: real, lossSoFar: real)

  /** The reads of `GetEnergy` as written from checkpoint `cp` on, failing
      where one of them would fall outside the checkpoint or loss vectors,
      and when the segment has zero length (a division by zero). */
  function ReadSegmentAsWritten(t: Track, x: real, cp: nat): (r: Result<Segment, string>)
    ensures r.Success? ==>
      && cp + 1 < |t.checkpoints| && r.value.start == t.checkpoints[cp]
      && r.value.next == t.checkpoints[cp + 1] && r.value.start.length != r.value.next.length
    ensures r.Success? ==>
      && t.checkpoints[cp].offset <= t.checkpoints[cp + 1].offset <= |t.losses|
      && LossSoFarAsWritten(t.losses, x, t.checkpoints[cp].offset, t.checkpoints[cp + 1].offset)
         == Some(r.value.lossSoFar)
  {
    if cp + 1 >= |t.checkpoints| then Failure("cp + 1 is past the last checkpoint")
    else
      var l1, l2 := t.checkpoints[cp].offset, t.checkpoints[cp + 1].offset;
      if !(l1 <= l2 <= |t.losses|) then Failure("loss range outside the loss records")
      else if l2 == 0 then Failure("l2 - 1 is before the first loss record")
      else
        match LossSoFarAsWritten(t.losses, x, l1, l2)
        case None => Failure("ls is past the last loss record")
        case Some(lost) =>
          if t.checkpoints[cp + 1].length == t.checkpoints[cp].length then Failure("segment of zero length")
          else Success(Segment(t.checkpoints[cp], t.checkpoints[cp + 1], t.losses[l2 - 1].energy, lost))
  }

  /** The reads of `GetEnergy` with the loss lookup corrected: the running
      sum is that of the last record at or before the query. */
  function ReadSegment(t: Track, x: real, cp: nat): (r: Result<Segment, string>)
    ensures r.Success? ==>
      && cp + 1 < |t.checkpoints| && r.value.start == t.checkpoints[cp]
      && r.value.next == t.checkpoints[cp + 1] && r.value.start.length != r.value.next.length
    ensures r.Success? ==>
      && t.checkpoints[cp].offset <= t.checkpoints[cp + 1].offset <= |t.losses|
      && r.value.lossSoFar == LossSoFar(t.losses, x, t.checkpoints[cp].offset, t.checkpoints[cp + 1].offset)
  {
    if cp + 1 >= |t.checkpoints| then Failure("cp + 1 is past the last checkpoint")
    else
      var l1, l2 := t.checkpoints[cp].offset, t.checkpoints[cp + 1].offset;
      if !(l1 <= l2 <= |t.losses|) then Failure("loss range outside the loss records")
      else if l2 == 0 then Failure("l2 - 1 is before the first loss record")
      else if t.checkpoints[cp + 1].length == t.checkpoints[cp].length then Failure("segment of zero length")
      else Success(Segment(t.checkpoints[cp], t.checkpoints[cp + 1], t.losses[l2 - 1].energy,
                           LossSoFar(t.losses, x, l1, l2)))
  }

  /** The energy at `x` inside a segment, with the continuous-loss rate as
      written: next energy minus start energy minus stochastic losses. */
  function SegmentEnergyAsWritten(s: Segment, x: real): (r: real)
    requires s.next.length != s.start.length
    ensures x == s.start.length ==> r == s.start.energy - s.lossSoFar
    ensures x == s.next.length ==> r == 2.0 * s.start.energy - s.next.energy + s.segmentLoss - s.lossSoFar
  {
    var d := s.next.length - s.start.length;
    var rate := (s.next.energy - s.start.energy - s.segmentLoss) / d;
    QuotientTimesDivisor(s.next.energy - s.start.energy - s.segmentLoss, d);
    s.start.energy - s.lossSoFar - rate * (x - s.start.length)
  }

  /** The energy at `x` inside a segment, with the continuous-loss rate the
      energy actually lost per unit length apart from the stochastic
      losses. */
  function SegmentEnergy(s: Segment, x: real): (r: real)
    requires s.next.length != s.start.length
    ensures x == s.start.length ==> r == s.start.energy - s.lossSoFar
    ensures x == s.next.length ==> r == s.next.energy + s.segmentLoss - s.lossSoFar
  {
    var d := s.next.length - s.start.length;
    var rate := (s.start.energy - s.next.energy - s.segmentLoss) / d;
    QuotientTimesDivisor(s.start.energy - s.next.energy - s.segmentLoss, d);
    s.start.energy - s.lossSoFar - rate * (x - s.start.length)
  }

  /** With the corrected rate the energy is the start checkpoint's energy at
      its distance before any loss, and the next checkpoint's energy at
      its distance once every stochastic loss of the segment is counted. */
  lemma SegmentEnergyHitsCheckpoints(s: Segment)
    requires s.next.length != s.start.length
    ensures SegmentEnergy(s.(lossSoFar := 0.0), s.start.length) == s.start.energy
    ensures SegmentEnergy(s.(lossSoFar := s.segmentLoss), s.next.length) == s.next.energy
  {
    var d := s.next.length - s.start.length;
    var e := s.start.energy - s.next.energy - s.segmentLoss;
    QuotientTimesDivisor(e, d);
  }

  lemma QuotientTimesDivisor(e: real, d: real)
    requires d != 0.0
    ensures (e / d) * d == e
  {
  }

  /** With the rate as written the energy at the end of a segment is
      `2*start - next` whatever the losses: it differs from the next
      checkpoint's energy unless the two checkpoints agree. */
  lemma SegmentEnergyAsWrittenOvershoots(s: Segment)
    requires s.next.length != s.start.length
    ensures SegmentEnergyAsWritten(s.(lossSoFar := s.segmentLoss), s.next.length)
      == 2.0 * s.start.energy - s.next.energy
  {
    var d := s.next.length - s.start.length;
    QuotientTimesDivisor(s.next.energy - s.start.energy - s.segmentLoss, d);
  }

  /** A segment losing 50 of 100 continuously over length 10 ends at 150. */
  lemma SegmentEnergyAsWrittenExample()
    ensures var s := Segment(Checkpoint(0.0, 100.0, 0), Checkpoint(10.0, 50.0, 1), 0.0, 0.0);
      SegmentEnergyAsWritten(s, 10.0) == 150.0 && SegmentEnergy(s, 10.0) == 50.0
  {
    var s := Segment(Checkpoint(0.0, 100.0, 0), Checkpoint(10.0, 50.0, 1), 0.0, 0.0);
    SegmentEnergyAsWrittenOvershoots(s);
    SegmentEnergyHitsCheckpoints(s);
  }

  /** `GetEnergy` as written: out of range it is 0; otherwise `lower_bound`
      picks the first checkpoint at or beyond the query, and a failure marks
      a read outside the checkpoint or loss vectors. */
  function GetEnergyAsWritten(t: Track, length: Option<Ext>): (r: Result<real, string>)
    ensures !InRange(t, length) ==> r == Success(0.0)
  {
    if !InRange(t, length) then Success(0.0)
    else
      var x := length.value.v;
      var s :- ReadSegmentAsWritten(t, x, LowerBound(t.checkpoints, x, 0));
      Success(SegmentEnergyAsWritten(s, x))
  }

  /** The checkpoint the lookup ought to pick: the last one at or before
      the query (`upper_bound - 1`). */
  function StartCheckpoint(t: Track, x: real): (r: Option<nat>)
    ensures r.Some? ==> r.value < |t.checkpoints| && t.checkpoints[r.value].length <= x
    ensures r.Some? && r.value + 1 < |t.checkpoints| ==> t.checkpoints[r.value + 1].length > x
  {
    var j := UpperBound(t.checkpoints, x, 0);
    if j == 0 then None else Some(j - 1)
  }

  /** `GetEnergy` with the checkpoint lookup, the loss lookup and the
      continuous-loss rate corrected. */
  function GetEnergy(t: Track, length: Option<Ext>): (r: Result<real, string>)
    ensures !InRange(t, length) ==> r == Success(0.0)
  {
    if !InRange(t, length) then Success(0.0)
    else
      var x := length.value.v;
      match StartCheckpoint(t, x)
      case None => Failure("no checkpoint at or before the query")
      case Some(cp) =>
        var s :- ReadSegment(t, x, cp);
        Success(SegmentEnergy(s, x))
  }

  /** The claim of the comment in `GetEnergy`, which holds for the corrected
      lookup: on a track with the constructor's layout, every in-range
      query finds a checkpoint at or before it and a next one beyond it,
      and every read stays inside the vectors. */
  lemma GetEnergyInBounds(t: Track, length: Option<Ext>)
    requires Layout(t) && InRange(t, length)
    ensures var x := length.value.v;
      var cp := StartCheckpoint(t, x);
      && cp.Some? && cp.value + 1 < |t.checkpoints|
      && t.checkpoints[cp.value].length <= x < t.checkpoints[cp.value + 1].length
      && ReadSegment(t, x, cp.value).Success?
    ensures GetEnergy(t, length).Success?
  {
    var x := length.value.v;
    var cps, n := t.checkpoints, |t.checkpoints|;
    var j := UpperBound(cps, x, 0);
    assert cps[0].length <= x;
    assert cps[n - 1].length > x;
    var cp := j - 1;
    var l1, l2 := cps[cp].offset, cps[j].offset;
    assert l1 <= l2 <= |t.losses| && l2 >= 1;
  }

  /** Every in-range query of a constructed track has an energy. */
  lemma BuiltTrackHasEnergy(pos: Vec3, dir: Vec3, time: real, speed: real, length: real, energy: real,
                            mmc: Crossing, secs: seq<Secondary>, q: Option<Ext>)
    requires InRange(Build(pos, dir, time, speed, length, energy, mmc, secs), q)
    ensures GetEnergy(Build(pos, dir, time, speed, length, energy, mmc, secs), q).Success?
  {
    BuildLayout(pos, dir, time, speed, length, energy, mmc, secs);
    GetEnergyInBounds(Build(pos, dir, time, speed, length, energy, mmc, secs), q);
  }

  /** The comment's claim fails as written: once the query lies beyond
      every checkpoint but the last, `lower_bound` returns the last
      checkpoint and `cp + 1` is the end of the vector. */
  lemma LowerBoundRunsOffEnd(t: Track, length: Option<Ext>)
    requires Layout(t) && InRange(t, length)
    requires forall i :: 0 <= i < |t.checkpoints| - 1 ==> t.checkpoints[i].length < length.value.v
    ensures GetEnergyAsWritten(t, length).Failure?
  {
    var x := length.value.v;
    assert LowerBound(t.checkpoints, x, 0) == |t.checkpoints| - 1;
  }

  /** A track of length 10 with no MMC crossing and no secondaries: its
      checkpoints sit at 0 and 10, and a query at 5 runs off the end as
      written while the corrected lookup gives 50 of the initial 100. */
  lemma LowerBoundExample()
    ensures var t := Build(Vec3(0.0, 0.0, 0.0), Vec3(0.0, 0.0, 1.0), 0.0, 1.0, 10.0, 100.0,
                           Crossing(0.0, 0.0, 0.0, 0.0), []);
      && GetEnergyAsWritten(t, Some(Fin(5.0))).Failure?
      && GetEnergy(t, Some(Fin(5.0))) == Success(50.0)
  {
    var t := Build(Vec3(0.0, 0.0, 0.0), Vec3(0.0, 0.0, 1.0), 0.0, 1.0, 10.0, 100.0,
                   Crossing(0.0, 0.0, 0.0, 0.0), []);
    BuildLayout(Vec3(0.0, 0.0, 0.0), Vec3(0.0, 0.0, 1.0), 0.0, 1.0, 10.0, 100.0,
                Crossing(0.0, 0.0, 0.0, 0.0), []);
    LowerBoundRunsOffEnd(t, Some(Fin(5.0)));
    assert t.checkpoints == [Checkpoint(0.0, 100.0, 0), Checkpoint(10.0, 0.0, 1)];
    assert t.losses == [LossSum(10.0, 0.0)];
    assert UpperBound(t.checkpoints, 5.0, 1) == 1;
    assert StartCheckpoint(t, 5.0) == Some(0);
    assert LossLowerBound(t.losses, 5.0, 0, 1) == 0;
    var s := Segment(Checkpoint(0.0, 100.0, 0), Checkpoint(10.0, 0.0, 1), 0.0, 0.0);
    assert ReadSegment(t, 5.0, 0) == Success(s);
    assert SegmentEnergy(s, 5.0) == 50.0;
  }

  /** A track whose first segment has positive length and no loss record
      at or before its start reads its first checkpoint's energy there. */
  lemma GetEnergyAtStart(t: Track)
    requires |t.checkpoints| >= 2 && t.length > 0.0
    requires t.checkpoints[0].length == 0.0 && t.checkpoints[0].offset == 0
    requires t.checkpoints[1].length > 0.0 && 1 <= t.checkpoints[1].offset <= |t.losses|
    requires LossSoFar(t.losses, 0.0, 0, t.checkpoints[1].offset) == 0.0
    ensures GetEnergy(t, Some(Fin(0.0))) == Success(t.checkpoints[0].energy)
  {
    var cps, ls := t.checkpoints, t.losses;
    assert UpperBound(cps, 0.0, 1) == 1;
    assert StartCheckpoint(t, 0.0) == Some(0);
    var s := Segment(cps[0], cps[1], ls[cps[1].offset - 1].energy, 0.0);
    assert ReadSegment(t, 0.0, 0) == Success(s);
  }

  /** A track starts with its initial energy at the vertex, whether or not
      it enters the MMC volume beyond it, provided every secondary lies
      down-track of the vertex and the next checkpoint does too. */
  lemma GetEnergyAtVertex(pos: Vec3, dir: Vec3, time: real, speed: real, length: real, energy: real,
                          mmc: Crossing, secs: seq<Secondary>)
    requires length > 0.0
    requires mmc.ei > 0.0 ==> mmc.entryLength > 0.0
    requires mmc.ei <= 0.0 && mmc.ef > 0.0 ==> mmc.exitLength > 0.0
    requires forall k :: 0 <= k < |secs| ==> secs[k].length > 0.0
    ensures GetEnergy(Build(pos, dir, time, speed, length, energy, mmc, secs), Some(Fin(0.0))) == Success(energy)
  {
    var t := Build(pos, dir, time, speed, length, energy, mmc, secs);
    var cps, ls := t.checkpoints, t.losses;
    var l2 := cps[1].offset;
    if mmc.ei > 0.0 {
      assert cps[1] == Checkpoint(mmc.entryLength, mmc.ei, 1);
      assert ls[0] == LossSum(0.0, 0.0);
      assert LastAtOrBefore(ls, 0.0, 0, l2, 0);
    } else if mmc.ef > 0.0 {
      assert cps[1] == Checkpoint(mmc.exitLength, mmc.ef, |secs| + 1);
      if |secs| > 0 {
        RunningSumsAt(secs, 0);
        assert ls[0] == RunningSums(secs)[0];
      } else {
        assert ls[0] == LossSum(0.0, 0.0);
        assert LastAtOrBefore(ls, 0.0, 0, l2, 0);
      }
    } else {
      assert cps[1] == Checkpoint(length, 0.0, |secs| + 1);
      if |secs| > 0 {
        RunningSumsAt(secs, 0);
        assert ls[0] == RunningSums(secs)[0];
      } else {
        assert ls[0] == LossSum(length, 0.0);
      }
    }
    GetEnergyAtStart(t);
  }

  /** The loss lookup as written counts a loss still ahead of the query: a
      track of length 10 and energy 100 with one secondary of energy 10 at
      distance 5 is read at its vertex as 90, while the corrected lookup
      gives the full 100. */
  lemma LossLookupCountsLossAhead()
    ensures var t := Build(Vec3(0.0, 0.0, 0.0), Vec3(0.0, 0.0, 1.0), 0.0, 1.0, 10.0, 100.0,
                           Crossing(0.0, 0.0, 0.0, 0.0), [Secondary(5.0, 10.0)]);
      && LossSoFarAsWritten(t.losses, 0.0, 0, 2) == Some(10.0)
      && LossSoFar(t.losses, 0.0, 0, 2) == 0.0
      && GetEnergyAsWritten(t, Some(Fin(0.0))) == Success(90.0)
      && GetEnergy(t, Some(Fin(0.0))) == Success(100.0)
  {
    var secs := [Secondary(5.0, 10.0)];
    var t := Build(Vec3(0.0, 0.0, 0.0), Vec3(0.0, 0.0, 1.0), 0.0, 1.0, 10.0, 100.0,
                   Crossing(0.0, 0.0, 0.0, 0.0), secs);
    assert Total(secs) == 10.0 by {
      assert secs[..0] == [];
    }
    assert RunningSums(secs) == [LossSum(5.0, 10.0)] by {
      RunningSumsAt(secs, 0);
    }
    assert t.checkpoints == [Checkpoint(0.0, 100.0, 0), Checkpoint(10.0, 0.0, 2)];
    assert t.losses == [LossSum(5.0, 10.0), LossSum(10.0, 10.0)];
    assert LowerBound(t.checkpoints, 0.0, 0) == 0;
    var s := Segment(Checkpoint(0.0, 100.0, 0), Checkpoint(10.0, 0.0, 2), 10.0, 10.0);
    assert ReadSegmentAsWritten(t, 0.0, 0) == Success(s);
    assert SegmentEnergyAsWritten(s, 0.0) == 90.0;
    GetEnergyAtVertex(Vec3(0.0, 0.0, 0.0), Vec3(0.0, 0.0, 1.0), 0.0, 1.0, 10.0, 100.0,
                      Crossing(0.0, 0.0, 0.0, 0.0), secs);
  }

  /** `GetPos`: NaN out of range, otherwise the point `length` along the
      direction from the vertex. */
  function GetPos(t: Track, length: Option<Ext>): (r: Option<Vec3>)
    ensures r.Some? <==> InRange(t, length)
  {
    if !InRange(t, length) then None else Some(Along(t.pos, length.value.v, t.dir))
  }

  /** Two in-range positions differ by the distance between them times the
      direction, and the vertex is the position at distance 0. */
  lemma GetPosDisplacement(t: Track, a: real, b: real)
    requires 0.0 <= a < t.length && 0.0 <= b < t.length
    ensures GetPos(t, Some(Fin(0.0))) == Some(t.pos)
    ensures var pa, pb := GetPos(t, Some(Fin(a))).value, GetPos(t, Some(Fin(b))).value;
      pb.x - pa.x == (b - a) * t.dir.x && pb.y - pa.y == (b - a) * t.dir.y && pb.z - pa.z == (b - a) * t.dir.z
  {
  }

  /** `length / speed` in double arithmetic for a number `length >= 0`:
      dividing by zero gives +inf, or NaN for `0/0`. */
  function Delay(length: real, speed: real): (r: Option<Ext>)
    requires length >= 0.0
    ensures speed != 0.0 ==> r.Some? && r.value.Fin? && r.value.v * speed == length
    ensures speed == 0.0 ==> (r.None? <==> length == 0.0)
    ensures speed == 0.0 && length > 0.0 ==> r == Some(PosInf)
  {
    if speed != 0.0 then Some(Fin(length / speed))
    else if length == 0.0 then None
    else Some(PosInf)
  }

  /** `GetTime`: NaN out of range, otherwise the vertex time plus the
      flight time to `length`. */
  function GetTime(t: Track, length: Option<Ext>): (r: Option<Ext>)
    ensures !InRange(t, length) ==> r.None?
  {
    if !InRange(t, length) then None
    else
      match Delay(length.value.v, t.speed)
      case None => None
      case Some(NegInf) => Some(NegInf)
      case Some(PosInf) => Some(PosInf)
      case Some(Fin(d)) => Some(Fin(t.time + d))
  }

  /** At a positive speed the time is defined over the whole range, starts
      at the vertex time and grows with distance at rate `1/speed`. */
  lemma GetTimeAlongTrack(t: Track, a: real, b: real)
    requires t.speed > 0.0 && 0.0 <= a < b < t.length
    ensures GetTime(t, Some(Fin(0.0))) == Some(Fin(t.time))
    ensures var ta, tb := GetTime(t, Some(Fin(a))), GetTime(t, Some(Fin(b)));
      && ta.Some? && ta.value.Fin? && tb.Some? && tb.value.Fin?
      && ta.value.v < tb.value.v
      && (tb.value.v - ta.value.v) * t.speed == b - a
  {
    var da, db := a / t.speed, b / t.speed;
    DivideIncreasing(a, b, t.speed);
  }

  lemma DivideIncreasing(a: real, b: real, s: real)
    requires s > 0.0 && a < b
    ensures a / s < b / s && (b / s - a / s) * s == b - a
  {
  }

  // ---------------------------------------------------------------------
  // Placing the MMC crossings and the secondaries by their times

  /** The MMC record as the constructor reads it: the energies at the entry
      to and the exit from the propagation volume, and the times of those
      two points. */
  datatype MmcRecord = MmcRecord(ei: real, ti: real, ef: real, tf: real)

  /** A daughter as the MC tree gives it: its time and its energy. */
  datatype TimedSecondary = TimedSecondary(time: real, energy: real)

  /** The constructor's conversion of a time into a down-track distance, as
      written: the time since the vertex divided by the speed. */
  function DistanceOfTimeAsWritten(t: real, t0: real, speed: real): (r: real)
    requires speed != 0.0
    ensures r * speed == t - t0
  {
    (t - t0) / speed
  }

  /** The distance flown in the time since the vertex: that time times the
      speed. */
  function DistanceOfTime(t: real, t0: real, speed: real): (r: real)
    ensures speed != 0.0 ==> r / speed == t - t0
  {
    (t - t0) * speed
  }

  /** The secondaries placed at the distances a conversion gives their
      times. */
  function Placed(secs: seq<TimedSecondary>, toDistance: real -> real): (r: seq<Secondary>)
    ensures |r| == |secs|
    ensures forall k :: 0 <= k < |secs| ==> r[k] == Secondary(toDistance(secs[k].time), secs[k].energy)
  {
    seq(|secs|, k requires 0 <= k < |secs| => Secondary(toDistance(secs[k].time), secs[k].energy))
  }

  /** The constructor from the MMC record and the daughters' times, with
      the conversion as written. */
  function BuildFromTimesAsWritten(pos: Vec3, dir: Vec3, time: real, speed: real, length: real, energy: real,
                                   rec: MmcRecord, secs: seq<TimedSecondary>): (t: Track)
    requires speed != 0.0
    ensures t.speed == speed && t.time == time && t.length == length
    ensures |t.losses| >= |secs|
  {
    var place := (x: real) => DistanceOfTimeAsWritten(x, time, speed);
    Build(pos, dir, time, speed, length, energy,
          Crossing(rec.ei, place(rec.ti), rec.ef, place(rec.tf)), Placed(secs, place))
  }

  /** The constructor from the MMC record and the daughters' times, with
      each time converted into the distance flown by then. */
  function BuildFromTimes(pos: Vec3, dir: Vec3, time: real, speed: real, length: real, energy: real,
                          rec: MmcRecord, secs: seq<TimedSecondary>): (t: Track)
    ensures t.speed == speed && t.time == time && t.length == length
    ensures |t.losses| >= |secs|
  {
    var place := (x: real) => DistanceOfTime(x, time, speed);
    Build(pos, dir, time, speed, length, energy,
          Crossing(rec.ei, place(rec.ti), rec.ef, place(rec.tf)), Placed(secs, place))
  }

  /** The loss record of secondary `k` is number `k` after the entry
      record, when there is one. */
  lemma SecondaryRecord(pos: Vec3, dir: Vec3, time: real, speed: real, length: real, energy: real,
                        mmc: Crossing, secs: seq<Secondary>, k: nat)
    requires k < |secs|
    ensures var t := Build(pos, dir, time, speed, length, energy, mmc, secs);
      var e := if mmc.ei > 0.0 then 1 else 0;
      e + k < |t.losses| && t.losses[e + k].length == secs[k].length
  {
    RunningSumsAt(secs, k);
  }

  /** At a positive speed, `GetTime` at the distance of a time is that
      time, and the distance of the time `GetTime` gives is the distance
      queried. */
  lemma DistanceOfTimeInvertsGetTime(t: Track, x: real, ts: real)
    requires t.speed > 0.0
    ensures 0.0 <= x < t.length ==>
      GetTime(t, Some(Fin(x))).Some? && GetTime(t, Some(Fin(x))).value.Fin?
      && DistanceOfTime(GetTime(t, Some(Fin(x))).value.v, t.time, t.speed) == x
    ensures 0.0 <= DistanceOfTime(ts, t.time, t.speed) < t.length ==>
      GetTime(t, Some(Fin(DistanceOfTime(ts, t.time, t.speed)))) == Some(Fin(ts))
  {
    if 0.0 <= x < t.length {
      assert (x / t.speed) * t.speed == x;
    }
    var d := DistanceOfTime(ts, t.time, t.speed);
    assert d / t.speed == ts - t.time;
  }

  /** As written, at a positive speed other than 1, `GetTime` at the
      distance of a time other than the vertex time is never that time:
      the distance is off by a factor of the speed squared. */
  lemma DistanceOfTimeAsWrittenMisplaces(t: Track, ts: real)
    requires t.speed > 0.0 && t.speed != 1.0 && ts != t.time
    ensures DistanceOfTimeAsWritten(ts, t.time, t.speed) * t.speed * t.speed == DistanceOfTime(ts, t.time, t.speed)
    ensures GetTime(t, Some(Fin(DistanceOfTimeAsWritten(ts, t.time, t.speed)))) != Some(Fin(ts))
  {
    var s := t.speed;
    var d := DistanceOfTimeAsWritten(ts, t.time, s);
    assert d * s == ts - t.time;
    if InRange(t, Some(Fin(d))) && t.time + d / s == ts {
      UnitSpeed(d, s);
    }
  }

  /** Dividing and multiplying by the same positive speed agree only on 0
      or at speed 1. */
  lemma UnitSpeed(d: real, s: real)
    requires s > 0.0 && d != 0.0 && d / s == d * s
    ensures s == 1.0
  {
    assert d == (d * s) * s;
    assert d * (s * s - 1.0) == 0.0;
    assert s * s == 1.0;
    assert (s - 1.0) * (s + 1.0) == 0.0;
  }

  /** A track built from times reports, at the loss record of each
      secondary flown to within the track, that secondary's time. */
  lemma BuildFromTimesPlacesSecondaries(pos: Vec3, dir: Vec3, time: real, speed: real, length: real, energy: real,
                                        rec: MmcRecord, secs: seq<TimedSecondary>, k: nat)
    requires speed > 0.0 && k < |secs|
    requires 0.0 <= DistanceOfTime(secs[k].time, time, speed) < length
    ensures var t := BuildFromTimes(pos, dir, time, speed, length, energy, rec, secs);
      var e := if rec.ei > 0.0 then 1 else 0;
      e + k < |t.losses| && GetTime(t, Some(Fin(t.losses[e + k].length))) == Some(Fin(secs[k].time))
  {
    var place := (x: real) => DistanceOfTime(x, time, speed);
    var mmc := Crossing(rec.ei, place(rec.ti), rec.ef, place(rec.tf));
    var t := BuildFromTimes(pos, dir, time, speed, length, energy, rec, secs);
    assert t == Build(pos, dir, time, speed, length, energy, mmc, Placed(secs, place));
    SecondaryRecord(pos, dir, time, speed, length, energy, mmc, Placed(secs, place), k);
    DistanceOfTimeInvertsGetTime(t, 0.0, secs[k].time);
  }

  /** As written, at a positive speed other than 1, no secondary after the
      vertex time is reported at its time where its loss is recorded. */
  lemma BuildFromTimesAsWrittenMisplaces(pos: Vec3, dir: Vec3, time: real, speed: real, length: real, energy: real,
                                         rec: MmcRecord, secs: seq<TimedSecondary>, k: nat)
    requires speed > 0.0 && speed != 1.0 && k < |secs| && secs[k].time != time
    ensures var t := BuildFromTimesAsWritten(pos, dir, time, speed, length, energy, rec, secs);
      var e := if rec.ei > 0.0 then 1 else 0;
      e + k < |t.losses| && GetTime(t, Some(Fin(t.losses[e + k].length))) != Some(Fin(secs[k].time))
  {
    var place := (x: real) => DistanceOfTimeAsWritten(x, time, speed);
    var mmc := Crossing(rec.ei, place(rec.ti), rec.ef, place(rec.tf));
    var t := BuildFromTimesAsWritten(pos, dir, time, speed, length, energy, rec, secs);
    assert t == Build(pos, dir, time, speed, length, energy, mmc, Placed(secs, place));
    SecondaryRecord(pos, dir, time, speed, length, energy, mmc, Placed(secs, place), k);
    DistanceOfTimeAsWrittenMisplaces(t, secs[k].time);
  }

  /** A secondary 20 ns after the vertex of a track flying at 0.5 m/ns is
      recorded 40 m down the track as written, and 10 m down it corrected. */
  lemma SecondaryPlacementExample()
    ensures var rec, secs := MmcRecord(0.0, 0.0, 0.0, 0.0), [TimedSecondary(20.0, 1.0)];
      && BuildFromTimesAsWritten(Vec3(0.0, 0.0, 0.0), Vec3(0.0, 0.0, 1.0), 0.0, 0.5, 100.0, 50.0, rec, secs).losses[0].length == 40.0
      && BuildFromTimes(Vec3(0.0, 0.0, 0.0), Vec3(0.0, 0.0, 1.0), 0.0, 0.5, 100.0, 50.0, rec, secs).losses[0].length == 10.0
  {
    var rec, secs := MmcRecord(0.0, 0.0, 0.0, 0.0), [TimedSecondary(20.0, 1.0)];
    var o, z := Vec3(0.0, 0.0, 0.0), Vec3(0.0, 0.0, 1.0);
    SecondaryRecord(o, z, 0.0, 0.5, 100.0, 50.0, Crossing(0.0, 0.0, 0.0, 0.0),
                    Placed(secs, (x: real) => DistanceOfTimeAsWritten(x, 0.0, 0.5)), 0);
    SecondaryRecord(o, z, 0.0, 0.5, 100.0, 50.0, Crossing(0.0, 0.0, 0.0, 0.0),
                    Placed(secs, (x: real) => DistanceOfTime(x, 0.0, 0.5)), 0);
  }
}
