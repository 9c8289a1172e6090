/** The metrics table: per-experiment conversion goals with a QA and a
    LIVE trigger counter. */
module MetricsStore {
  import opened Common
  import opened Entities

  datatype TriggerMode = QA | LIVE

  const MetricNotFound := "Metric not found"
  const MetricNotFoundOnTrack := "Metric not found!"

  predicate DistinctMetricIds(rows: seq<Metric>)
  {
    forall i, j :: 0 <= i < j < |rows| ==> rows[i].id != rows[j].id
  }

  predicate HasId(rows: seq<Metric>, id: int)
  {
    exists i :: 0 <= i < |rows| && rows[i].id == id
  }

  /** Where the row with id `id` sits, if any. */
  function IndexOf(rows: seq<Metric>, id: int): (r: Option<nat>)
    ensures r.Some? ==> r.value < |rows| && rows[r.value].id == id
    ensures r.None? ==> !HasId(rows, id)
  {
    if rows == [] then None
    else if rows[|rows| - 1].id == id then Some(|rows| - 1)
    else
      IndexOf(rows[..|rows| - 1], id)
  }

  /** The metrics of one experiment, in table order. */
  function OfExperiment(rows: seq<Metric>, experimentId: int): (r: seq<Metric>)
    ensures forall m :: m in r <==> m in rows && m.experimentId == experimentId
    ensures |r| <= |rows|
  {
    if rows == [] then []
    else
      var front := OfExperiment(rows[..|rows| - 1], experimentId);
      var last := rows[|rows| - 1];
      assert rows == rows[..|rows| - 1] + [last];
      if last.experimentId == experimentId then front + [last] else front
  }

  /** The table without the row whose id is `id`. */
  function Without(rows: seq<Metric>, id: int): (r: seq<Metric>)
    ensures forall m :: m in r <==> m in rows && m.id != id
    ensures |r| <= |rows|
  {
    if rows == [] then []
    else
      var front := Without(rows[..|rows| - 1], id);
      var last := rows[|rows| - 1];
      assert rows == rows[..|rows| - 1] + [last];
      if last.id != id then front + [last] else front
  }

  /** `m` with the counter of `mode` raised by one. */
  function Bumped(m: Metric, mode: TriggerMode): Metric
  {
    if mode == QA then m.(triggeredOnQa := m.triggeredOnQa + 1)
    else m.(triggeredOnLive := m.triggeredOnLive + 1)
  }

  /** The table after `UPDATE ... SET counter = counter + 1 WHERE id = id`. */
  function Incremented(rows: seq<Metric>, id: int, mode: TriggerMode): (r: seq<Metric>)
    ensures |r| == |rows| && forall i :: 0 <= i < |rows| ==> r[i].id == rows[i].id
  {
    seq(|rows|, i requires 0 <= i < |rows| => if rows[i].id == id then Bumped(rows[i], mode) else rows[i])
  }

  function QaTotal(rows: seq<Metric>): int
  {
    if rows == [] then 0 else QaTotal(rows[..|rows| - 1]) + rows[|rows| - 1].triggeredOnQa
  }

  function LiveTotal(rows: seq<Metric>): int
  {
    if rows == [] then 0 else LiveTotal(rows[..|rows| - 1]) + rows[|rows| - 1].triggeredOnLive
  }

  /** An increment touches one counter of the metric with that id and
      nothing else: every other field of it and every other row is kept. */
  lemma IncrementTouchesOneCounter(rows: seq<Metric>, id: int, mode: TriggerMode, i: nat)
    requires i < |rows|
    ensures |Incremented(rows, id, mode)| == |rows|
    ensures var after := Incremented(rows, id, mode)[i];
      && (rows[i].id != id ==> after == rows[i])
      && (rows[i].id == id && mode == QA ==>
            after == rows[i].(triggeredOnQa := rows[i].triggeredOnQa + 1))
      && (rows[i].id == id && mode == LIVE ==>
            after == rows[i].(triggeredOnLive := rows[i].triggeredOnLive + 1))
  {
  }

  lemma {:induction false} IncrementedTotals(rows: seq<Metric>, id: int, mode: TriggerMode)
    requires DistinctMetricIds(rows)
    ensures QaTotal(Incremented(rows, id, mode)) ==
      QaTotal(rows) + (if mode == QA && HasId(rows, id) then 1 else 0)
    ensures LiveTotal(Incremented(rows, id, mode)) ==
      LiveTotal(rows) + (if mode == LIVE && HasId(rows, id) then 1 else 0)
    decreases |rows|
  {
    if rows != [] {
      var front := rows[..|rows| - 1];
      IncrementedTotals(front, id, mode);
      assert Incremented(rows, id, mode)[..|rows| - 1] == Incremented(front, id, mode);
      if rows[|rows| - 1].id == id {
        assert !HasId(front, id);
      }
      assert HasId(rows, id) <==> HasId(front, id) || rows[|rows| - 1].id == id;
    }
  }

  /** Tracking a trigger raises the counters of its mode across the
      table by exactly one when the metric exists and by zero otherwise;
      the counters of the other mode keep their sum. */
  lemma TrackingCountsOnce(rows: seq<Metric>, id: int, mode: TriggerMode)
    requires DistinctMetricIds(rows)
    ensures mode == QA ==>
      && QaTotal(Incremented(rows, id, mode)) == QaTotal(rows) + (if HasId(rows, id) then 1 else 0)
      && LiveTotal(Incremented(rows, id, mode)) == LiveTotal(rows)
    ensures mode == LIVE ==>
      && LiveTotal(Incremented(rows, id, mode)) == LiveTotal(rows) + (if HasId(rows, id) then 1 else 0)
      && QaTotal(Incremented(rows, id, mode)) == QaTotal(rows)
  {
    IncrementedTotals(rows, id, mode);
  }

  class MetricsRepository {
    var rows: seq<Metric>
    var nextId: int

    ghost predicate Valid()
      reads this
    {
      && DistinctMetricIds(rows)
      && forall i :: 0 <= i < |rows| ==> rows[i].id < nextId
    }

    constructor ()
      ensures Valid() && rows == []
    {
      rows := [];
      nextId := 1;
    }

    /** `add`: persist a new metric; the store assigns its id. */
    method Add(m: Metric) returns (saved: Metric)
      requires Valid()
      modifies this
      ensures Valid()
      ensures saved == m.(id := old(nextId))
      ensures rows == old(rows) + [saved]
    {
      saved := m.(id := nextId);
      rows := rows + [saved];
      nextId := nextId + 1;
    }

    /** `getByExperimentId` */
    function GetByExperimentId(experimentId: int): (r: seq<Metric>)
      reads this
      ensures forall m :: m in r <==> m in rows && m.experimentId == experimentId
    {
      OfExperiment(rows, experimentId)
    }

    /** `getById`: the metric with that id, or 404. */
    function GetById(id: int): (r: Result<Metric>)
      reads this
      ensures r.Ok? <==> HasId(rows, id)
      ensures r.Ok? ==> r.value in rows && r.value.id == id
      ensures r.Err? ==> r.error == Http(NotFound, MetricNotFound)
    {
      match IndexOf(rows, id)
      case Some(i) => Ok(rows[i])
      case None => Err(Http(NotFound, MetricNotFound))
    }

    /** `delete`: remove the row with the metric's primary key. */
    method Delete(m: Metric)
      requires Valid()
      modifies this
      ensures Valid()
      ensures rows == Without(old(rows), m.id)
      ensures GetById(m.id).Err?
    {
      WithoutKeepsDistinct(rows, m.id);
      ghost var before := rows;
      rows := Without(rows, m.id);
      forall i | 0 <= i < |rows|
        ensures rows[i].id < nextId
      {
        assert rows[i] in before;
        var k :| 0 <= k < |before| && before[k] == rows[i];
      }
    }

    /** `incrementTrigger`: QA raises `triggeredOnQA`, any other mode
        `triggeredOnLIVE`, of the row with that id; when no row matched
        the result is 404 "Metric not found!" and the table is unchanged. */
    method IncrementTrigger(id: int, mode: TriggerMode) returns (r: Result<()>)
      requires Valid()
      modifies this
      ensures Valid()
      ensures rows == Incremented(old(rows), id, mode)
      ensures r.Err? <==> !HasId(old(rows), id)
      ensures r.Err? ==> r.error == Http(NotFound, MetricNotFoundOnTrack) && rows == old(rows)
    {
      var rowcount := 0;
      var i := 0;
      while i < |rows|
        invariant 0 <= i <= |rows| == |old(rows)|
        invariant nextId == old(nextId)
        invariant rows[..i] == Incremented(old(rows)[..i], id, mode)
        invariant rows[i..] == old(rows)[i..]
        invariant rowcount == 0 <==> forall k :: 0 <= k < i ==> old(rows)[k].id != id
      {
        if rows[i].id == id {
          rows := rows[i := Bumped(rows[i], mode)];
          rowcount := rowcount + 1;
        }
        assert rows[..i + 1] == rows[..i] + [rows[i]];
        assert old(rows)[..i + 1] == old(rows)[..i] + [old(rows)[i]];
        i := i + 1;
      }
      assert rows == rows[..i] && old(rows) == old(rows)[..i];
      if rowcount == 0 {
        assert Incremented(old(rows), id, mode) == old(rows);
        return Err(Http(NotFound, MetricNotFoundOnTrack));
      }
      r := Ok(());
    }
  }

  lemma {:induction false} WithoutKeepsDistinct(rows: seq<Metric>, id: int)
    requires DistinctMetricIds(rows)
    ensures DistinctMetricIds(Without(rows, id))
    decreases |rows|
  {
    if rows != [] {
      var front := rows[..|rows| - 1];
      WithoutKeepsDistinct(front, id);
      var last := rows[|rows| - 1];
      forall m | m in Without(front, id)
        ensures m.id != last.id
      {
        var k :| 0 <= k < |front| && front[k] == m;
      }
    }
  }
}
