/** Properties of the decision engine across calls: shape of a response,
    which assignments get queued, and sticky idempotence once the queued
    writes have run. */
module DecisionProperties {
  import opened Common
  import opened Entities
  import opened Targeting
  import opened Bucketing
  import opened BucketStore
  import opened ExperimentStore
  import opened DecisionEngine

  /** At most one decision per active experiment, and at most one queued
      write per decision. */
  lemma {:induction false} AtMostOneDecisionPerExperiment(
    exps: seq<Experiment>, url: string, uid: int, rows: map<Key, Bucket>, hash: string -> Int32)
    ensures |DecisionsOf(exps, url, uid, rows, hash)| <= |exps|
    ensures |WritesOf(exps, url, uid, rows, hash)| <= |DecisionsOf(exps, url, uid, rows, hash)|
  {
    if exps != [] {
      AtMostOneDecisionPerExperiment(exps[..|exps| - 1], url, uid, rows, hash);
    }
  }

  /** Decisions come in the order of the active list: decision `k` belongs
      to experiment `idx[k]`, and the indices strictly increase. */
  lemma {:induction false} DecisionsFollowListOrder(
    exps: seq<Experiment>, url: string, uid: int, rows: map<Key, Bucket>, hash: string -> Int32)
    returns (idx: seq<nat>)
    ensures |idx| == |DecisionsOf(exps, url, uid, rows, hash)|
    ensures forall k :: 0 <= k < |idx| ==> idx[k] < |exps|
    ensures forall k :: 0 <= k < |idx| ==> DecisionsOf(exps, url, uid, rows, hash)[k].experimentId == exps[idx[k]].id
    ensures forall k, l :: 0 <= k < l < |idx| ==> idx[k] < idx[l]
  {
    if exps == [] {
      idx := [];
    } else {
      var n := |exps| - 1;
      var before := DecisionsFollowListOrder(exps[..n], url, uid, rows, hash);
      var o := OutcomeOf(exps[n], url, uid, rows, hash);
      var step := DecisionFrom(exps[n], o);
      assert DecisionsOf(exps, url, uid, rows, hash) == DecisionsOf(exps[..n], url, uid, rows, hash) + step;
      idx := ExtendIndex(exps, DecisionsOf(exps[..n], url, uid, rows, hash), before, step);
    }
  }

  /** One step of the induction above, on plain sequences: the last
      experiment contributes at most one decision, its own. */
  lemma ExtendIndex(exps: seq<Experiment>, front: seq<ExperimentDecision>, before: seq<nat>, step: seq<ExperimentDecision>)
    returns (idx: seq<nat>)
    requires exps != [] && |before| == |front|
    requires forall k :: 0 <= k < |before| ==> before[k] < |exps[..|exps| - 1]|
    requires forall k :: 0 <= k < |before| ==> front[k].experimentId == exps[..|exps| - 1][before[k]].id
    requires forall k, l :: 0 <= k < l < |before| ==> before[k] < before[l]
    requires |step| <= 1 && forall d :: d in step ==> d.experimentId == exps[|exps| - 1].id
    ensures |idx| == |front + step|
    ensures forall k :: 0 <= k < |idx| ==> idx[k] < |exps|
    ensures forall k :: 0 <= k < |idx| ==> (front + step)[k].experimentId == exps[idx[k]].id
    ensures forall k, l :: 0 <= k < l < |idx| ==> idx[k] < idx[l]
  {
    var n := |exps| - 1;
    idx := if step == [] then before else before + [n];
    forall k | 0 <= k < |idx|
      ensures (front + step)[k].experimentId == exps[idx[k]].id
    {
      if k < |before| {
        assert exps[..n][before[k]] == exps[before[k]];
      } else {
        assert (front + step)[k] == step[0];
      }
    }
  }

  /** Every queued write comes from an experiment bucketed afresh, for a
      key with no stored assignment, and carries the chosen variation. */
  lemma {:induction false} WritesComeFromFreshBucketing(
    exps: seq<Experiment>, url: string, uid: int, rows: map<Key, Bucket>, hash: string -> Int32, w: PendingWrite)
    requires w in WritesOf(exps, url, uid, rows, hash)
    ensures exists j :: (0 <= j < |exps| && OutcomeOf(exps[j], url, uid, rows, hash).Bucketed?
      && w == RecordAssignment(exps[j].id, uid, OutcomeOf(exps[j], url, uid, rows, hash).v.id))
    ensures w.userId == uid && (w.expId, uid) !in rows
  {
    var n := |exps| - 1;
    var o := OutcomeOf(exps[n], url, uid, rows, hash);
    if w in WritesOf(exps[..n], url, uid, rows, hash) {
      WritesComeFromFreshBucketing(exps[..n], url, uid, rows, hash, w);
      var j :| 0 <= j < n && OutcomeOf(exps[..n][j], url, uid, rows, hash).Bucketed?
        && w == RecordAssignment(exps[..n][j].id, uid, OutcomeOf(exps[..n][j], url, uid, rows, hash).v.id);
      assert exps[..n][j] == exps[j];
    } else {
      assert w == RecordAssignment(exps[n].id, uid, o.v.id);
    }
  }

  /** Conversely, every fresh bucketing queues its write. */
  lemma {:induction false} FreshBucketingIsQueued(
    exps: seq<Experiment>, url: string, uid: int, rows: map<Key, Bucket>, hash: string -> Int32, j: nat)
    requires j < |exps| && OutcomeOf(exps[j], url, uid, rows, hash).Bucketed?
    ensures RecordAssignment(exps[j].id, uid, OutcomeOf(exps[j], url, uid, rows, hash).v.id)
      in WritesOf(exps, url, uid, rows, hash)
  {
    var n := |exps| - 1;
    var target := RecordAssignment(exps[j].id, uid, OutcomeOf(exps[j], url, uid, rows, hash).v.id);
    var front := WritesOf(exps[..n], url, uid, rows, hash);
    var last := WriteFrom(exps[n], uid, OutcomeOf(exps[n], url, uid, rows, hash));
    assert WritesOf(exps, url, uid, rows, hash) == front + last;
    if j < n {
      assert exps[..n][j] == exps[j];
      FreshBucketingIsQueued(exps[..n], url, uid, rows, hash, j);
      assert target in front;
    } else {
      assert target in last;
    }
  }

  function WriteKey(w: PendingWrite): Key
  {
    (w.expId, w.userId)
  }

  /** Running the queued writes never replaces a stored row, adds a row
      exactly for the keys some write names, and a key named by a single
      write holds that write's assignment. */
  lemma {:induction false} ApplyWritesLookup(rows: map<Key, Bucket>, ws: seq<PendingWrite>, k: Key)
    ensures k in rows ==> k in ApplyWrites(rows, ws) && ApplyWrites(rows, ws)[k] == rows[k]
    ensures k !in rows ==> (k in ApplyWrites(rows, ws) <==> exists w :: w in ws && WriteKey(w) == k)
    ensures forall w :: (k !in rows && w in ws && WriteKey(w) == k
      && (forall w' :: w' in ws && WriteKey(w') == k ==> w' == w)
      ==> ApplyWrites(rows, ws)[k] == Bucket(w.expId, w.userId, w.varId))
    decreases |ws|
  {
    if ws != [] {
      var rows1 := Record(rows, ws[0]);
      ApplyWritesLookup(rows1, ws[1..], k);
      if k !in rows && WriteKey(ws[0]) != k {
        assert forall w :: w in ws && WriteKey(w) == k ==> w in ws[1..];
      }
    }
  }

  /** One experiment, decided again after the queued writes have run,
      yields the same decision and queues nothing. */
  lemma OutcomeAfterWrites(
    exps: seq<Experiment>, url: string, uid: int, rows: map<Key, Bucket>, hash: string -> Int32, j: nat)
    requires DistinctExperimentIds(exps)
    requires forall e :: e in exps ==> DistinctVariationIds(e.variations)
    requires j < |exps|
    ensures var rows' := ApplyWrites(rows, WritesOf(exps, url, uid, rows, hash));
      && DecisionFrom(exps[j], OutcomeOf(exps[j], url, uid, rows', hash))
         == DecisionFrom(exps[j], OutcomeOf(exps[j], url, uid, rows, hash))
      && WriteFrom(exps[j], uid, OutcomeOf(exps[j], url, uid, rows', hash)) == []
  {
    var ws := WritesOf(exps, url, uid, rows, hash);
    var rows' := ApplyWrites(rows, ws);
    var e := exps[j];
    var k := (e.id, uid);
    var o := OutcomeOf(e, url, uid, rows, hash);
    ApplyWritesLookup(rows, ws, k);
    // Any queued write for this key comes from this very experiment.
    forall w | w in ws && WriteKey(w) == k
      ensures o.Bucketed? && w == RecordAssignment(e.id, uid, o.v.id)
    {
      WritesComeFromFreshBucketing(exps, url, uid, rows, hash, w);
      var i :| 0 <= i < |exps| && OutcomeOf(exps[i], url, uid, rows, hash).Bucketed?
        && w == RecordAssignment(exps[i].id, uid, OutcomeOf(exps[i], url, uid, rows, hash).v.id);
      assert exps[i].id == e.id;
      assert i == j;
    }
    if Targets(e, url) && k !in rows {
      if o.Bucketed? {
        FreshBucketingIsQueued(exps, url, uid, rows, hash, j);
        var w := RecordAssignment(e.id, uid, o.v.id);
        assert rows'[k] == Bucket(e.id, uid, o.v.id);
        FindVariationOfMember(e.variations, o.v);
      } else {
        assert k !in rows';
      }
    }
  }

  /** Pointwise agreement of every experiment gives agreement of the
      whole response. */
  lemma {:induction false} SameDecisionsWhenPointwise(
    exps: seq<Experiment>, url: string, uid: int, rows: map<Key, Bucket>, rows': map<Key, Bucket>, hash: string -> Int32)
    requires forall j :: 0 <= j < |exps| ==>
      && DecisionFrom(exps[j], OutcomeOf(exps[j], url, uid, rows', hash))
         == DecisionFrom(exps[j], OutcomeOf(exps[j], url, uid, rows, hash))
      && WriteFrom(exps[j], uid, OutcomeOf(exps[j], url, uid, rows', hash)) == []
    ensures DecisionsOf(exps, url, uid, rows', hash) == DecisionsOf(exps, url, uid, rows, hash)
    ensures WritesOf(exps, url, uid, rows', hash) == []
  {
    if exps != [] {
      var n := |exps| - 1;
      forall j | 0 <= j < n
        ensures exps[..n][j] == exps[j]
      {
      }
      SameDecisionsWhenPointwise(exps[..n], url, uid, rows, rows', hash);
    }
  }

  /** Sticky idempotence: once the writes queued by a decision have run,
      the same request gets the same decisions and queues no write. */
  lemma StickyIdempotence(exps: seq<Experiment>, url: string, uid: int, rows: map<Key, Bucket>, hash: string -> Int32)
    requires DistinctExperimentIds(exps)
    requires forall e :: e in exps ==> DistinctVariationIds(e.variations)
    ensures var rows' := ApplyWrites(rows, WritesOf(exps, url, uid, rows, hash));
      && DecisionsOf(exps, url, uid, rows', hash) == DecisionsOf(exps, url, uid, rows, hash)
      && WritesOf(exps, url, uid, rows', hash) == []
  {
    var rows' := ApplyWrites(rows, WritesOf(exps, url, uid, rows, hash));
    forall j | 0 <= j < |exps|
      ensures DecisionFrom(exps[j], OutcomeOf(exps[j], url, uid, rows', hash))
              == DecisionFrom(exps[j], OutcomeOf(exps[j], url, uid, rows, hash))
      ensures WriteFrom(exps[j], uid, OutcomeOf(exps[j], url, uid, rows', hash)) == []
    {
      OutcomeAfterWrites(exps, url, uid, rows, hash, j);
    }
    SameDecisionsWhenPointwise(exps, url, uid, rows, rows', hash);
  }
}
