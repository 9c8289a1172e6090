/** The assignment store (src/bucket/repository/BucketRepositoryImp.py):
    committed (experiment, visitor) -> variation assignments, at most one
    per key. The table's unique constraint on (expId, endUserId) is the
    map's key; a duplicate insert is the `IntegrityError` path. */
module BucketStore {
  import opened Common

  datatype Bucket = Bucket(expId: int, endUserId: int, variationId: int)

  type Key = (int, int)

  function KeyOf(b: Bucket): Key
  {
    (b.expId, b.endUserId)
  }

  /** Every row sits under its own (expId, endUserId) key. */
  ghost predicate WellKeyed(rows: map<Key, Bucket>)
  {
    forall k :: k in rows ==> KeyOf(rows[k]) == k
  }

  /** What one `add` does to the table, and the row it returns: a new key
      is inserted and the argument returned; an existing key leaves the
      table as it was and returns the row already stored. */
  function AddOutcome(rows: map<Key, Bucket>, b: Bucket): (map<Key, Bucket>, Bucket)
  {
    if KeyOf(b) in rows then (rows, rows[KeyOf(b)]) else (rows[KeyOf(b) := b], b)
  }

  /** Successive `add` calls: the final table and each call's result.
      Rows already stored never change, the table gains exactly the keys
      inserted, and each call returns the row the table ends up holding
      under its key. */
  function AddAll(rows: map<Key, Bucket>, bs: seq<Bucket>): (r: (map<Key, Bucket>, seq<Bucket>))
    ensures |r.1| == |bs|
    ensures forall k :: k in rows ==> k in r.0 && r.0[k] == rows[k]
    ensures forall k :: k in r.0 <==> k in rows || exists i :: 0 <= i < |bs| && KeyOf(bs[i]) == k
    ensures forall i :: 0 <= i < |bs| ==> KeyOf(bs[i]) in r.0 && r.0[KeyOf(bs[i])] == r.1[i]
    decreases |bs|
  {
    if bs == [] then (rows, [])
    else
      var (rows1, first) := AddOutcome(rows, bs[0]);
      var (rows2, rest) := AddAll(rows1, bs[1..]);
      (rows2, [first] + rest)
  }

  /** An `add` keeps the table well keyed, leaves every other key's row
      as it was, and afterwards the key is present holding the returned row. */
  lemma AddKeepsOtherRows(rows: map<Key, Bucket>, b: Bucket)
    requires WellKeyed(rows)
    ensures var (rows', stored) := AddOutcome(rows, b);
      && WellKeyed(rows')
      && rows'.Keys == rows.Keys + {KeyOf(b)}
      && rows'[KeyOf(b)] == stored && KeyOf(stored) == KeyOf(b)
      && forall k :: k in rows && k != KeyOf(b) ==> rows'[k] == rows[k]
  {
  }

  /** However many `add` calls race on one key, every one of them returns
      the same row: the one already stored, or else the first call's. */
  lemma {:induction false} RepeatedAddsReturnFirstRow(rows: map<Key, Bucket>, bs: seq<Bucket>, k: Key)
    requires WellKeyed(rows)
    requires forall i :: 0 <= i < |bs| ==> KeyOf(bs[i]) == k
    requires |bs| > 0
    ensures var winner := if k in rows then rows[k] else bs[0];
      && AddAll(rows, bs).0 == rows[k := winner]
      && forall i :: 0 <= i < |bs| ==> AddAll(rows, bs).1[i] == winner
    decreases |bs|
  {
    var winner := if k in rows then rows[k] else bs[0];
    var rows1 := AddOutcome(rows, bs[0]).0;
    assert rows1 == rows[k := winner];
    if |bs| > 1 {
      RepeatedAddsReturnFirstRow(rows1, bs[1..], k);
      assert rows1[k] == winner;
    }
  }

  class BucketRepository {
    var rows: map<Key, Bucket>

    ghost predicate Valid()
      reads this
    {
      WellKeyed(rows)
    }

    constructor ()
      ensures Valid() && rows == map[]
    {
      rows := map[];
    }

    /** `get`: the row whose expId and endUserId both match, if any. */
    method Get(experimentId: int, endUserId: int) returns (r: Option<Bucket>)
      requires Valid()
      ensures r.Some? <==> (experimentId, endUserId) in rows
      ensures r.Some? ==> r.value == rows[(experimentId, endUserId)]
      ensures r.Some? ==> r.value.expId == experimentId && r.value.endUserId == endUserId
    {
      var key := (experimentId, endUserId);
      if key in rows {
        r := Some(rows[key]);
      } else {
        r := None;
      }
    }

    /** `add`: insert, or on a unique-key violation roll back and return
        the row that is already stored. */
    method Add(bucket: Bucket) returns (stored: Bucket)
      requires Valid()
      modifies this
      ensures Valid()
      ensures (rows, stored) == AddOutcome(old(rows), bucket)
      ensures KeyOf(bucket) in rows && rows[KeyOf(bucket)] == stored
      ensures forall k :: k in old(rows) ==> k in rows && (k != KeyOf(bucket) ==> rows[k] == old(rows)[k])
    {
      var key := KeyOf(bucket);
      if key !in rows {
        rows := rows[key := bucket];
        stored := bucket;
      } else {
        // IntegrityError: the insert is rolled back and the winner re-read.
        var existing := Get(bucket.expId, bucket.endUserId);
        stored := existing.value;
      }
    }
  }
}
