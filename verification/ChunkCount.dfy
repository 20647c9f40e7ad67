/** The row count a chunked step reports: what it is for any table, and when it is the number of rows. */
module ChunkCount {
  import opened Wrappers
  import opened Sequences
  import opened Migration

  // ---------- one batch -------------------------------------------------------------

  /** No row left unfetched shares the batch's last key. */
  predicate EndsBetweenKeys(walk: Walk, rows: Rows, cursor: Option<Key>, ids: seq<nat>, upto: Key) {
    forall id | id in walk.Pending(rows, cursor) && id !in ids :: walk.keyOf(rows[id]) != upto
  }

  /** Fetched and left rows add up to what was pending exactly when the batch ends between keys;
      otherwise the unfetched rows that share its last key are written and not counted. */
  lemma BatchCountsExactly(walk: Walk, rows: Rows, cursor: Option<Key>, ids: seq<nat>, upto: Key)
    requires walk.KeepsKeys() && walk.IsBatch(rows, cursor, ids) && ids != []
    requires upto == walk.keyOf(rows[ids[|ids| - 1]])
    ensures var left := walk.Pending(walk.Write(rows, cursor, Some(upto)), Some(upto));
            && |left| + |ids| <= |walk.Pending(rows, cursor)|
            && (|left| + |ids| == |walk.Pending(rows, cursor)| <==> EndsBetweenKeys(walk, rows, cursor, ids, upto))
  {
    var pending := walk.Pending(rows, cursor);
    var left := walk.Pending(walk.Write(rows, cursor, Some(upto)), Some(upto));
    BatchCountsItsRows(walk, rows, cursor, ids, upto);
    BatchShrinks(walk, rows, cursor, upto);
    DistinctCount(ids);
    assert Elements(ids) <= pending && left <= pending - Elements(ids) by {
      LeftIsUnfetched(walk, rows, cursor, ids, upto);
    }
    assert |pending - Elements(ids)| == |pending| - |ids|;
    forall id | id in pending && id !in ids
      ensures id in left <==> walk.keyOf(rows[id]) != upto
    {
      LessTotal(upto, walk.keyOf(rows[id]));
    }
    if EndsBetweenKeys(walk, rows, cursor, ids, upto) {
      assert left == pending - Elements(ids);
    } else {
      var id :| id in pending && id !in ids && walk.keyOf(rows[id]) == upto;
      assert left <= pending - Elements(ids) - {id};
      SubsetSize(left, pending - Elements(ids) - {id});
    }
  }

  /** Three rows under one key, walked two at a time: the batch writes all three and counts two. */
  lemma SharedKeyIsUndercounted(key: Key, write: Row -> Option<Row>)
    ensures var walk := Walk(2, (_: Row) => key, (_: Row) => true, write);
            var rows: Rows := map[0 := map[], 1 := map[], 2 := map[]];
            && walk.IsBatch(rows, None, [0, 1]) && |walk.Pending(rows, None)| == 3
            && walk.Pending(walk.Write(rows, None, Some(key)), Some(key)) == {}
            && !EndsBetweenKeys(walk, rows, None, [0, 1], key)
  {
    var walk := Walk(2, (_: Row) => key, (_: Row) => true, write);
    var rows: Rows := map[0 := map[], 1 := map[], 2 := map[]];
    LessTotal(key, key);
    assert walk.Pending(rows, None) == {0, 1, 2};
  }

  // ---------- the rows at or below a key --------------------------------------------

  /** The pending rows up to a key. */
  function UpTo(walk: Walk, rows: Rows, cursor: Option<Key>, key: Key): set<nat> {
    set id | id in walk.Pending(rows, cursor) && !Less(key, walk.keyOf(rows[id]))
  }

  lemma UpToGrows(walk: Walk, rows: Rows, cursor: Option<Key>, a: Key, b: Key)
    requires !Less(b, a)
    ensures UpTo(walk, rows, cursor, a) <= UpTo(walk, rows, cursor, b)
  {
    LessTotal(a, b);
    forall id | id in UpTo(walk, rows, cursor, a)
      ensures !Less(b, walk.keyOf(rows[id]))
    {
      if Less(b, walk.keyOf(rows[id])) && Less(a, b) {
        LessTransitive(a, b, walk.keyOf(rows[id]));
      }
    }
  }

  /** A batch lies up to its last key, and holds every row below it. */
  lemma BatchAround(walk: Walk, rows: Rows, cursor: Option<Key>, ids: seq<nat>, upto: Key)
    requires walk.IsBatch(rows, cursor, ids) && ids != [] && upto == walk.keyOf(rows[ids[|ids| - 1]])
    ensures Elements(ids) <= UpTo(walk, rows, cursor, upto)
    ensures forall id | id in walk.Pending(rows, cursor) && Less(walk.keyOf(rows[id]), upto) :: id in ids
    ensures |Elements(ids)| == |ids|
  {
    DistinctCount(ids);
    LessTotal(upto, upto);
  }

  /** Two batches of the same rows end at the same key. */
  lemma BatchKeyIsUnique(walk: Walk, rows: Rows, cursor: Option<Key>, a: seq<nat>, b: seq<nat>)
    requires walk.IsBatch(rows, cursor, a) && walk.IsBatch(rows, cursor, b) && a != []
    ensures |a| == |b| && walk.keyOf(rows[a[|a| - 1]]) == walk.keyOf(rows[b[|b| - 1]])
  {
    BatchNotBelow(walk, rows, cursor, a, b);
    BatchNotBelow(walk, rows, cursor, b, a);
    LessTotal(walk.keyOf(rows[a[|a| - 1]]), walk.keyOf(rows[b[|b| - 1]]));
  }

  lemma BatchNotBelow(walk: Walk, rows: Rows, cursor: Option<Key>, a: seq<nat>, b: seq<nat>)
    requires walk.IsBatch(rows, cursor, a) && walk.IsBatch(rows, cursor, b) && a != [] && |a| == |b|
    ensures !Less(walk.keyOf(rows[a[|a| - 1]]), walk.keyOf(rows[b[|b| - 1]]))
  {
    var low, high := walk.keyOf(rows[a[|a| - 1]]), walk.keyOf(rows[b[|b| - 1]]);
    if Less(low, high) {
      BatchAround(walk, rows, cursor, a, low);
      BatchAround(walk, rows, cursor, b, high);
      forall id | id in a
        ensures id in Elements(b) - {b[|b| - 1]}
      {
        assert id in Elements(a);
        BelowThenBelow(walk.keyOf(rows[id]), low, high);
      }
      SubsetSize(Elements(a), Elements(b) - {b[|b| - 1]});
    }
  }

  lemma BelowThenBelow(a: Key, b: Key, c: Key)
    requires !Less(b, a) && Less(b, c)
    ensures Less(a, c) && a != c
  {
    LessTotal(a, b);
    LessTotal(c, c);
    if Less(a, b) {
      LessTransitive(a, b, c);
    }
  }

  // ---------- the whole walk --------------------------------------------------------

  lemma BatchLeavesFewer(walk: Walk, rows: Rows, cursor: Option<Key>, ids: seq<nat>)
    requires walk.KeepsKeys() && walk.IsBatch(rows, cursor, ids) && ids != []
    ensures ids[|ids| - 1] in walk.Pending(rows, cursor)
    ensures var upto := Some(walk.keyOf(rows[ids[|ids| - 1]]));
            |walk.Pending(walk.Write(rows, cursor, upto), upto)| < |walk.Pending(rows, cursor)|
  {
    assert ids[|ids| - 1] in walk.Pending(rows, cursor);
    BatchCountsItsRows(walk, rows, cursor, ids, walk.keyOf(rows[ids[|ids| - 1]]));
  }

  /** The rows a walk from `cursor` counts: the sizes of its batches. */
  ghost function Reported(walk: Walk, rows: Rows, cursor: Option<Key>): nat
    requires walk.Checked()
    decreases |walk.Pending(rows, cursor)|
  {
    SomeBatch(walk, rows, cursor);
    var ids :| walk.IsBatch(rows, cursor, ids);
    if ids == [] then 0
    else
      BatchLeavesFewer(walk, rows, cursor, ids);
      var upto := Some(walk.keyOf(rows[ids[|ids| - 1]]));
      |ids| + Reported(walk, walk.Write(rows, cursor, upto), upto)
  }

  /** The count does not depend on how the database breaks ties between equal keys. */
  lemma ReportedAfterBatch(walk: Walk, rows: Rows, cursor: Option<Key>, ids: seq<nat>)
    requires walk.Checked() && walk.IsBatch(rows, cursor, ids)
    ensures ids == [] ==> Reported(walk, rows, cursor) == 0
    ensures ids != [] ==>
              ids[|ids| - 1] in walk.Pending(rows, cursor) &&
              var upto := Some(walk.keyOf(rows[ids[|ids| - 1]]));
              Reported(walk, rows, cursor) == |ids| + Reported(walk, walk.Write(rows, cursor, upto), upto)
  {
    hide Walk.Write;
    SomeBatch(walk, rows, cursor);
    SameSize(walk, rows, cursor, ids);
    if ids != [] {
      BatchLeavesFewer(walk, rows, cursor, ids);
      forall other | walk.IsBatch(rows, cursor, other)
        ensures |other| == |ids| && other[|other| - 1] in walk.Pending(rows, cursor)
        ensures walk.keyOf(rows[other[|other| - 1]]) == walk.keyOf(rows[ids[|ids| - 1]])
      {
        assert other[|other| - 1] in walk.Pending(rows, cursor);
        BatchKeyIsUnique(walk, rows, cursor, ids, other);
      }
    }
  }

  lemma SameSize(walk: Walk, rows: Rows, cursor: Option<Key>, ids: seq<nat>)
    requires walk.IsBatch(rows, cursor, ids)
    ensures forall other | walk.IsBatch(rows, cursor, other) :: |other| == |ids|
  {
  }

  /** At every multiple of the batch size below the number of rows, some key has exactly that many
      rows up to it: no group of equal keys straddles a batch boundary. */
  ghost predicate EvenlyKeyed(walk: Walk, rows: Rows, cursor: Option<Key>) {
    forall m: nat | m > 0 && m * walk.size < |walk.Pending(rows, cursor)| :: Boundary(walk, rows, cursor, m)
  }

  ghost predicate Boundary(walk: Walk, rows: Rows, cursor: Option<Key>, m: nat) {
    exists id :: id in walk.Pending(rows, cursor) && |UpTo(walk, rows, cursor, walk.keyOf(rows[id]))| == m * walk.size
  }

  /** Past a batch: the rows up to a later key are the batch's and those left up to it. */
  lemma UpToSplits(walk: Walk, rows: Rows, cursor: Option<Key>, upto: Key, key: Key)
    requires walk.KeepsKeys() && After(cursor, upto) && Less(upto, key)
    ensures var next := walk.Write(rows, cursor, Some(upto));
            |UpTo(walk, rows, cursor, key)| == |UpTo(walk, rows, cursor, upto)| + |UpTo(walk, next, Some(upto), key)|
  {
    var next := walk.Write(rows, cursor, Some(upto));
    BatchShrinks(walk, rows, cursor, upto);
    LessTotal(upto, key);
    UpToGrows(walk, rows, cursor, upto, key);
    LeftIsSame(walk, rows, cursor, upto);
    assert UpTo(walk, next, Some(upto), key) == UpTo(walk, rows, cursor, key) - UpTo(walk, rows, cursor, upto);
  }

  lemma LeftIsSame(walk: Walk, rows: Rows, cursor: Option<Key>, upto: Key)
    ensures var next := walk.Write(rows, cursor, Some(upto));
            forall id | id in walk.Pending(next, Some(upto)) && id in rows && Less(upto, walk.keyOf(rows[id])) :: next[id] == rows[id]
  {
  }

  lemma LeftAndUpTo(walk: Walk, rows: Rows, cursor: Option<Key>, upto: Key)
    requires walk.KeepsKeys() && After(cursor, upto)
    ensures var left := walk.Pending(walk.Write(rows, cursor, Some(upto)), Some(upto));
            |left| + |UpTo(walk, rows, cursor, upto)| == |walk.Pending(rows, cursor)|
  {
    BatchShrinks(walk, rows, cursor, upto);
    var left := walk.Pending(walk.Write(rows, cursor, Some(upto)), Some(upto));
    hide Walk.Write, Walk.KeepsKeys, Walk.Pending, After, Less;
    Divided(walk.Pending(rows, cursor), left, UpTo(walk, rows, cursor, upto));
  }

  lemma Divided(whole: set<nat>, left: set<nat>, fetched: set<nat>)
    requires forall id :: id in whole <==> id in left || id in fetched
    requires left !! fetched
    ensures |left| + |fetched| == |whole|
  {
    assert whole == left + fetched;
  }

  /** The first multiple is met exactly when the first batch ends between keys. */
  lemma FirstBoundary(walk: Walk, rows: Rows, cursor: Option<Key>, ids: seq<nat>, upto: Key)
    requires walk.Checked() && walk.IsBatch(rows, cursor, ids) && |ids| == walk.size
    requires upto == walk.keyOf(rows[ids[|ids| - 1]])
    ensures Boundary(walk, rows, cursor, 1) <==> EndsBetweenKeys(walk, rows, cursor, ids, upto)
    ensures EndsBetweenKeys(walk, rows, cursor, ids, upto) <==> |UpTo(walk, rows, cursor, upto)| == walk.size
  {
    var last := ids[|ids| - 1];
    assert last in walk.Pending(rows, cursor);
    BatchCountsExactly(walk, rows, cursor, ids, upto);
    LeftAndUpTo(walk, rows, cursor, upto);
    BatchAround(walk, rows, cursor, ids, upto);
    hide Walk.Write, EndsBetweenKeys;
    forall id | id in walk.Pending(rows, cursor) && |UpTo(walk, rows, cursor, walk.keyOf(rows[id]))| == walk.size
      ensures walk.keyOf(rows[id]) == upto
    {
      OnlyLastKey(walk, rows, cursor, ids, upto, id);
    }
  }

  lemma OnlyLastKey(walk: Walk, rows: Rows, cursor: Option<Key>, ids: seq<nat>, upto: Key, id: nat)
    requires walk.IsBatch(rows, cursor, ids) && ids != [] && upto == walk.keyOf(rows[ids[|ids| - 1]])
    requires id in walk.Pending(rows, cursor) && |UpTo(walk, rows, cursor, walk.keyOf(rows[id]))| == |ids|
    ensures walk.keyOf(rows[id]) == upto
  {
    var key := walk.keyOf(rows[id]);
    BatchAround(walk, rows, cursor, ids, upto);
    LessTotal(key, upto);
    if Less(key, upto) {
      forall other | other in UpTo(walk, rows, cursor, key)
        ensures other in Elements(ids) - {ids[|ids| - 1]}
      {
        BelowThenBelow(walk.keyOf(rows[other]), key, upto);
      }
      SubsetSize(UpTo(walk, rows, cursor, key), Elements(ids) - {ids[|ids| - 1]});
    } else if Less(upto, key) {
      UpToGrows(walk, rows, cursor, upto, key);
      LessTotal(key, key);
      SubsetSize(Elements(ids) + {id}, UpTo(walk, rows, cursor, key));
    }
  }

  /** Later multiples are met exactly when those of the rows left are. */
  lemma LaterBoundary(walk: Walk, rows: Rows, cursor: Option<Key>, upto: Key, m: nat)
    requires walk.Checked() && After(cursor, upto) && m > 0 && |UpTo(walk, rows, cursor, upto)| == walk.size
    ensures Boundary(walk, rows, cursor, m + 1) <==> Boundary(walk, walk.Write(rows, cursor, Some(upto)), Some(upto), m)
  {
    var next := walk.Write(rows, cursor, Some(upto));
    BatchShrinks(walk, rows, cursor, upto);
    LeftIsSame(walk, rows, cursor, upto);
    Multiple(m, walk.size);
    hide Walk.Write, UpTo;
    forall id | id in walk.Pending(next, Some(upto))
      ensures id in walk.Pending(rows, cursor) && next[id] == rows[id]
      ensures |UpTo(walk, rows, cursor, walk.keyOf(rows[id]))| == walk.size + |UpTo(walk, next, Some(upto), walk.keyOf(rows[id]))|
    {
      UpToSplits(walk, rows, cursor, upto, walk.keyOf(rows[id]));
    }
    forall id | id in walk.Pending(rows, cursor) && |UpTo(walk, rows, cursor, walk.keyOf(rows[id]))| == (m + 1) * walk.size
      ensures id in walk.Pending(next, Some(upto))
    {
      if !Less(upto, walk.keyOf(rows[id])) {
        UpToGrows(walk, rows, cursor, walk.keyOf(rows[id]), upto);
        SubsetSize(UpTo(walk, rows, cursor, walk.keyOf(rows[id])), UpTo(walk, rows, cursor, upto));
      }
    }
  }

  lemma Multiple(m: nat, size: nat)
    ensures (m + 1) * size == m * size + size
    ensures m > 0 && size > 0 ==> (m + 1) * size > size
  {
    assert m > 0 && size > 0 ==> m * size > 0;
  }

  lemma EvenlyKeyedStep(walk: Walk, rows: Rows, cursor: Option<Key>, ids: seq<nat>, upto: Key)
    requires walk.Checked() && walk.IsBatch(rows, cursor, ids) && ids != []
    requires upto == walk.keyOf(rows[ids[|ids| - 1]])
    ensures EvenlyKeyed(walk, rows, cursor) <==>
              EndsBetweenKeys(walk, rows, cursor, ids, upto) && EvenlyKeyed(walk, walk.Write(rows, cursor, Some(upto)), Some(upto))
  {
    var next := walk.Write(rows, cursor, Some(upto));
    assert ids[|ids| - 1] in walk.Pending(rows, cursor);
    LeftAndUpTo(walk, rows, cursor, upto);
    BatchCountsExactly(walk, rows, cursor, ids, upto);
    if |ids| < walk.size || |walk.Pending(rows, cursor)| == walk.size {
      LastBatch(walk, rows, cursor, ids, upto);
    } else {
      FirstBoundary(walk, rows, cursor, ids, upto);
      if EndsBetweenKeys(walk, rows, cursor, ids, upto) {
        hide Walk.Write, Walk.IsBatch, Boundary, EndsBetweenKeys, UpTo;
        forall m: nat | m > 0
          ensures Boundary(walk, rows, cursor, m + 1) <==> Boundary(walk, next, Some(upto), m)
          ensures m * walk.size < |walk.Pending(next, Some(upto))| <==> (m + 1) * walk.size < |walk.Pending(rows, cursor)|
        {
          LaterBoundary(walk, rows, cursor, upto, m);
          Multiple(m, walk.size);
        }
        Shifted(walk, rows, cursor, next, upto);
      } else {
        assert 1 * walk.size < |walk.Pending(rows, cursor)| && !Boundary(walk, rows, cursor, 1);
      }
    }
  }

  lemma Shifted(walk: Walk, rows: Rows, cursor: Option<Key>, next: Rows, upto: Key)
    requires Boundary(walk, rows, cursor, 1)
    requires forall m: nat | m > 0 :: Boundary(walk, rows, cursor, m + 1) <==> Boundary(walk, next, Some(upto), m)
    requires forall m: nat | m > 0 ::
               m * walk.size < |walk.Pending(next, Some(upto))| <==> (m + 1) * walk.size < |walk.Pending(rows, cursor)|
    ensures EvenlyKeyed(walk, rows, cursor) <==> EvenlyKeyed(walk, next, Some(upto))
  {
    hide Boundary, Walk.Pending;
    if EvenlyKeyed(walk, rows, cursor) {
      forall m: nat | m > 0 && m * walk.size < |walk.Pending(next, Some(upto))|
        ensures Boundary(walk, next, Some(upto), m)
      {
        assert Boundary(walk, rows, cursor, m + 1);
      }
    }
    if EvenlyKeyed(walk, next, Some(upto)) {
      forall m: nat | m > 0 && m * walk.size < |walk.Pending(rows, cursor)|
        ensures Boundary(walk, rows, cursor, m)
      {
        if m > 1 {
          assert Boundary(walk, next, Some(upto), m - 1);
          assert Boundary(walk, rows, cursor, m - 1 + 1);
        }
      }
    }
  }

  /** A batch that takes every row straddles nothing. */
  lemma LastBatch(walk: Walk, rows: Rows, cursor: Option<Key>, ids: seq<nat>, upto: Key)
    requires walk.Checked() && walk.IsBatch(rows, cursor, ids) && ids != []
    requires upto == walk.keyOf(rows[ids[|ids| - 1]]) && |ids| == |walk.Pending(rows, cursor)| <= walk.size
    ensures EndsBetweenKeys(walk, rows, cursor, ids, upto) && EvenlyKeyed(walk, rows, cursor)
    ensures EvenlyKeyed(walk, walk.Write(rows, cursor, Some(upto)), Some(upto))
  {
    assert ids[|ids| - 1] in walk.Pending(rows, cursor);
    DistinctCount(ids);
    SubsetSize(Elements(ids), walk.Pending(rows, cursor));
    BatchCountsExactly(walk, rows, cursor, ids, upto);
    AtMostOneBatch(walk.size);
  }

  lemma AtMostOneBatch(size: nat)
    requires size > 0
    ensures forall m: nat | m > 0 :: m * size >= size
  {
  }

  /** The count is never too high, and is the number of rows exactly when no group of equal keys
      straddles a batch boundary. */
  lemma {:induction false} ReportedExactly(walk: Walk, rows: Rows, cursor: Option<Key>)
    requires walk.Checked()
    ensures Reported(walk, rows, cursor) <= |walk.Pending(rows, cursor)|
    ensures Reported(walk, rows, cursor) == |walk.Pending(rows, cursor)| <==> EvenlyKeyed(walk, rows, cursor)
    decreases |walk.Pending(rows, cursor)|
  {
    hide Walk.Write, EvenlyKeyed, UpTo;
    var ids := BatchExists(walk, rows, cursor);
    ReportedAfterBatch(walk, rows, cursor, ids);
    if ids == [] {
      NothingStraddles(walk, rows, cursor);
    } else {
      BatchLeavesFewer(walk, rows, cursor, ids);
      var upto := walk.keyOf(rows[ids[|ids| - 1]]);
      ReportedExactly(walk, walk.Write(rows, cursor, Some(upto)), Some(upto));
      BatchCountsExactly(walk, rows, cursor, ids, upto);
      EvenlyKeyedStep(walk, rows, cursor, ids, upto);
    }
  }

  lemma NothingStraddles(walk: Walk, rows: Rows, cursor: Option<Key>)
    requires walk.Checked() && |walk.Pending(rows, cursor)| == 0
    ensures EvenlyKeyed(walk, rows, cursor)
  {
  }

  /** Distinct walk keys are enough: every row is counted. */
  lemma {:induction false} DistinctKeysCountAll(walk: Walk, rows: Rows, cursor: Option<Key>)
    requires walk.Checked() && walk.DistinctKeys(rows)
    ensures Reported(walk, rows, cursor) == |walk.Pending(rows, cursor)|
    decreases |walk.Pending(rows, cursor)|
  {
    var ids := BatchExists(walk, rows, cursor);
    ReportedAfterBatch(walk, rows, cursor, ids);
    if ids != [] {
      BatchLeavesFewer(walk, rows, cursor, ids);
      var last := ids[|ids| - 1];
      var upto := walk.keyOf(rows[last]);
      BatchCountsExactly(walk, rows, cursor, ids, upto);
      assert EndsBetweenKeys(walk, rows, cursor, ids, upto);
      DistinctKeysStay(walk, rows, cursor, upto);
      DistinctKeysCountAll(walk, walk.Write(rows, cursor, Some(upto)), Some(upto));
    }
  }

  lemma DistinctKeysStay(walk: Walk, rows: Rows, cursor: Option<Key>, upto: Key)
    requires walk.KeepsKeys() && walk.DistinctKeys(rows)
    ensures walk.DistinctKeys(walk.Write(rows, cursor, Some(upto)))
  {
    var next := walk.Write(rows, cursor, Some(upto));
    assert forall id | id in next :: walk.keyOf(next[id]) == walk.keyOf(rows[id]);
  }
}
