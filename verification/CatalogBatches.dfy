/**
  Re-batching of catalog metadata rows into record batches of 1024 rows:
  `CombineCatalogItems` (vgi/catalog_collection.go) slices the batches of many
  small streams, `encodeCatalogRecords` (vgi/catalog_collection_direct.go) cuts
  one list of one-row records.  Both are proved to give the one batching of
  their rows.
 */
module CatalogBatches {
  import opened Wrappers

  const BATCH_ROWS := 1024

  /** The rows of a list of batches, in order. */
  function Flatten<T>(batches: seq<seq<T>>): seq<T> {
    if batches == [] then [] else Flatten(batches[..|batches| - 1]) + batches[|batches| - 1]
  }

  /** The rows of a list of items, each an IPC stream of record batches. */
  function ItemRows<T>(items: seq<seq<seq<T>>>): seq<T> {
    if items == [] then [] else ItemRows(items[..|items| - 1]) + Flatten(items[|items| - 1])
  }

  predicate Full<T>(batches: seq<seq<T>>) {
    forall i :: 0 <= i < |batches| ==> |batches[i]| == BATCH_ROWS
  }

  /** `batches` holds exactly `rows`, 1024 at a time, with a last batch that is
      shorter only if it must be and is never empty. */
  predicate Batched<T(==)>(rows: seq<T>, batches: seq<seq<T>>) {
    && Flatten(batches) == rows
    && (batches != [] ==>
          && Full(batches[..|batches| - 1])
          && 0 < |batches[|batches| - 1]| <= BATCH_ROWS)
  }

  /** What a category field may hold: absent without rows, else the batches. */
  predicate Served<T(==)>(rows: seq<T>, stream: Option<seq<seq<T>>>) {
    match stream
    case None => rows == []
    case Some(batches) => rows != [] && Batched(rows, batches)
  }

  function StreamRows<T>(stream: Option<seq<seq<T>>>): seq<T> {
    match stream
    case None => []
    case Some(batches) => Flatten(batches)
  }

  lemma {:induction false} FullLength<T>(batches: seq<seq<T>>)
    requires Full(batches)
    ensures |Flatten(batches)| == BATCH_ROWS * |batches|
  {
    if batches != [] {
      FullLength(batches[..|batches| - 1]);
    }
  }

  lemma {:induction false} FullBatchingIsUnique<T>(a: seq<seq<T>>, b: seq<seq<T>>)
    requires Full(a) && Full(b)
    requires Flatten(a) == Flatten(b)
    ensures a == b
  {
    FullLength(a);
    FullLength(b);
    if a != [] {
      var n := |a| - 1;
      FullLength(a[..n]);
      FullLength(b[..n]);
      var rows := Flatten(a);
      assert rows[..BATCH_ROWS * n] == Flatten(a[..n]) == Flatten(b[..n]);
      assert rows[BATCH_ROWS * n..] == a[n] == b[n];
      FullBatchingIsUnique(a[..n], b[..n]);
      assert a == a[..n] + [a[n]];
      assert b == b[..n] + [b[n]];
    }
  }

  /** There is one batching of every list of rows: batch boundaries are a
      function of the rows alone. */
  lemma BatchingIsUnique<T>(rows: seq<T>, a: seq<seq<T>>, b: seq<seq<T>>)
    requires Batched(rows, a) && Batched(rows, b)
    ensures a == b
  {
    if a != [] && b != [] {
      var n, m := |a| - 1, |b| - 1;
      FullLength(a[..n]);
      FullLength(b[..m]);
      assert |rows| == BATCH_ROWS * n + |a[n]| == BATCH_ROWS * m + |b[m]|;
      assert n == m;
      assert rows[..BATCH_ROWS * n] == Flatten(a[..n]) == Flatten(b[..n]);
      assert rows[BATCH_ROWS * n..] == a[n] == b[n];
      FullBatchingIsUnique(a[..n], b[..n]);
      assert a == a[..n] + [a[n]];
      assert b == b[..n] + [b[n]];
    }
  }

  /** Two fields that serve the same rows are the same field. */
  lemma ServedIsUnique<T>(rows: seq<T>, a: Option<seq<seq<T>>>, b: Option<seq<seq<T>>>)
    requires Served(rows, a) && Served(rows, b)
    ensures a == b
  {
    if a.Some? && b.Some? {
      BatchingIsUnique(rows, a.value, b.value);
    }
  }

  lemma FlattenSnoc<T>(batches: seq<seq<T>>, batch: seq<T>)
    ensures Flatten(batches + [batch]) == Flatten(batches) + batch
  {
    assert (batches + [batch])[..|batches|] == batches;
  }

  /** Loop state of `CombineCatalogItems`: `written` are the batches flushed so
      far, `records` the slices waiting for the next flush. */
  predicate Filling<T(==)>(rows: seq<T>, written: seq<seq<T>>, records: seq<seq<T>>, pendingRows: nat) {
    && Full(written)
    && Flatten(written) + Flatten(records) == rows
    && pendingRows == |Flatten(records)|
    && (records == [] <==> pendingRows == 0)
  }

  /** `flush`: concatenate the pending slices into one batch and write it. */
  method Flush<T>(written: seq<seq<T>>, records: seq<seq<T>>) returns (out: seq<seq<T>>)
    ensures out == if records == [] then written else written + [Flatten(records)]
  {
    out := written;
    if |records| != 0 {
      var batch: seq<T> := [];
      for i := 0 to |records|
        invariant batch == Flatten(records[..i])
      {
        FlattenSnoc(records[..i], records[i]);
        assert records[..i + 1] == records[..i] + [records[i]];
        batch := batch + records[i];
      }
      assert records[..|records|] == records;
      out := written + [batch];
    }
  }

  /** The inner loop: cut one record batch at the points where a batch fills. */
  method AddRecord<T(==)>(r: seq<T>, ghost rows: seq<T>, written0: seq<seq<T>>, records0: seq<seq<T>>, pending0: nat)
    returns (written: seq<seq<T>>, records: seq<seq<T>>, pendingRows: nat)
    requires Filling(rows, written0, records0, pending0) && pending0 < BATCH_ROWS
    ensures Filling(rows + r, written, records, pendingRows) && pendingRows < BATCH_ROWS
  {
    written, records, pendingRows := written0, records0, pending0;
    var offset := 0;
    assert rows + r[..0] == rows;
    while offset < |r|
      invariant offset <= |r|
      invariant pendingRows < BATCH_ROWS
      invariant Filling(rows + r[..offset], written, records, pendingRows)
    {
      var room := offset + BATCH_ROWS - pendingRows;
      var end := if room < |r| then room else |r|;
      FlattenSnoc(records, r[offset..end]);
      assert rows + r[..end] == rows + r[..offset] + r[offset..end];
      records := records + [r[offset..end]];
      pendingRows := pendingRows + (end - offset);
      offset := end;
      assert Filling(rows + r[..offset], written, records, pendingRows);
      if pendingRows >= BATCH_ROWS {
        FlattenSnoc(written, Flatten(records));
        written := Flush(written, records);
        records, pendingRows := [], 0;
      }
    }
    assert r[..|r|] == r;
  }

  method AddItem<T(==)>(item: seq<seq<T>>, ghost rows: seq<T>, written0: seq<seq<T>>, records0: seq<seq<T>>,
                        pending0: nat)
    returns (written: seq<seq<T>>, records: seq<seq<T>>, pendingRows: nat)
    requires Filling(rows, written0, records0, pending0) && pending0 < BATCH_ROWS
    ensures Filling(rows + Flatten(item), written, records, pendingRows) && pendingRows < BATCH_ROWS
  {
    written, records, pendingRows := written0, records0, pending0;
    assert rows + Flatten<T>(item[..0]) == rows;
    for i := 0 to |item|
      invariant pendingRows < BATCH_ROWS
      invariant Filling(rows + Flatten(item[..i]), written, records, pendingRows)
    {
      written, records, pendingRows := AddRecord(item[i], rows + Flatten(item[..i]), written, records, pendingRows);
      FlattenSnoc(item[..i], item[i]);
      assert item[..i + 1] == item[..i] + [item[i]];
      assert rows + Flatten(item[..i + 1]) == rows + Flatten(item[..i]) + item[i];
    }
    assert item[..|item|] == item;
  }

  lemma LastFlushBatches<T>(rows: seq<T>, written: seq<seq<T>>, records: seq<seq<T>>, pendingRows: nat,
                            out: seq<seq<T>>)
    requires Filling(rows, written, records, pendingRows) && pendingRows < BATCH_ROWS
    requires out == if records == [] then written else written + [Flatten(records)]
    ensures Batched(rows, out)
  {
    if records == [] {
      assert rows == Flatten(written);
    } else {
      FlattenSnoc(written, Flatten(records));
      assert out[..|out| - 1] == written;
    }
  }

  /** vgi/catalog_collection.go, `CombineCatalogItems`. */
  method CombineCatalogItems<T(==)>(items: seq<seq<seq<T>>>) returns (stream: Option<seq<seq<T>>>)
    ensures Served(ItemRows(items), stream)
  {
    if |items| == 0 {
      return None;
    }
    var written: seq<seq<T>> := [];
    var records: seq<seq<T>> := [];
    var pendingRows: nat, totalRows: nat := 0, 0;
    for i := 0 to |items|
      invariant pendingRows < BATCH_ROWS
      invariant totalRows == |ItemRows(items[..i])|
      invariant Filling(ItemRows(items[..i]), written, records, pendingRows)
    {
      totalRows := totalRows + |Flatten(items[i])|;
      written, records, pendingRows := AddItem(items[i], ItemRows(items[..i]), written, records, pendingRows);
      assert items[..i + 1][..i] == items[..i];
    }
    assert items[..|items|] == items;
    var out := Flush(written, records);
    LastFlushBatches(ItemRows(items), written, records, pendingRows, out);
    if totalRows == 0 {
      return None;
    }
    return Some(out);
  }

  /** vgi/catalog_collection_direct.go, `encodeCatalogRecords`: one-row records,
      cut by offset. */
  method EncodeCatalogRecords<T(==)>(records: seq<T>) returns (stream: Option<seq<seq<T>>>)
    ensures Served(records, stream)
  {
    if |records| == 0 {
      return None;
    }
    var out: seq<seq<T>> := [];
    var offset := 0;
    while offset < |records|
      invariant offset == BATCH_ROWS * |out| || (offset >= |records| && out != [])
      invariant Batched(records[..if offset < |records| then offset else |records|], out)
      invariant offset < |records| ==> Full(out)
    {
      var end := if offset + BATCH_ROWS < |records| then offset + BATCH_ROWS else |records|;
      var chunk := records[offset..end];
      FlattenSnoc(out, chunk);
      assert records[..end] == records[..offset] + chunk;
      assert (out + [chunk])[..|out|] == out;
      out := out + [chunk];
      offset := offset + BATCH_ROWS;
    }
    assert records[..|records|] == records;
    return Some(out);
  }

  /** Where the last batch of `n` rows starts. */
  function LastStart(n: nat): (k: nat)
    requires n > 0
    ensures k < n <= k + BATCH_ROWS && k % BATCH_ROWS == 0
    ensures n % BATCH_ROWS == 0 ==> n == k + BATCH_ROWS
  {
    (n - 1) / BATCH_ROWS * BATCH_ROWS
  }

  /** The one batching, as a function. */
  function Cut<T>(rows: seq<T>): seq<seq<T>> {
    if rows == [] then [] else Cut(rows[..LastStart(|rows|)]) + [rows[LastStart(|rows|)..]]
  }

  function StreamOf<T>(rows: seq<T>): Option<seq<seq<T>>> {
    if rows == [] then None else Some(Cut(rows))
  }

  lemma {:induction false} CutIsBatched<T>(rows: seq<T>)
    ensures Batched(rows, Cut(rows))
    ensures |rows| % BATCH_ROWS == 0 ==> Full(Cut(rows))
  {
    if rows != [] {
      var k := LastStart(|rows|);
      CutIsBatched(rows[..k]);
      FlattenSnoc(Cut(rows[..k]), rows[k..]);
      assert rows[..k] + rows[k..] == rows;
      assert (Cut(rows[..k]) + [rows[k..]])[..|Cut(rows[..k])|] == Cut(rows[..k]);
    }
  }

  /** A field serves rows exactly when it is their one batching. */
  lemma ServedExact<T>(rows: seq<T>, stream: Option<seq<seq<T>>>)
    ensures Served(rows, stream) <==> stream == StreamOf(rows)
  {
    CutIsBatched(rows);
    if Served(rows, stream) {
      ServedIsUnique(rows, stream, StreamOf(rows));
    }
  }

  /** A batching has one batch per 1024 rows begun, each but the last of 1024 rows. */
  lemma BatchCount<T>(rows: seq<T>, batches: seq<seq<T>>)
    requires Batched(rows, batches)
    ensures |batches| == (|rows| + 1023) / 1024
    ensures forall i :: 0 <= i < |batches| - 1 ==> |batches[i]| == 1024
    ensures batches != [] ==> 1 <= |batches[|batches| - 1]| <= 1024
  {
    if batches != [] {
      var n := |batches| - 1;
      FullLength(batches[..n]);
      assert |rows| == 1024 * n + |batches[n]|;
      forall i | 0 <= i < n ensures |batches[i]| == 1024 { assert batches[..n][i] == batches[i]; }
    }
  }
}
