/** What a delta scan reads of one table: rows at or past a row-id watermark, accepted only when
    the known rows and the new ones add up to the number of committed rows. */
module Watermarks {

  datatype Row<T> = Row(rowId: nat, contents: T)

  datatype Scan<T(==)> = Rebuild | Inserted(rows: set<Row<T>>)

  ghost predicate Below<T(!new)>(rows: set<Row<T>>, watermark: nat)
  {
    forall r :: r in rows ==> r.rowId < watermark
  }

  /** The count check of one table, on the rows committed when the scan's transaction began. */
  function ScanTable<T(==)>(known: set<Row<T>>, watermark: nat, committed: set<Row<T>>): (s: Scan<T>)
  {
    if |committed| < |known| then Rebuild
    else
      var added := if |committed| > |known| then set r | r in committed && r.rowId >= watermark else {};
      if |known| + |added| == |committed| then Inserted(added) else Rebuild
  }

  lemma SubsetOfSameSize<T(!new)>(a: set<T>, b: set<T>)
    requires a <= b && |a| == |b|
    ensures a == b
  {
    assert |b - a| == |b| - |a|;
    assert b == a + (b - a);
  }

  lemma SmallerSubset<T>(a: set<T>, b: set<T>)
    requires a <= b
    ensures |a| <= |b|
  {
    assert |b - a| == |b| - |a|;
  }

  /** The rows of a table after a scan, beside the rows known before it and the rows committed: as many as
      were committed, and those that were not are known rows that have gone. */
  ghost predicate Balanced<T(!new)>(rows: set<Row<T>>, known: set<Row<T>>, committed: set<Row<T>>)
  {
    known <= rows && |rows| == |committed| && rows - committed == known - committed
  }

  /** An accepted scan makes up for every known row that has gone with a committed row it leaves out. */
  lemma AcceptedScanBalances<T(!new)>(known: set<Row<T>>, watermark: nat, committed: set<Row<T>>)
    requires Below(known, watermark) && ScanTable(known, watermark, committed).Inserted?
    ensures Balanced(known + ScanTable(known, watermark, committed).rows, known, committed)
  {
    var added := ScanTable(known, watermark, committed).rows;
    assert known !! added;
    assert |known + added| == |known| + |added|;
  }

  /** As many committed rows are missing as known rows have gone. */
  lemma MissingIsLost<T(!new)>(rows: set<Row<T>>, known: set<Row<T>>, committed: set<Row<T>>)
    requires Balanced(rows, known, committed)
    ensures |committed - rows| == |known - committed|
    ensures committed <= rows <==> known <= committed
    ensures rows == committed <==> known <= committed
  {
    assert |rows - committed| == |rows| - |rows * committed|;
    assert rows * committed == committed * rows;
    assert |committed - rows| == |committed| - |committed * rows|;
    if committed <= rows {
      SubsetOfSameSize(committed, rows);
    }
    if known <= committed {
      assert rows - committed == {};
      SubsetOfSameSize(rows, committed);
    }
    if rows == committed {
      assert rows - committed == {};
    }
  }

  /** An accepted scan is exact when no known row has been deleted or updated, and only then. */
  lemma AcceptedScanIsExactIff<T(!new)>(known: set<Row<T>>, watermark: nat, committed: set<Row<T>>)
    requires Below(known, watermark) && ScanTable(known, watermark, committed).Inserted?
    ensures known + ScanTable(known, watermark, committed).rows == committed <==> known <= committed
  {
    AcceptedScanBalances(known, watermark, committed);
    MissingIsLost(known + ScanTable(known, watermark, committed).rows, known, committed);
  }

  /** When the table only grew, a scan is refused exactly when a row arrived below the watermark,
      as the rows of a transaction that commits after one with higher row ids do. */
  lemma RefusedIffLateRow<T(!new)>(known: set<Row<T>>, watermark: nat, committed: set<Row<T>>)
    requires Below(known, watermark) && known <= committed
    ensures ScanTable(known, watermark, committed).Rebuild? <==>
      exists r :: r in committed && r !in known && r.rowId < watermark
  {
    var added := set r | r in committed && r.rowId >= watermark;
    assert added <= committed - known;
    assert |committed - known| == |committed| - |known|;
    if exists r :: r in committed && r !in known && r.rowId < watermark {
      var r :| r in committed && r !in known && r.rowId < watermark;
      SmallerSubset(added, (committed - known) - {r});
      assert |(committed - known) - {r}| == |committed - known| - 1;
    } else {
      assert added == committed - known;
    }
  }

  /** Where the next scan starts: past the last row read, or where this one did. */
  ghost predicate NextWatermark<T(!new)>(watermark: nat, added: set<Row<T>>, next: nat)
  {
    if added == {} then next == watermark
    else (exists r :: r in added && next == r.rowId + 1) && Below(added, next)
  }

  /** A table's part of an accepted scan: its count check passes, and the next scan starts at `next`. */
  ghost predicate TableAccepted<T(!new)>(known: set<Row<T>>, watermark: nat, committed: set<Row<T>>, next: nat)
  {
    var scan := ScanTable(known, watermark, committed);
    scan.Inserted? && NextWatermark(watermark, scan.rows, next)
  }

  lemma NextWatermarkBounds<T(!new)>(known: set<Row<T>>, watermark: nat, committed: set<Row<T>>, next: nat)
    requires Below(known, watermark) && ScanTable(known, watermark, committed).Inserted?
    requires NextWatermark(watermark, ScanTable(known, watermark, committed).rows, next)
    ensures Below(known + ScanTable(known, watermark, committed).rows, next)
  {
    var added := ScanTable(known, watermark, committed).rows;
    if added != {} {
      var r :| r in added && next == r.rowId + 1;
      assert r.rowId >= watermark;
    }
  }
}
