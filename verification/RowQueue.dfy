// BoundedRowQueue (src/l2_pipeline/sinks/parquet_sink.py): a queue that makes room by dropping its
// oldest row.
module RowQueue {
  import opened Rows

  class BoundedRowQueue {
    const maxsize: int
    var items: seq<SnapshotRow>
    var rowsDropped: nat
    /** Every row ever put, and for every row handed out its position among them. */
    ghost var puts: seq<SnapshotRow>
    ghost var takenAt: seq<nat>

    /** The queue is the tail of everything put; every row put was handed out, is queued or was
        dropped; and rows are handed out in the order they were put. */
    ghost predicate Valid()
      reads this
    {
      && |items| <= |puts| && items == puts[|puts| - |items|..]
      && (maxsize > 0 ==> |items| <= maxsize)
      && |puts| == |takenAt| + |items| + rowsDropped
      && (forall i :: 0 <= i < |takenAt| ==> takenAt[i] < |puts| - |items|)
      && (forall i, j :: 0 <= i < j < |takenAt| ==> takenAt[i] < takenAt[j])
    }

    /** The rows handed out, in the order they were. */
    ghost function Consumed(): seq<SnapshotRow>
      reads this
      requires Valid()
    {
      seq(|takenAt|, i requires 0 <= i < |takenAt| && Valid() reads this => puts[takenAt[i]])
    }

    constructor (maxsize: int)
      ensures Valid() && this.maxsize == maxsize && items == puts == [] && takenAt == [] && rowsDropped == 0
    {
      this.maxsize := maxsize;
      items, rowsDropped, puts, takenAt := [], 0, [], [];
    }

    /** An asyncio.Queue whose maxsize is not positive is never full. */
    method Put(row: SnapshotRow) returns (evicted: bool)
      requires Valid()
      modifies this
      ensures Valid() && puts == old(puts) + [row] && takenAt == old(takenAt) && Consumed() == old(Consumed())
      ensures evicted <==> maxsize > 0 && |old(items)| == maxsize
      ensures items == (if evicted then old(items)[1..] else old(items)) + [row]
      ensures rowsDropped == old(rowsDropped) + if evicted then 1 else 0
    {
      puts := puts + [row];
      if maxsize <= 0 || |items| < maxsize {
        items := items + [row];
        return false;
      }
      items := items[1..];
      rowsDropped := rowsDropped + 1;
      items := items + [row];
      return true;
    }

    method Get() returns (row: SnapshotRow)
      requires Valid() && items != []
      modifies this
      ensures Valid() && puts == old(puts) && rowsDropped == old(rowsDropped)
      ensures row == old(items)[0] && items == old(items)[1..]
      ensures Consumed() == old(Consumed()) + [row] && |takenAt| == |old(takenAt)| + 1
    {
      takenAt := takenAt + [|puts| - |items|];
      row := items[0];
      items := items[1..];
    }
  }
}
